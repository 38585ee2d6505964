/** The names a run stages its artifacts under are distinct, for every build the catalog
    or a bundle yields (src/core/stage.rs:65-131, src/core/catalog.rs:30-39, 417-465,
    src/core/bundle.rs:40-50, 352-482). */
module StagedNames {
  import opened Wrappers
  import opened Bytes
  import opened Text
  import opened Sorting
  import opened PackNames
  import opened Profiles
  import BootPair
  import opened Staging
  import opened InstallRun

  const UBOOT_IMAGE: string := "u-boot-rockchip.bin"
  const BOOT_MENU_IMAGE: string := "bootmenu-falcon.itb"
  const RECOVERY_IMAGE: string := "recovery-falcon.itb"

  // --- locations --------------------------------------------------------------------

  /** `sibling_of`. */
  function SiblingOf(location: string, name: string): string {
    match LastIndex(location, '/') case Some(cut) => location[..cut + 1] + name case None => name
  }

  predicate PlainName(name: string) {
    name != [] && '/' !in name
  }

  /** A name appended to a base is staged under it, with what follows the base's last
      slash in front. */
  lemma FileNameAppended(base: string, name: string)
    requires PlainName(name)
    ensures FileName(base + name) == LastSegment(base) + name
  {
    var path := base + name;
    assert name[|name| - 1] in name && path[|path| - 1] == name[|name| - 1];
    assert TrimEnd(path) == path;
    hide TrimEnd;
    LastSlashStays(base, name);
    hide LastIndex;
    if LastIndex(base, '/').Some? {
      assert path[LastIndex(base, '/').value + 1..] == base[LastIndex(base, '/').value + 1..] + name;
    }
  }

  lemma LastSlashStays(base: string, name: string)
    requires '/' !in name
    ensures LastIndex(base + name, '/') == LastIndex(base, '/')
  {
    var path := base + name;
    hide LastIndex;
    assert forall j :: |base| <= j < |path| ==> path[j] == name[j - |base|] && name[j - |base|] in name;
    assert forall j :: 0 <= j < |base| ==> path[j] == base[j];
  }

  lemma SiblingNamed(location: string, name: string)
    requires PlainName(name)
    ensures FileName(SiblingOf(location, name)) == name
  {
    match LastIndex(location, '/')
    case Some(cut) =>
      assert location[..cut + 1] == location[..cut] + "/";
      FileNameIs(location[..cut], name);
    case None =>
      FileNameAppended("", name);
      assert "" + name == name;
  }

  /** Every way the sources locate an image stages it under the image's own name: beside
      a manifest, as a sibling of another image, and inside a bundle. */
  lemma ImagesKeepTheirNames(base: string, board: string, other: string, dir: string, name: string)
    requires PlainName(name) && dir != [] && dir[0] != '/'
    ensures FileName(base + board + "/" + name) == name
    ensures FileName(SiblingOf(other, name)) == name
    ensures FileName(Join(base, dir + "/" + board + "/" + name)) == name
  {
    FileNameIs(base + board, name);
    SiblingNamed(other, name);
    JoinedImage(base, dir, board, name);
  }

  lemma JoinedImage(base: string, dir: string, board: string, name: string)
    requires PlainName(name) && dir != [] && dir[0] != '/'
    ensures FileName(Join(base, dir + "/" + board + "/" + name)) == name
  {
    var rel := dir + "/" + board + "/" + name;
    assert rel[0] == dir[0];
    assert TrimStart(rel) == rel;
    FileNameIs(TrimEnd(base) + "/" + dir + "/" + board, name);
    hide FileName, TrimEnd, TrimStart;
    assert Join(base, rel) == (TrimEnd(base) + "/" + dir + "/" + board) + "/" + name;
  }

  // --- the packs of a listing ---------------------------------------------------------

  predicate IsPackName(fname: string) {
    ParsePack(fname).Some? || ParseHome(fname).Some?
  }

  lemma PackNameEnds(fname: string)
    requires IsPackName(fname)
    ensures |fname| >= 4 && fname[|fname| - 1] == 't'
  {
    var stem := StripSuffix(fname, ".zst");
    assert stem.Some? && stem.value + ".zst" == fname;
  }

  /** Every listed pack and seed is staged under its bare name, after `tail`. */
  ghost predicate StagedAfter(items: seq<Listed>, tail: string) {
    forall k :: 0 <= k < |items| && IsPackName(items[k].fname) ==>
      FileName(items[k].file.location) == tail + items[k].fname
  }

  lemma RootfsStaged(base: string, source: Source, files: seq<FileEntry>)
    ensures StagedAfter(RootfsItems(base, source, files), LastSegment(base))
  {
    var items := RootfsItems(base, source, files);
    hide IsPackName, LastIndex;
    forall k | 0 <= k < |items| && IsPackName(items[k].fname)
      ensures FileName(items[k].file.location) == LastSegment(base) + items[k].fname
    {
      PackNameEnds(items[k].fname);
      SegmentIsPlain(files[k].path);
      FileNameAppended(base, items[k].fname);
    }
  }

  lemma SegmentIsPlain(path: string)
    ensures '/' !in LastSegment(path)
  {
  }

  lemma {:induction false} BundleStaged(base: string, source: Source, files: seq<FileEntry>)
    ensures StagedAfter(BundleItems(base, source, files), "")
  {
    hide IsPackName, FileName;
    if files != [] {
      var f := files[|files| - 1];
      BundleStaged(base, source, files[..|files| - 1]);
      hide Join;
      match BundleName(f.path)
      case None =>
      case Some(fname) =>
        if IsPackName(fname) {
          PackNameEnds(fname);
          BundleFileStaged(base, f.path, fname);
        }
    }
  }

  lemma BundleFileStaged(base: string, path: string, fname: string)
    requires BundleName(path) == Some(fname) && fname != []
    ensures FileName(Join(base, path)) == "" + fname
  {
    assert path == PACKS_DIR + "/" + fname;
    assert PACKS_DIR[0] == 'p' && path[0] == 'p';
    assert TrimStart(path) == path;
    assert Join(base, path) == (TrimEnd(base) + "/" + PACKS_DIR) + "/" + fname;
    FileNameIs(TrimEnd(base) + "/" + PACKS_DIR, fname);
  }

  lemma {:induction false} LastPackListed(items: seq<Listed>, name: string, incremental: bool) returns (k: nat)
    requires LastPack(items, name, incremental).Some?
    ensures k < |items| && items[k].file == LastPack(items, name, incremental).value
    ensures ParseHome(items[k].fname).None? && ParsePack(items[k].fname).Some?
    ensures ParsePack(items[k].fname).value.name == name && ParsePack(items[k].fname).value.incremental == incremental
  {
    hide ParsePack, ParseHome;
    var n := |items| - 1;
    var p := ParsePack(items[n].fname);
    if ParseHome(items[n].fname).None? && p.Some? && p.value.name == name && p.value.incremental == incremental {
      return n;
    }
    k := LastPackListed(items[..n], name, incremental);
  }

  lemma {:induction false} LastHomeListed(items: seq<Listed>) returns (k: nat)
    requires LastHome(items).Some?
    ensures k < |items| && items[k].file == LastHome(items).value && ParseHome(items[k].fname).Some?
  {
    hide ParseHome;
    var n := |items| - 1;
    if ParseHome(items[n].fname).Some? {
      return n;
    }
    k := LastHomeListed(items[..n]);
  }

  // --- what a staged name stands for -----------------------------------------------------

  datatype Key = Image(rel: string) | Seed | PackOf(name: string, incremental: bool)

  /** What a staged name stands for, given the tail packs are staged after. */
  function KeyOf(rel: string, tail: string): Key {
    if !StartsWith(rel, tail) then Image(rel)
    else
      var fname := rel[|tail|..];
      if ParseHome(fname).Some? then Seed
      else match ParsePack(fname)
        case Some(p) => PackOf(p.name, p.incremental)
        case None => Image(rel)
  }

  lemma ImageKey(rel: string, tail: string)
    requires rel != [] && rel[|rel| - 1] != 't'
    ensures KeyOf(rel, tail) == Image(rel)
  {
    hide ParseHome, ParsePack;
    if StartsWith(rel, tail) && IsPackName(rel[|tail|..]) {
      PackNameEnds(rel[|tail|..]);
    }
  }

  lemma ListedKey(fname: string, tail: string)
    ensures ParseHome(fname).Some? ==> KeyOf(tail + fname, tail) == Seed
    ensures ParseHome(fname).None? && ParsePack(fname).Some? ==>
              KeyOf(tail + fname, tail) == PackOf(ParsePack(fname).value.name, ParsePack(fname).value.incremental)
  {
    assert (tail + fname)[|tail|..] == fname && (tail + fname)[..|tail|] == tail;
    hide ParseHome, ParsePack;
  }

  /** Every artifact of a part of the plan is staged under its file's own name, which
      stands for one of these keys. */
  ghost predicate Keyed(part: seq<Artifact>, tail: string, keys: set<Key>) {
    forall i :: 0 <= i < |part| ==>
      part[i].rel == FileName(part[i].file.location) && KeyOf(part[i].rel, tail) in keys
  }

  ghost predicate Told(part: seq<Artifact>, tail: string, keys: set<Key>) {
    DistinctRels(part) && Keyed(part, tail, keys)
  }

  lemma Joined(a: seq<Artifact>, b: seq<Artifact>, tail: string, p: set<Key>, q: set<Key>)
    requires Told(a, tail, p) && Told(b, tail, q) && p !! q
    ensures Told(a + b, tail, p + q)
  {
    hide KeyOf, FileName;
    var c := a + b;
    forall i, j | 0 <= i < j < |c|
      ensures c[i].rel != c[j].rel
    {
      if i < |a| <= j {
        assert KeyOf(a[i].rel, tail) in p && KeyOf(b[j - |a|].rel, tail) in q;
      }
    }
  }

  // --- the profiles of a build -------------------------------------------------------------

  lemma {:induction false} InsertUnique(x: Profile, s: seq<Profile>)
    requires UniqueNames(s) && forall i :: 0 <= i < |s| ==> s[i].name != x.name
    ensures UniqueNames(Insert(x, s, MinimalFirst))
    ensures forall p :: p in Insert(x, s, MinimalFirst) <==> p == x || p in s
  {
    hide MinimalFirst;
    if s != [] && !MinimalFirst(x, s[0]) {
      InsertUnique(x, s[1..]);
      var t := Insert(x, s[1..], MinimalFirst);
      assert forall i :: 0 <= i < |t| ==> t[i] in t;
      assert s == [s[0]] + s[1..];
    } else {
      assert Insert(x, s, MinimalFirst) == [x] + s;
    }
  }

  lemma {:induction false} SortUnique(s: seq<Profile>)
    requires UniqueNames(s)
    ensures UniqueNames(SortBy(s, MinimalFirst))
    ensures forall p :: p in SortBy(s, MinimalFirst) <==> p in s
  {
    if s != [] {
      SortUnique(s[1..]);
      var t := SortBy(s[1..], MinimalFirst);
      forall i | 0 <= i < |t|
        ensures t[i].name != s[0].name
      {
        assert t[i] in s[1..];
      }
      hide Insert;
      InsertUnique(s[0], t);
      assert s == [s[0]] + s[1..];
    }
  }

  lemma {:induction false} ExtrasUnique(profiles: seq<Profile>, selected: seq<string>)
    requires UniqueNames(profiles)
    ensures UniqueNames(Extras(profiles, selected))
    ensures forall p :: p in Extras(profiles, selected) ==> p in profiles
  {
    if profiles != [] {
      var n := |profiles| - 1;
      ExtrasUnique(profiles[..n], selected);
      var init := Extras(profiles[..n], selected);
      forall i | 0 <= i < |init|
        ensures init[i].name != profiles[n].name
      {
        assert init[i] in profiles[..n];
      }
    }
  }

  /** The packs and seed of a build are staged under the keys they should be. */
  ghost predicate WellStaged(build: Contents, tail: string) {
    && UniqueNames(build.profiles)
    && (build.home.Some? ==> KeyOf(FileName(build.home.value.location), tail) == Seed)
    && forall p :: p in build.profiles ==>
         && (p.full.Some? ==> KeyOf(FileName(p.full.value.location), tail) == PackOf(p.name, false))
         && (p.incremental.Some? ==> KeyOf(FileName(p.incremental.value.location), tail) == PackOf(p.name, true))
  }

  lemma PackStaged(items: seq<Listed>, tail: string, name: string, incremental: bool)
    requires StagedAfter(items, tail) && LastPack(items, name, incremental).Some?
    ensures KeyOf(FileName(LastPack(items, name, incremental).value.location), tail) == PackOf(name, incremental)
  {
    var k := LastPackListed(items, name, incremental);
    ListedKey(items[k].fname, tail);
    hide KeyOf, ParsePack, ParseHome, FileName, LastPack;
  }

  /** A build grouped from a listing is well staged. */
  lemma ListedIsWellStaged(items: seq<Listed>, tail: string)
    requires StagedAfter(items, tail)
    ensures WellStaged(Contents(SortBy(Group(items).profiles, MinimalFirst), Group(items).home), tail)
  {
    GroupIs(items);
    HomeIs(items);
    SortUnique(Group(items).profiles);
    hide KeyOf, FileName, Group, SortBy, LastPack, ParsePack, ParseHome, FirstBuild;
    if LastHome(items).Some? {
      var k := LastHomeListed(items);
      ListedKey(items[k].fname, tail);
      assert IsPackName(items[k].fname);
    }
    hide StagedAfter;
    forall p | p in Group(items).profiles
      ensures p.full.Some? ==> KeyOf(FileName(p.full.value.location), tail) == PackOf(p.name, false)
      ensures p.incremental.Some? ==> KeyOf(FileName(p.incremental.value.location), tail) == PackOf(p.name, true)
    {
      var i :| 0 <= i < |Group(items).profiles| && Group(items).profiles[i] == p;
      if p.full.Some? {
        PackStaged(items, tail, p.name, false);
      }
      if p.incremental.Some? {
        PackStaged(items, tail, p.name, true);
      }
    }
  }

  // --- the whole plan -----------------------------------------------------------------------

  function ExtraKeys(extras: seq<Profile>): (r: set<Key>)
    ensures forall k :: k in r ==> k.PackOf? && k.incremental && exists i :: 0 <= i < |extras| && extras[i].name == k.name
  {
    if extras == [] then {}
    else
      var init := extras[..|extras| - 1];
      ExtraKeys(init) + {PackOf(extras[|extras| - 1].name, true)}
  }

  lemma OneTold(title: string, file: Option<PackFile>, tail: string, key: Key)
    requires file.Some? ==> KeyOf(FileName(file.value.location), tail) == key
    ensures Told(Named(title, file), tail, {key})
  {
    hide KeyOf, FileName;
  }

  lemma {:induction false} ExtrasTold(extras: seq<Profile>, tail: string)
    requires UniqueNames(extras)
    requires forall p :: p in extras && p.incremental.Some? ==>
               KeyOf(FileName(p.incremental.value.location), tail) == PackOf(p.name, true)
    ensures Told(ExtraArtifacts(extras), tail, ExtraKeys(extras))
  {
    hide KeyOf, FileName;
    if extras != [] {
      var n := |extras| - 1;
      var init, last := extras[..n], extras[n];
      ExtrasTold(init, tail);
      assert last in extras;
      OneTold(last.name + " (incremental)", last.incremental, tail, PackOf(last.name, true));
      Joined(ExtraArtifacts(init), Named(last.name + " (incremental)", last.incremental), tail,
             ExtraKeys(init), {PackOf(last.name, true)});
    }
  }

  /** The images of a request are located by the names the sources give them. */
  predicate ImagesNamed(r: Request) {
    && FileName(r.uboot.location) == UBOOT_IMAGE
    && (r.bootMenu.Some? ==> FileName(r.bootMenu.value.location) == BOOT_MENU_IMAGE)
    && (r.recovery.Some? ==> FileName(r.recovery.value.location) == RECOVERY_IMAGE)
  }

  lemma ImageKeys(tail: string)
    ensures KeyOf(UBOOT_IMAGE, tail) == Image(UBOOT_IMAGE)
    ensures KeyOf(BOOT_MENU_IMAGE, tail) == Image(BOOT_MENU_IMAGE)
    ensures KeyOf(RECOVERY_IMAGE, tail) == Image(RECOVERY_IMAGE)
    ensures UBOOT_IMAGE != BOOT_MENU_IMAGE && UBOOT_IMAGE != RECOVERY_IMAGE && BOOT_MENU_IMAGE != RECOVERY_IMAGE
  {
    assert |UBOOT_IMAGE| == 19 && UBOOT_IMAGE[18] == 'n' && UBOOT_IMAGE[0] == 'u';
    assert |BOOT_MENU_IMAGE| == 19 && BOOT_MENU_IMAGE[18] == 'b' && BOOT_MENU_IMAGE[0] == 'b';
    assert |RECOVERY_IMAGE| == 19 && RECOVERY_IMAGE[18] == 'b' && RECOVERY_IMAGE[0] == 'r';
    ImageKey(UBOOT_IMAGE, tail);
    ImageKey(BOOT_MENU_IMAGE, tail);
    ImageKey(RECOVERY_IMAGE, tail);
  }

  lemma ImagesTold(r: Request, tail: string) returns (keys: set<Key>)
    requires ImagesNamed(r)
    ensures Told([Artifact("u-boot image", r.uboot, UBOOT_IMAGE)] + Named("boot menu image", r.bootMenu)
                 + Named("recovery image", r.recovery), tail, keys)
    ensures forall k :: k in keys ==> k.Image?
  {
    ImageKeys(tail);
    var a, b, c := Image(UBOOT_IMAGE), Image(BOOT_MENU_IMAGE), Image(RECOVERY_IMAGE);
    hide KeyOf, FileName, Told;
    ImageTold("u-boot image", r.uboot, tail, UBOOT_IMAGE);
    OneTold("boot menu image", r.bootMenu, tail, b);
    OneTold("recovery image", r.recovery, tail, c);
    hide Named;
    Joined([Artifact("u-boot image", r.uboot, UBOOT_IMAGE)], Named("boot menu image", r.bootMenu), tail, {a}, {b});
    Joined([Artifact("u-boot image", r.uboot, UBOOT_IMAGE)] + Named("boot menu image", r.bootMenu),
           Named("recovery image", r.recovery), tail, {a} + {b}, {c});
    keys := {a} + {b} + {c};
  }

  lemma PacksTold(build: Contents, extras: seq<Profile>, tail: string) returns (keys: set<Key>)
    requires WellStaged(build, tail) && UniqueNames(extras) && forall p :: p in extras ==> p in build.profiles
    ensures Told(Named("/home seed", build.home) + Named("Minimal (full)", MinimalFull(build)) + ExtraArtifacts(extras),
                 tail, keys)
    ensures forall k :: k in keys ==> !k.Image?
  {
    var minimal := FirstMinimal(build.profiles);
    var full := PackOf(if minimal.Some? then minimal.value.name else "", false);
    hide KeyOf, FileName, Told;
    OneTold("/home seed", build.home, tail, Seed);
    OneTold("Minimal (full)", MinimalFull(build), tail, full);
    ExtrasTold(extras, tail);
    hide Named, ExtraArtifacts, WellStaged, MinimalFull;
    Joined(Named("/home seed", build.home), Named("Minimal (full)", MinimalFull(build)), tail, {Seed}, {full});
    Joined(Named("/home seed", build.home) + Named("Minimal (full)", MinimalFull(build)), ExtraArtifacts(extras),
           tail, {Seed} + {full}, ExtraKeys(extras));
    keys := {Seed} + {full} + ExtraKeys(extras);
  }

  /** The plan of a well staged build, with images named as the sources name them and
      any selection of its extras, stages every artifact under a name of its own, read
      from a place of its own. */
  lemma PlanIsDistinct(r: Request, selected: seq<string>, tail: string)
    requires ImagesNamed(r) && WellStaged(r.build, tail) && r.extras == Extras(r.build.profiles, selected)
    ensures DistinctRels(StagePlan(r)) && DistinctSources(StagePlan(r))
  {
    ExtrasUnique(r.build.profiles, selected);
    hide KeyOf, FileName, Extras, Told, Named, ExtraArtifacts, MinimalFull;
    var ikeys := ImagesTold(r, tail);
    var pkeys := PacksTold(r.build, r.extras, tail);
    var images := [Artifact("u-boot image", r.uboot, UBOOT_IMAGE)] + Named("boot menu image", r.bootMenu)
      + Named("recovery image", r.recovery);
    var packs := Named("/home seed", r.build.home) + Named("Minimal (full)", MinimalFull(r.build)) + ExtraArtifacts(r.extras);
    hide WellStaged, ImagesNamed, UniqueNames;
    PlanSplits(r);
    hide StagePlan, DistinctRels, DistinctSources;
    Joined(images, packs, tail, ikeys, pkeys);
    TellsApart(StagePlan(r), tail, ikeys + pkeys);
  }

  lemma PlanSplits(r: Request)
    ensures StagePlan(r)
            == ([Artifact("u-boot image", r.uboot, UBOOT_IMAGE)] + Named("boot menu image", r.bootMenu)
                + Named("recovery image", r.recovery))
             + (Named("/home seed", r.build.home) + Named("Minimal (full)", MinimalFull(r.build)) + ExtraArtifacts(r.extras))
  {
    Regrouped([Artifact("u-boot image", r.uboot, UBOOT_IMAGE)], Named("boot menu image", r.bootMenu),
              Named("recovery image", r.recovery), Named("/home seed", r.build.home),
              Named("Minimal (full)", MinimalFull(r.build)), ExtraArtifacts(r.extras));
    hide Named, MinimalFull, ExtraArtifacts;
  }

  lemma Regrouped(a: seq<Artifact>, b: seq<Artifact>, c: seq<Artifact>, d: seq<Artifact>, e: seq<Artifact>, f: seq<Artifact>)
    ensures a + b + c + d + e + f == (a + b + c) + (d + e + f)
  {
  }

  lemma ImageTold(title: string, file: PackFile, tail: string, name: string)
    requires FileName(file.location) == name && KeyOf(name, tail) == Image(name)
    ensures Told([Artifact(title, file, name)], tail, {Image(name)})
  {
    hide KeyOf, FileName;
  }

  lemma TellsApart(plan: seq<Artifact>, tail: string, keys: set<Key>)
    requires Told(plan, tail, keys)
    ensures DistinctRels(plan) && DistinctSources(plan)
  {
    hide KeyOf, FileName;
  }

  /** A run as the frontends put it together: a build loaded from a rootfs manifest or a
      bundle, and images from any of the sources. */
  ghost predicate FromSources(job: Job) {
    && FileName(job.uboot.location) == UBOOT_IMAGE
    && (job.bootMenu.Some? ==> FileName(job.bootMenu.value.location) == BOOT_MENU_IMAGE)
    && (job.recovery.Some? ==> FileName(job.recovery.value.location) == RECOVERY_IMAGE)
    && exists items: seq<Listed>, tail: string :: Loaded(job.build, items, tail)
  }

  ghost predicate Loaded(build: Contents, items: seq<Listed>, tail: string) {
    StagedAfter(items, tail) && build == Contents(SortBy(Group(items).profiles, MinimalFirst), Group(items).home)
  }

  /** What `LoadProfiles` and `Resolve` return is such a build. */
  lemma BothLoopsLoad(base: string, source: Source, files: seq<FileEntry>)
    ensures var a := Group(RootfsItems(base, source, files));
            Loaded(Contents(SortBy(a.profiles, MinimalFirst), a.home), RootfsItems(base, source, files), LastSegment(base))
    ensures var b := Group(BundleItems(base, source, files));
            Loaded(Contents(SortBy(b.profiles, MinimalFirst), b.home), BundleItems(base, source, files), "")
  {
    RootfsStaged(base, source, files);
    BundleStaged(base, source, files);
    hide StagedAfter, Group, SortBy, RootfsItems, BundleItems;
  }

  /** No two artifacts of a real run share a scratch name or a source, so every staged
      copy is verified against its own digest and stays verified. */
  lemma RunsAreDistinct(job: Job)
    requires FromSources(job)
    ensures DistinctRels(PlanOf(job)) && DistinctSources(PlanOf(job))
  {
    var items: seq<Listed>, tail: string :| Loaded(job.build, items, tail);
    ListedIsWellStaged(items, tail);
    hide StagedAfter, Group, SortBy, WellStaged, StagePlan, Extras, FileName, MinimalFirst;
    var im := Published(job);
    PlanIsDistinct(Request(im.uboot, im.bootMenu, im.recovery, im.build, Extras(im.build.profiles, job.selected)),
                   job.selected, tail);
  }

  /** Hence staging leaves every artifact of a real run with a verified scratch copy. */
  lemma EveryCopyIsVerified(job: Job, contents: map<string, seq<u8>>, digest: BootPair.Digest, i: nat)
    requires FromSources(job) && i < |PlanOf(job)|
    requires CopiesVerified(contents, job.scratch, PlanOf(job), |PlanOf(job)|, digest)
    ensures CopyVerified(contents, Dest(job.scratch, PlanOf(job)[i].rel), PlanOf(job)[i].file, digest)
  {
    RunsAreDistinct(job);
    hide FromSources, PlanOf, Dest, CopyVerified;
    DistinctAreAllVerified(contents, job.scratch, PlanOf(job), digest);
  }
}
