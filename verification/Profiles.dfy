/** Grouping packs into profiles: the loop over a rootfs build's manifest
    (src/core/catalog.rs:417-465) and the one over a bundle's
    (src/core/bundle.rs:420-482) agree. */
module Profiles {
  import opened Wrappers
  import opened Text
  import opened Sorting
  import opened PackNames

  datatype FileEntry = FileEntry(path: string, size: nat, sha256: Option<string>) {
    /** An empty digest is no digest. */
    function Digest(): (r: Option<string>)
      ensures r.None? <==> sha256.None? || |sha256.value| == 0
      ensures r.Some? ==> r == sha256
    {
      if sha256 == Some("") then None else sha256
    }
  }

  datatype Source = Server | Local(root: string)

  /** An artifact as a manifest publishes it, and where it is read from. */
  datatype PackFile = PackFile(location: string, source: Source, size: nat, sha256: Option<string>)

  datatype Profile = Profile(name: string, build: string, full: Option<PackFile>, incremental: Option<PackFile>) {
    predicate IsMinimal() {
      EqIgnoreCase(name, "minimal")
    }
  }

  lemma MinimalIs(p: Profile)
    ensures p.IsMinimal() <==> SpellsSame(p.name, "minimal")
  {
    EqIgnoreCaseIs(p.name, "minimal");
  }

  datatype Contents = Contents(profiles: seq<Profile>, home: Option<PackFile>)

  // --- the grouping, one file at a time ---------------------------------------

  function Find(profiles: seq<Profile>, name: string): (r: Option<nat>)
    ensures r.Some? ==> r.value < |profiles| && profiles[r.value].name == name
    ensures r.None? ==> forall i :: 0 <= i < |profiles| ==> profiles[i].name != name
  {
    if profiles == [] then None
    else if profiles[0].name == name then Some(0)
    else match Find(profiles[1..], name) case Some(i) => Some(i + 1) case None => None
  }

  function Fill(p: Profile, pack: Pack, file: PackFile): Profile {
    if pack.incremental then p.(incremental := Some(file)) else p.(full := Some(file))
  }

  function Upsert(profiles: seq<Profile>, pack: Pack, file: PackFile): seq<Profile> {
    match Find(profiles, pack.name)
    case Some(i) => profiles[i := Fill(profiles[i], pack, file)]
    case None => profiles + [Fill(Profile(pack.name, pack.build, None, None), pack, file)]
  }

  function Add(c: Contents, fname: string, file: PackFile): Contents {
    if ParseHome(fname).Some? then c.(home := Some(file))
    else match ParsePack(fname)
      case None => c
      case Some(pack) => c.(profiles := Upsert(c.profiles, pack, file))
  }

  /** A listed file by its bare name. */
  datatype Listed = Listed(fname: string, file: PackFile)

  function Group(items: seq<Listed>): Contents {
    if items == [] then Contents([], None)
    else Add(Group(items[..|items| - 1]), items[|items| - 1].fname, items[|items| - 1].file)
  }

  predicate HasMinimal(profiles: seq<Profile>) {
    exists i :: 0 <= i < |profiles| && profiles[i].IsMinimal()
  }

  predicate MinimalFirst(a: Profile, b: Profile) {
    if a.IsMinimal() != b.IsMinimal() then a.IsMinimal() else AtMost(a.name, b.name)
  }

  // --- the two loops ------------------------------------------------------------

  function LastSegment(path: string): string {
    match LastIndex(path, '/') case Some(i) => path[i + 1..] case None => path
  }

  const PACKS_DIR: string := "profile-packs"

  function RootfsItems(base: string, source: Source, files: seq<FileEntry>): (r: seq<Listed>)
    ensures |r| == |files|
  {
    seq(|files|, i requires 0 <= i < |files| =>
      var fname := LastSegment(files[i].path);
      Listed(fname, PackFile(base + fname, source, files[i].size, files[i].Digest())))
  }

  function TrimEnd(s: string): string {
    if s != [] && s[|s| - 1] == '/' then TrimEnd(s[..|s| - 1]) else s
  }

  function TrimStart(s: string): string {
    if s != [] && s[0] == '/' then TrimStart(s[1..]) else s
  }

  /** `BundleLocation::join`. */
  function Join(base: string, rel: string): string {
    TrimEnd(base) + "/" + TrimStart(rel)
  }

  lemma {:induction false} TrimmedOnce(s: string)
    ensures TrimEnd(s + "/") == TrimEnd(s) && TrimStart("/" + s) == TrimStart(s)
    ensures s == [] || s[|s| - 1] != '/' ==> TrimEnd(s) == s
    ensures s == [] || s[0] != '/' ==> TrimStart(s) == s
  {
    assert (s + "/")[..|s|] == s && ("/" + s)[1..] == s;
  }

  /** Joining puts exactly one slash between the parts, however many were there. */
  lemma JoinIs(base: string, rel: string)
    ensures Join(base + "/", rel) == Join(base, rel) == Join(base, "/" + rel)
    ensures (base == [] || base[|base| - 1] != '/') && (rel == [] || rel[0] != '/') ==> Join(base, rel) == base + "/" + rel
  {
    TrimmedOnce(base);
    TrimmedOnce(rel);
  }

  /** The bare pack name of a bundle file, when it lies directly in the packs
      directory. */
  function BundleName(path: string): Option<string> {
    match StripPrefix(path, PACKS_DIR + "/")
    case None => None
    case Some(fname) => if '/' in fname then None else Some(fname)
  }

  /** A bundle lists a pack for a path exactly when the path is its name directly
      under `profile-packs`. */
  lemma BundleNameIs(path: string, fname: string)
    ensures BundleName(path) == Some(fname) <==> '/' !in fname && path == "profile-packs/" + fname
  {
    var dir := "profile-packs/";
    assert PACKS_DIR + "/" == dir;
    if path == dir + fname {
      assert path[..|dir|] == dir && path[|dir|..] == fname;
      assert StartsWith(path, dir);
      assert dir + StripPrefix(path, dir).value == path;
    }
  }

  function BundleItems(base: string, source: Source, files: seq<FileEntry>): seq<Listed> {
    if files == [] then []
    else
      var f := files[|files| - 1];
      BundleItems(base, source, files[..|files| - 1])
      + match BundleName(f.path)
        case None => []
        case Some(fname) => [Listed(fname, PackFile(Join(base, f.path), source, f.size, f.Digest()))]
  }

  /** `load_profiles`, after the manifest has been read. */
  method LoadProfiles(base: string, source: Source, files: seq<FileEntry>) returns (r: Contents)
    ensures r == Contents(SortBy(Group(RootfsItems(base, source, files)).profiles, MinimalFirst),
                          Group(RootfsItems(base, source, files)).home)
  {
    var profiles: seq<Profile> := [];
    var home: Option<PackFile> := None;
    ghost var items := RootfsItems(base, source, files);
    for i := 0 to |files|
      invariant Contents(profiles, home) == Group(items[..i])
    {
      assert items[..i + 1][..i] == items[..i];
      var f := files[i];
      var fname := LastSegment(f.path);
      var pack := PackFile(base + fname, source, f.size, f.Digest());
      assert items[i] == Listed(fname, pack);
      if ParseHome(fname).Some? {
        home := Some(pack);
        continue;
      }
      var parsed := ParsePack(fname);
      if parsed.None? {
        continue;
      }
      profiles := UpsertEntry(profiles, parsed.value, pack);
    }
    assert items[..|files|] == items;
    return Contents(SortBy(profiles, MinimalFirst), home);
  }

  /** Find or insert, then set one of the two slots. */
  method UpsertEntry(profiles: seq<Profile>, pack: Pack, file: PackFile) returns (r: seq<Profile>)
    ensures r == Upsert(profiles, pack, file)
  {
    r := profiles;
    var found := Find(r, pack.name);
    if found.None? {
      r := r + [Profile(pack.name, pack.build, None, None)];
      found := Some(|r| - 1);
    }
    if pack.incremental {
      r := r[found.value := r[found.value].(incremental := Some(file))];
    } else {
      r := r[found.value := r[found.value].(full := Some(file))];
    }
  }

  /** The profile part of `resolve`: `None` when no pack is the Minimal profile's. */
  method Resolve(base: string, source: Source, files: seq<FileEntry>) returns (r: Option<Contents>)
    ensures var grouped := Group(BundleItems(base, source, files));
            r == if HasMinimal(grouped.profiles)
                 then Some(Contents(SortBy(grouped.profiles, MinimalFirst), grouped.home))
                 else None
  {
    hide ParsePack, ParseHome, BundleName, Join, Upsert, HasMinimal;
    var profiles: seq<Profile> := [];
    var home: Option<PackFile> := None;
    for i := 0 to |files|
      invariant Contents(profiles, home) == Group(BundleItems(base, source, files[..i]))
    {
      BundleItemsStep(base, source, files, i);
      var f := files[i];
      var named := BundleName(f.path);
      if named.None? {
        continue;
      }
      var fname := named.value;
      var pack := PackFile(Join(base, f.path), source, f.size, f.Digest());
      GroupAppend(BundleItems(base, source, files[..i]), Listed(fname, pack));
      if ParseHome(fname).Some? {
        home := Some(pack);
        continue;
      }
      var parsed := ParsePack(fname);
      if parsed.None? {
        continue;
      }
      profiles := UpsertEntry(profiles, parsed.value, pack);
    }
    assert files[..|files|] == files;
    ghost var grouped := Group(BundleItems(base, source, files));
    assert grouped.profiles == profiles && grouped.home == home;
    var sorted := SortBy(profiles, MinimalFirst);
    MinimalSurvivesSort(profiles);
    if !HasMinimal(sorted) {
      return None;
    }
    return Some(Contents(sorted, home));
  }

  lemma BundleItemsStep(base: string, source: Source, files: seq<FileEntry>, i: nat)
    requires i < |files|
    ensures BundleItems(base, source, files[..i + 1])
            == match BundleName(files[i].path)
               case None => BundleItems(base, source, files[..i])
               case Some(fname) =>
                 BundleItems(base, source, files[..i])
                 + [Listed(fname, PackFile(Join(base, files[i].path), source, files[i].size, files[i].Digest()))]
  {
    assert files[..i + 1][..i] == files[..i];
    hide BundleName, Join;
  }

  lemma GroupAppend(items: seq<Listed>, item: Listed)
    ensures Group(items + [item]) == Add(Group(items), item.fname, item.file)
  {
    assert (items + [item])[..|items|] == items;
  }

  lemma MinimalSurvivesSort(profiles: seq<Profile>)
    ensures HasMinimal(profiles) <==> HasMinimal(SortBy(profiles, MinimalFirst))
  {
    var sorted := SortBy(profiles, MinimalFirst);
    SortKeepsElements(profiles, MinimalFirst);
    hide Profile.IsMinimal, SortBy, MinimalFirst;
    forall p
      ensures p in profiles <==> p in sorted
    {
      SameElements(profiles, sorted, p);
    }
    forall i | 0 <= i < |profiles| && profiles[i].IsMinimal()
      ensures exists j :: 0 <= j < |sorted| && sorted[j].IsMinimal()
    {
      assert profiles[i] in sorted;
    }
    forall i | 0 <= i < |sorted| && sorted[i].IsMinimal()
      ensures exists j :: 0 <= j < |profiles| && profiles[j].IsMinimal()
    {
      assert sorted[i] in profiles;
    }
  }

  // --- what grouping means ---------------------------------------------------------

  ghost predicate UniqueNames(profiles: seq<Profile>) {
    forall i, j :: 0 <= i < j < |profiles| ==> profiles[i].name != profiles[j].name
  }

  /** The last listed file that is the given kind of pack of the given profile. */
  function LastPack(items: seq<Listed>, name: string, incremental: bool): Option<PackFile> {
    if items == [] then None
    else
      var item := items[|items| - 1];
      var p := ParsePack(item.fname);
      if ParseHome(item.fname).None? && p.Some? && p.value.name == name && p.value.incremental == incremental
      then Some(item.file)
      else LastPack(items[..|items| - 1], name, incremental)
  }

  /** The build number of the first listed pack of a profile. */
  function FirstBuild(items: seq<Listed>, name: string): Option<string> {
    if items == [] then None
    else
      var before := FirstBuild(items[..|items| - 1], name);
      var p := ParsePack(items[|items| - 1].fname);
      if before.Some? then before
      else if ParseHome(items[|items| - 1].fname).None? && p.Some? && p.value.name == name then Some(p.value.build)
      else None
  }

  ghost predicate Grouped(profiles: seq<Profile>, items: seq<Listed>) {
    && UniqueNames(profiles)
    && (forall i :: 0 <= i < |profiles| ==>
          && FirstBuild(items, profiles[i].name) == Some(profiles[i].build)
          && profiles[i].full == LastPack(items, profiles[i].name, false)
          && profiles[i].incremental == LastPack(items, profiles[i].name, true))
    && (forall name :: FirstBuild(items, name).Some? ==> Find(profiles, name).Some?)
  }

  lemma {:induction false} NoBuildNoPack(items: seq<Listed>, name: string, incremental: bool)
    requires FirstBuild(items, name).None?
    ensures LastPack(items, name, incremental).None?
  {
    if items != [] {
      NoBuildNoPack(items[..|items| - 1], name, incremental);
    }
  }

  lemma FindAt(profiles: seq<Profile>, k: nat)
    requires k < |profiles|
    ensures Find(profiles, profiles[k].name).Some?
  {
  }

  lemma UpsertGroups(profiles: seq<Profile>, items: seq<Listed>, item: Listed, pack: Pack)
    requires Grouped(profiles, items)
    requires ParseHome(item.fname).None? && ParsePack(item.fname) == Some(pack)
    ensures Grouped(Upsert(profiles, pack, item.file), items + [item])
  {
    hide ParsePack, ParseHome;
    var all := items + [item];
    assert all[..|items|] == items;
    var r := Upsert(profiles, pack, item.file);
    NoBuildUnlessFound(profiles, items, pack.name);
    forall i | 0 <= i < |r|
      ensures FirstBuild(all, r[i].name) == Some(r[i].build)
      ensures r[i].full == LastPack(all, r[i].name, false)
      ensures r[i].incremental == LastPack(all, r[i].name, true)
    {
      if Find(profiles, pack.name).None? && i == |profiles| {
        NoBuildNoPack(items, pack.name, false);
        NoBuildNoPack(items, pack.name, true);
      }
    }
    forall name | FirstBuild(all, name).Some?
      ensures Find(r, name).Some?
    {
      if FirstBuild(items, name).Some? {
        var k := Find(profiles, name).value;
        assert r[k].name == name;
        FindAt(r, k);
      } else {
        assert name == pack.name;
        assert Find(profiles, name).None?;
        assert r[|profiles|].name == name;
        FindAt(r, |profiles|);
      }
    }
  }

  lemma NoBuildUnlessFound(profiles: seq<Profile>, items: seq<Listed>, name: string)
    requires Grouped(profiles, items)
    ensures Find(profiles, name).None? ==> FirstBuild(items, name).None?
  {
  }

  /** Grouping gives one profile per name, numbered by the first pack listed, holding
      the last full and the last incremental pack listed. */
  lemma {:induction false} GroupIs(items: seq<Listed>)
    ensures Grouped(Group(items).profiles, items)
  {
    if items != [] {
      var init, item := items[..|items| - 1], items[|items| - 1];
      GroupIs(init);
      assert items == init + [item];
      if ParseHome(item.fname).None? && ParsePack(item.fname).Some? {
        UpsertGroups(Group(init).profiles, init, item, ParsePack(item.fname).value);
      }
      hide ParsePack, ParseHome, Upsert;
    }
  }

  /** The last listed seed. */
  function LastHome(items: seq<Listed>): Option<PackFile> {
    if items == [] then None
    else if ParseHome(items[|items| - 1].fname).Some? then Some(items[|items| - 1].file)
    else LastHome(items[..|items| - 1])
  }

  /** The seed of a grouping is the last one listed. */
  lemma {:induction false} HomeIs(items: seq<Listed>)
    ensures Group(items).home == LastHome(items)
  {
    hide ParseHome, ParsePack, Upsert;
    if items != [] {
      HomeIs(items[..|items| - 1]);
    }
  }

  lemma MinimalFirstTotal()
    ensures TotalOrder(MinimalFirst)
  {
    forall a: Profile, b: Profile
      ensures MinimalFirst(a, b) || MinimalFirst(b, a)
    {
      if Less(b.name, a.name) {
        LessAsymmetric(b.name, a.name);
      }
    }
    forall a: Profile, b: Profile, c: Profile | MinimalFirst(a, b) && MinimalFirst(b, c)
      ensures MinimalFirst(a, c)
    {
      hide Profile.IsMinimal;
      if AtMost(a.name, b.name) && AtMost(b.name, c.name) {
        AtMostTransitive(a.name, b.name, c.name);
      }
    }
  }

  /** The listing order: the Minimal profile before every other, the rest by name, and
      no other arrangement of the same profiles would do. */
  lemma ListedInOrder(items: seq<Listed>, other: seq<Profile>)
    ensures var r := SortBy(Group(items).profiles, MinimalFirst);
            && multiset(r) == multiset(Group(items).profiles)
            && Sorted(r, MinimalFirst)
            && (multiset(other) == multiset(r) && Sorted(other, MinimalFirst) ==> other == r)
  {
    var profiles := Group(items).profiles;
    var r := SortBy(profiles, MinimalFirst);
    GroupIs(items);
    MinimalFirstTotal();
    SortSorts(profiles, MinimalFirst);
    SortKeepsElements(profiles, MinimalFirst);
    if multiset(other) == multiset(r) && Sorted(other, MinimalFirst) {
      forall x, y | x in r && y in r && MinimalFirst(x, y) && MinimalFirst(y, x)
        ensures x == y
      {
        SameElements(r, profiles, x);
        SameElements(r, profiles, y);
        LessTotal(x.name, y.name);
        hide Profile.IsMinimal, SortBy, Group;
        assert x.name == y.name;
      }
      hide SortBy, Group, MinimalFirst;
      SortedIsUnique(r, other, MinimalFirst);
    }
  }

  // --- the two loops agree -----------------------------------------------------------

  function Bare(f: PackFile): PackFile {
    f.(location := "", source := Server)
  }

  function BareOption(f: Option<PackFile>): Option<PackFile> {
    match f case None => None case Some(g) => Some(Bare(g))
  }

  /** A profile without where its packs are fetched from. */
  function BareProfile(p: Profile): Profile {
    p.(full := BareOption(p.full), incremental := BareOption(p.incremental))
  }

  function BareAll(ps: seq<Profile>): (r: seq<Profile>)
    ensures |r| == |ps|
  {
    seq(|ps|, i requires 0 <= i < |ps| => BareProfile(ps[i]))
  }

  function BareContents(c: Contents): Contents {
    Contents(BareAll(c.profiles), BareOption(c.home))
  }

  ghost predicate SameListing(a: seq<Listed>, b: seq<Listed>) {
    |a| == |b| && forall i :: 0 <= i < |a| ==> a[i].fname == b[i].fname && Bare(a[i].file) == Bare(b[i].file)
  }

  lemma {:induction false} FindBare(ps: seq<Profile>, name: string)
    ensures Find(BareAll(ps), name) == Find(ps, name)
  {
    if ps != [] {
      assert BareAll(ps)[1..] == BareAll(ps[1..]);
      FindBare(ps[1..], name);
    }
  }

  lemma UpsertBare(ps: seq<Profile>, pack: Pack, file: PackFile)
    ensures BareAll(Upsert(ps, pack, file)) == Upsert(BareAll(ps), pack, Bare(file))
  {
    FindBare(ps, pack.name);
    assert BareAll(Upsert(ps, pack, file)) == Upsert(BareAll(ps), pack, Bare(file));
  }

  lemma {:induction false} GroupBare(a: seq<Listed>, b: seq<Listed>)
    requires SameListing(a, b)
    ensures BareContents(Group(a)) == BareContents(Group(b))
  {
    if a != [] {
      var n := |a| - 1;
      GroupBare(a[..n], b[..n]);
      hide ParsePack, ParseHome, Upsert;
      var p := ParsePack(a[n].fname);
      if p.Some? {
        UpsertBare(Group(a[..n]).profiles, p.value, a[n].file);
        UpsertBare(Group(b[..n]).profiles, p.value, b[n].file);
      }
    }
  }

  lemma {:induction false} InsertBare(p: Profile, ps: seq<Profile>)
    ensures BareAll(Insert(p, ps, MinimalFirst)) == Insert(BareProfile(p), BareAll(ps), MinimalFirst)
  {
    if ps != [] {
      assert MinimalFirst(BareProfile(p), BareProfile(ps[0])) == MinimalFirst(p, ps[0]);
      assert BareAll(ps)[1..] == BareAll(ps[1..]);
      if !MinimalFirst(p, ps[0]) {
        InsertBare(p, ps[1..]);
      }
      hide MinimalFirst;
      assert BareAll([ps[0]] + Insert(p, ps[1..], MinimalFirst))
             == [BareProfile(ps[0])] + BareAll(Insert(p, ps[1..], MinimalFirst));
      assert BareAll([p] + ps) == [BareProfile(p)] + BareAll(ps);
    }
  }

  lemma {:induction false} SortBare(ps: seq<Profile>)
    ensures BareAll(SortBy(ps, MinimalFirst)) == SortBy(BareAll(ps), MinimalFirst)
  {
    if ps != [] {
      assert BareAll(ps)[1..] == BareAll(ps[1..]);
      SortBare(ps[1..]);
      InsertBare(ps[0], SortBy(ps[1..], MinimalFirst));
      hide MinimalFirst, Insert;
    }
  }

  /** Given the same flat pack list, the two loops produce the same profiles in the
      same order and the same seed; only where each file is fetched from differs. */
  lemma LoopsAgree(rootfsBase: string, rootfsSource: Source, rootfs: seq<FileEntry>,
                   bundleBase: string, bundleSource: Source, bundle: seq<FileEntry>)
    requires SameListing(RootfsItems(rootfsBase, rootfsSource, rootfs), BundleItems(bundleBase, bundleSource, bundle))
    ensures var a := Group(RootfsItems(rootfsBase, rootfsSource, rootfs));
            var b := Group(BundleItems(bundleBase, bundleSource, bundle));
            && BareAll(SortBy(a.profiles, MinimalFirst)) == BareAll(SortBy(b.profiles, MinimalFirst))
            && BareOption(a.home) == BareOption(b.home)
  {
    GroupBare(RootfsItems(rootfsBase, rootfsSource, rootfs), BundleItems(bundleBase, bundleSource, bundle));
    SortBare(Group(RootfsItems(rootfsBase, rootfsSource, rootfs)).profiles);
    SortBare(Group(BundleItems(bundleBase, bundleSource, bundle)).profiles);
    hide SortBy, Group, RootfsItems, BundleItems;
  }
}
