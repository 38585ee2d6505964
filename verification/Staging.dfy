/** Verifying artifacts into the scratch directory before the target is touched
    (src/core/stage.rs:59-269, 356-495). */
module Staging {
  import opened Wrappers
  import opened Bytes
  import opened Text
  import opened PackNames
  import opened Progress
  import opened Profiles
  import opened BootPair
  import opened Ticking

  /** One artifact the install will read, and its name under the scratch directory. */
  datatype Artifact = Artifact(title: string, file: PackFile, rel: string)

  datatype Request = Request(
    uboot: PackFile,
    bootMenu: Option<PackFile>,
    recovery: Option<PackFile>,
    build: Contents,
    extras: seq<Profile>)

  // --- what is staged -----------------------------------------------------------

  /** Last path segment of a URL or path. */
  function FileName(location: string): string {
    LastSegment(TrimEnd(location))
  }

  function FirstMinimal(profiles: seq<Profile>): (r: Option<Profile>)
    ensures r.Some? ==> r.value in profiles && r.value.IsMinimal()
  {
    if profiles == [] then None
    else if profiles[0].IsMinimal() then Some(profiles[0])
    else FirstMinimal(profiles[1..])
  }

  ghost predicate IsFirstMinimal(profiles: seq<Profile>, k: int) {
    0 <= k < |profiles| && SpellsSame(profiles[k].name, "minimal")
    && forall j :: 0 <= j < k ==> !SpellsSame(profiles[j].name, "minimal")
  }

  /** The first profile that spells "minimal", and none only if there is none. */
  lemma {:induction false} FirstMinimalIs(profiles: seq<Profile>)
    ensures FirstMinimal(profiles).Some? ==>
              exists k :: IsFirstMinimal(profiles, k) && profiles[k] == FirstMinimal(profiles).value
    ensures forall k :: IsFirstMinimal(profiles, k) ==> FirstMinimal(profiles) == Some(profiles[k])
    ensures FirstMinimal(profiles).None? ==> forall k :: 0 <= k < |profiles| ==> !SpellsSame(profiles[k].name, "minimal")
  {
    if profiles != [] {
      MinimalIs(profiles[0]);
      hide SpellsSame;
      var rest := profiles[1..];
      FirstMinimalIs(rest);
      if profiles[0].IsMinimal() {
        assert IsFirstMinimal(profiles, 0);
      } else {
        forall k | IsFirstMinimal(profiles, k)
          ensures FirstMinimal(profiles) == Some(profiles[k])
        {
          assert k > 0 && IsFirstMinimal(rest, k - 1);
        }
        if FirstMinimal(rest).Some? {
          var k :| IsFirstMinimal(rest, k) && rest[k] == FirstMinimal(rest).value;
          assert forall j :: 0 < j <= k + 1 ==> rest[j - 1] == profiles[j];
          assert IsFirstMinimal(profiles, k + 1);
        }
      }
    }
  }

  function Named(title: string, file: Option<PackFile>): seq<Artifact> {
    match file case None => [] case Some(f) => [Artifact(title, f, FileName(f.location))]
  }

  function ExtraArtifacts(extras: seq<Profile>): seq<Artifact> {
    if extras == [] then []
    else
      var p := extras[|extras| - 1];
      ExtraArtifacts(extras[..|extras| - 1]) + Named(p.name + " (incremental)", p.incremental)
  }

  function MinimalFull(build: Contents): Option<PackFile> {
    match FirstMinimal(build.profiles) case None => None case Some(m) => m.full
  }

  /** `plan`: everything a run will read, in install order. */
  function StagePlan(r: Request): seq<Artifact> {
    [Artifact("u-boot image", r.uboot, "u-boot-rockchip.bin")]
    + Named("boot menu image", r.bootMenu)
    + Named("recovery image", r.recovery)
    + Named("/home seed", r.build.home)
    + Named("Minimal (full)", MinimalFull(r.build))
    + ExtraArtifacts(r.extras)
  }

  // --- weights --------------------------------------------------------------------

  const UNKNOWN_SIZE_WEIGHT: nat := 64 * 1024 * 1024

  /** A size counts as itself, and an unknown one as 64 MiB, so every step weighs
      something. */
  function TransferWeight(size: nat): (w: nat)
    ensures w > 0
    ensures size > 0 ==> w == size
    ensures size == 0 ==> w == 67_108_864
  {
    if size == 0 then UNKNOWN_SIZE_WEIGHT else size
  }

  function StagingWeight(plan: seq<Artifact>): nat {
    if plan == [] then 0
    else StagingWeight(plan[..|plan| - 1]) + TransferWeight(plan[|plan| - 1].file.size)
  }

  lemma {:induction false} StagingWeightGrows(plan: seq<Artifact>, i: nat)
    requires i <= |plan|
    ensures StagingWeight(plan[..i]) <= StagingWeight(plan)
    ensures i < |plan| ==>
              StagingWeight(plan[..i + 1]) == StagingWeight(plan[..i]) + TransferWeight(plan[i].file.size) <= StagingWeight(plan)
  {
    if i < |plan| {
      var n := |plan| - 1;
      StagingWeightGrows(plan[..n], if i < n then i else n);
      if i < n {
        assert plan[..n][..i] == plan[..i] && plan[..n][..i + 1] == plan[..i + 1];
      } else {
        assert plan[..i + 1] == plan && plan[..n][..n] == plan[..n];
      }
    } else {
      assert plan[..i] == plan;
    }
  }

  // --- local files -----------------------------------------------------------------

  predicate IsUrl(location: string) {
    StartsWith(location, "http://") || StartsWith(location, "https://")
  }

  /** The local file system, by path; what the last source opened delivered; whether
      anything outside the installer (a source, the file system, a command) has failed;
      and whether an archive has been unpacked to its end. */
  class Files {
    var contents: map<string, seq<u8>>
    ghost var served: seq<u8>
    ghost var disturbed: bool
    ghost var unpacked: bool

    constructor ()
      ensures contents == map[] && !disturbed && !unpacked
    {
      contents := map[];
      disturbed, unpacked := false, false;
    }

    /** Something outside works or does not. */
    method Try() returns (ok: bool)
      modifies `disturbed
      ensures disturbed == (old(disturbed) || !ok)
    {
      ok := *;
      disturbed := disturbed || !ok;
    }

    /** `fetch::open` and reading to the end: a server may deliver anything or fail, and
        is only ever asked for a URL; a local file delivers what it holds or fails. */
    method Fetch(file: PackFile) returns (r: Option<seq<u8>>)
      modifies `served, `disturbed
      ensures r.Some? ==> served == r.value
      ensures disturbed == (old(disturbed) || r.None?)
      ensures r.Some? && (!file.source.Server? || !IsUrl(file.location)) ==>
                file.location in contents && r.value == contents[file.location]
    {
      var ok: bool := *;
      if file.source.Server? {
        if IsUrl(file.location) {
          r :| true;
        } else {
          r := None;
        }
      } else {
        r := if ok && file.location in contents then Some(contents[file.location]) else None;
      }
      if r.Some? {
        served := r.value;
      }
      disturbed := disturbed || r.None?;
    }

    /** Create a file and copy into it; on a failure it holds a prefix. */
    method Store(path: string, bytes: seq<u8>) returns (ok: bool)
      modifies `contents, `disturbed
      ensures disturbed == (old(disturbed) || !ok)
      ensures path in contents && contents == old(contents)[path := contents[path]]
      ensures ok ==> contents[path] == bytes
      ensures contents[path] <= bytes
    {
      ok := Try();
      var landed: seq<u8> := bytes;
      if !ok {
        landed :| landed <= bytes;
      }
      contents := contents[path := landed];
    }

    method Remove(paths: seq<string>)
      modifies `contents
      ensures forall p :: p in contents <==> p in old(contents) && p !in paths
      ensures forall p :: p in contents ==> contents[p] == old(contents)[p]
    {
      contents := map p | p in contents && p !in paths :: contents[p];
    }

    /** Unpacking an archive into `dir` may write any file under it, and stop early. */
    method Unpack(dir: string) returns (ok: bool)
      modifies `contents, `disturbed, `unpacked
      ensures unpacked == (old(unpacked) || ok)
      ensures disturbed == (old(disturbed) || !ok)
      ensures forall p :: p in old(contents) && !StartsWith(p, dir + "/") ==>
                p in contents && contents[p] == old(contents)[p]
    {
      ok := Try();
      var landed: map<string, seq<u8>> :| forall p :: p in landed ==> StartsWith(p, dir + "/");
      contents := contents + landed;
      unpacked := unpacked || ok;
    }
  }

  // --- staging ------------------------------------------------------------------------

  function Dest(dir: string, rel: string): string {
    dir + "/" + rel
  }

  datatype Staged = Staged(dir: string, paths: seq<(string, string)>, created: seq<string>)

  datatype StageError = NoSpace | CannotStage | StagedMismatch

  /** What staging may add to the trace: steps, bar movements and verdicts. */
  predicate Quiet(e: Event) {
    e.Bar? || e.Began? || e.Checked?
  }

  ghost predicate Adds(before: seq<Event>, after: seq<Event>, allowed: Event -> bool) {
    before <= after && forall k :: |before| <= k < |after| ==> allowed(after[k])
  }

  lemma AddsMore(a: seq<Event>, b: seq<Event>, c: seq<Event>, allowed: Event -> bool)
    requires Adds(a, b, allowed) && Adds(b, c, allowed)
    ensures Adds(a, c, allowed)
  {
  }

  ghost predicate CheckedOk(trace: seq<Event>, file: PackFile) {
    exists k :: 0 <= k < |trace| && trace[k].Checked? && trace[k].file == file && trace[k].verdict != Mismatched
  }

  lemma CheckedStays(a: seq<Event>, b: seq<Event>, file: PackFile)
    requires a <= b && CheckedOk(a, file)
    ensures CheckedOk(b, file)
  {
    var k :| 0 <= k < |a| && a[k].Checked? && a[k].file == file && a[k].verdict != Mismatched;
    assert b[k] == a[k];
  }

  ghost predicate AllChecked(trace: seq<Event>, plan: seq<Artifact>) {
    forall i :: 0 <= i < |plan| ==> CheckedOk(trace, plan[i].file)
  }

  ghost predicate DistinctRels(plan: seq<Artifact>) {
    forall i, j :: 0 <= i < j < |plan| ==> plan[i].rel != plan[j].rel
  }

  /** No artifact between `i` and `n` is staged under the name of artifact `i`. */
  ghost predicate LastOfName(plan: seq<Artifact>, i: nat, n: nat)
    requires i < n <= |plan|
  {
    forall j :: i < j < n ==> plan[j].rel != plan[i].rel
  }

  ghost predicate CopyVerified(contents: map<string, seq<u8>>, path: string, file: PackFile, digest: Digest) {
    path in contents && !FoundWrong(digest(contents[path]), file.sha256)
  }

  /** Of the first `n` artifacts, each one that is the last of its name has a scratch
      copy whose digest was not found wrong. */
  ghost predicate CopiesVerified(contents: map<string, seq<u8>>, dir: string, plan: seq<Artifact>, n: nat, digest: Digest)
    requires n <= |plan|
  {
    forall i :: 0 <= i < n && LastOfName(plan, i, n) ==>
      CopyVerified(contents, Dest(dir, plan[i].rel), plan[i].file, digest)
  }

  /** With distinct names that is every artifact. */
  lemma DistinctAreAllVerified(contents: map<string, seq<u8>>, dir: string, plan: seq<Artifact>, digest: Digest)
    requires DistinctRels(plan) && CopiesVerified(contents, dir, plan, |plan|, digest)
    ensures forall i :: 0 <= i < |plan| ==>
              CopyVerified(contents, Dest(dir, plan[i].rel), plan[i].file, digest)
  {
    hide CopyVerified, Dest;
    forall i | 0 <= i < |plan|
      ensures CopyVerified(contents, Dest(dir, plan[i].rel), plan[i].file, digest)
    {
      assert LastOfName(plan, i, |plan|);
    }
  }

  lemma FileNameIs(dir: string, name: string)
    requires name != [] && '/' !in name
    ensures FileName(dir + "/" + name) == name
  {
    var path := dir + "/" + name;
    assert path[|dir| + 1..] == name && path[|dir|] == '/';
    assert name[|name| - 1] in name && path[|path| - 1] == name[|name| - 1];
    assert forall j :: |dir| < j < |path| ==> name[j - |dir| - 1] in name && path[j] == name[j - |dir| - 1];
  }

  lemma DestInjective(dir: string, a: string, b: string)
    requires a != b
    ensures Dest(dir, a) != Dest(dir, b)
  {
    assert Dest(dir, a)[|dir| + 1..] == a;
    assert Dest(dir, b)[|dir| + 1..] == b;
  }

  lemma CopiesSurvive(before: map<string, seq<u8>>, after: map<string, seq<u8>>, dir: string, plan: seq<Artifact>, n: nat, digest: Digest)
    requires n < |plan| && CopiesVerified(before, dir, plan, n, digest)
    requires forall p :: p in before && p != Dest(dir, plan[n].rel) ==> p in after && after[p] == before[p]
    requires CopyVerified(after, Dest(dir, plan[n].rel), plan[n].file, digest)
    ensures CopiesVerified(after, dir, plan, n + 1, digest)
  {
    forall i | 0 <= i < n + 1 && LastOfName(plan, i, n + 1)
      ensures CopyVerified(after, Dest(dir, plan[i].rel), plan[i].file, digest)
    {
      if i < n {
        assert LastOfName(plan, i, n);
        DestInjective(dir, plan[i].rel, plan[n].rel);
      }
    }
    hide Dest;
  }

  /** `drop`: the files staging created go, and nothing else does. */
  method DropStaged(s: Staged, keep: bool, files: Files)
    modifies files`contents
    ensures keep ==> files.contents == old(files.contents)
    ensures forall p :: p in files.contents ==> p in old(files.contents)
    ensures forall p :: p in old(files.contents) && p !in s.created ==>
              p in files.contents && files.contents[p] == old(files.contents)[p]
    ensures !keep ==> forall p :: p in s.created ==> p !in files.contents
  {
    if !keep {
      files.Remove(s.created);
    }
  }

  /** Already under its scratch name: verified in place rather than copied. */
  predicate InPlace(dir: string, a: Artifact) {
    !IsUrl(a.file.location) && a.file.location == Dest(dir, a.rel)
  }

  /** Some artifact's copy is written to this path. */
  ghost predicate StagedOver(dir: string, plan: seq<Artifact>, path: string) {
    exists i :: 0 <= i < |plan| && !InPlace(dir, plan[i]) && path == Dest(dir, plan[i].rel)
  }

  /** The files that no copy goes over are as they were. */
  ghost predicate OthersKept(before: map<string, seq<u8>>, after: map<string, seq<u8>>, dir: string, plan: seq<Artifact>) {
    forall p :: p in before && !StagedOver(dir, plan, p) ==> p in after && after[p] == before[p]
  }

  lemma CopyKeepsOthers(before: map<string, seq<u8>>, after: map<string, seq<u8>>, dir: string, plan: seq<Artifact>, i: nat)
    requires i < |plan|
    requires InPlace(dir, plan[i]) ==> after == before
    requires forall p :: p in before && p != Dest(dir, plan[i].rel) ==> p in after && after[p] == before[p]
    ensures OthersKept(before, after, dir, plan)
  {
    hide Dest, InPlace;
  }

  lemma KeptTwice(a: map<string, seq<u8>>, b: map<string, seq<u8>>, c: map<string, seq<u8>>, dir: string, plan: seq<Artifact>)
    requires OthersKept(a, b, dir, plan) && OthersKept(b, c, dir, plan)
    ensures OthersKept(a, c, dir, plan)
  {
  }

  /** The step of one artifact, and its reading as far as the bar shows it. */
  method Announce(a: Artifact, ctrl: Ctrl, ticker: Ticker, chunks: seq<nat>)
    requires ticker.Ok(ctrl) && ticker.done + ticker.current + TransferWeight(a.file.size) <= ticker.total
    modifies ctrl, ticker
    ensures ticker.Ok(ctrl)
    ensures ticker.done + ticker.current == old(ticker.done + ticker.current) + TransferWeight(a.file.size)
    ensures old(ctrl.trace) < ctrl.trace
    ensures forall k :: |old(ctrl.trace)| <= k < |ctrl.trace| ==> ctrl.trace[k].Bar? || ctrl.trace[k].Began?
  {
    hide Share, Begun, BarsRise, BarsUnder;
    ticker.Begin(ctrl, TransferWeight(a.file.size));
    var _ := ticker.Transfer(ctrl, a.file.size, chunks);
  }

  /** One artifact: fetched or read in place, and judged. A mismatch is fatal. The chunks
      are those read before the end or the failure, none when it cannot be opened. */
  method StageOne(dir: string, a: Artifact, files: Files, ctrl: Ctrl, ticker: Ticker, digest: Digest, chunks: seq<nat>)
    returns (r: Result<(), StageError>, created: bool)
    requires ticker.Ok(ctrl) && ticker.done + ticker.current + TransferWeight(a.file.size) <= ticker.total
    modifies files, ctrl, ticker
    ensures ticker.Ok(ctrl)
    ensures ticker.done + ticker.current == old(ticker.done + ticker.current) + TransferWeight(a.file.size)
    ensures Adds(old(ctrl.trace), ctrl.trace, Quiet)
    ensures forall p :: p in old(files.contents) && p != Dest(dir, a.rel) ==>
              p in files.contents && files.contents[p] == old(files.contents)[p]
    ensures !created ==> files.contents == old(files.contents)
    ensures created ==> files.contents.Keys == old(files.contents).Keys + {Dest(dir, a.rel)}
    ensures InPlace(dir, a) ==> !created
    ensures r.Success? ==>
              && CheckedOk(ctrl.trace, a.file)
              && (forall k :: |old(ctrl.trace)| <= k < |ctrl.trace| && ctrl.trace[k].Checked? ==>
                    ctrl.trace[k].verdict != Mismatched)
              && CopyVerified(files.contents, Dest(dir, a.rel), a.file, digest)
              && files.contents[Dest(dir, a.rel)] == files.served
    ensures r == Failure(StagedMismatch) ==> FoundWrong(digest(files.served), a.file.sha256)
    ensures r == Failure(StagedMismatch) ==>
              |old(ctrl.trace)| < |ctrl.trace| && ctrl.trace[|ctrl.trace| - 1] == Checked(a.file, Mismatched)
    ensures forall k :: |old(ctrl.trace)| <= k < |ctrl.trace| && ctrl.trace[k].Checked? ==>
              && ctrl.trace[k].file == a.file
              && (ctrl.trace[k].verdict == Mismatched <==> FoundWrong(digest(files.served), a.file.sha256))
    ensures var own := old(files.contents);
            (a.file.source.Local? || !IsUrl(a.file.location)) && a.file.location in own
            && FoundWrong(digest(own[a.file.location]), a.file.sha256) ==>
              r.Failure?
    ensures r.Failure? ==> r.error != NoSpace
    ensures r == Failure(CannotStage) ==> files.disturbed
    ensures r.Success? ==> files.disturbed == old(files.disturbed)
    ensures old(files.disturbed) ==> files.disturbed
    ensures files.unpacked == old(files.unpacked)
  {
    hide Share, Begun, BarsRise, BarsUnder, Dest, Verify, FoundWrong, IsUrl;
    hide Ticker.Ok, TransferWeight;
    Announce(a, ctrl, ticker, chunks);
    var dest := Dest(dir, a.rel);
    created := false;
    var bytes := files.Fetch(a.file);
    if bytes.None? {
      return Failure(CannotStage), created;
    }
    if !InPlace(dir, a) {
      created := true;
      var ok := files.Store(dest, bytes.value);
      if !ok {
        return Failure(CannotStage), created;
      }
    }
    var verdict := Verify(digest(bytes.value), a.file.sha256);
    ghost var was := ctrl.trace;
    ticker.Note(ctrl, Checked(a.file, verdict));
    assert ctrl.trace[|was|] == Checked(a.file, verdict);
    if verdict == Mismatched {
      return Failure(StagedMismatch), created;
    }
    return Success(()), created;
  }

  /** A dry run only goes through the steps. */
  method StageDry(plan: seq<Artifact>, ctrl: Ctrl, ticker: Ticker)
    requires ticker.Ok(ctrl) && ticker.done + ticker.current + StagingWeight(plan) <= ticker.total
    modifies ctrl, ticker
    ensures ticker.Ok(ctrl)
    ensures ticker.done + ticker.current == old(ticker.done + ticker.current) + StagingWeight(plan)
    ensures Adds(old(ctrl.trace), ctrl.trace, Quiet)
    ensures forall k :: |old(ctrl.trace)| <= k < |ctrl.trace| ==> !ctrl.trace[k].Checked?
  {
    hide Share, Begun, BarsRise, BarsUnder, StagingWeight, TransferWeight;
    NoWeight();
    assert plan[..0] == [] && plan[..|plan|] == plan;
    for i := 0 to |plan|
      invariant ticker.Ok(ctrl)
      invariant ticker.done + ticker.current == old(ticker.done + ticker.current) + StagingWeight(plan[..i])
      invariant Adds(old(ctrl.trace), ctrl.trace, Quiet)
      invariant forall k :: |old(ctrl.trace)| <= k < |ctrl.trace| ==> !ctrl.trace[k].Checked?
    {
      StagingWeightGrows(plan, i);
      ticker.Begin(ctrl, TransferWeight(plan[i].file.size));
    }
  }

  /** `stage::run`. On a failure what was staged so far is dropped. */
  method StageRun(dryRun: bool, keep: bool, dir: string, plan: seq<Artifact>, files: Files, ctrl: Ctrl, ticker: Ticker, digest: Digest)
    returns (r: Result<Staged, StageError>)
    requires ticker.Ok(ctrl) && ticker.done + ticker.current + StagingWeight(plan) <= ticker.total
    modifies files, ctrl, ticker
    ensures ticker.Ok(ctrl)
    ensures ticker.done + ticker.current <= old(ticker.done + ticker.current) + StagingWeight(plan)
    ensures r.Success? ==> ticker.done + ticker.current == old(ticker.done + ticker.current) + StagingWeight(plan)
    ensures Adds(old(ctrl.trace), ctrl.trace, Quiet)
    ensures dryRun ==>
              && r.Success? && r.value.paths == [] && r.value.created == [] && files.contents == old(files.contents)
              && forall k :: |old(ctrl.trace)| <= k < |ctrl.trace| ==> !ctrl.trace[k].Checked?
    ensures r.Success? ==>
              && r.value.dir == dir
              && forall k :: |old(ctrl.trace)| <= k < |ctrl.trace| && ctrl.trace[k].Checked? ==>
                   ctrl.trace[k].verdict != Mismatched
    ensures !dryRun && r.Success? ==>
              Covers(r.value, plan) && AllChecked(ctrl.trace, plan)
              && CopiesVerified(files.contents, dir, plan, |plan|, digest)
    ensures OthersKept(old(files.contents), files.contents, dir, plan)
    ensures r.Success? ==>
              && (forall p :: p in r.value.created ==> StagedOver(dir, plan, p))
              && (forall p :: p in files.contents ==> p in old(files.contents) || p in r.value.created)
    ensures r.Failure? && !keep ==> forall p :: p in files.contents ==> p in old(files.contents)
    ensures r.Failure? ==>
              || files.disturbed
              || (r.error == StagedMismatch
                  && exists k :: |old(ctrl.trace)| <= k < |ctrl.trace| && ctrl.trace[k].Checked? && ctrl.trace[k].verdict == Mismatched)
    ensures r.Success? ==> files.disturbed == old(files.disturbed)
    ensures old(files.disturbed) ==> files.disturbed
    ensures files.unpacked == old(files.unpacked)
  {
    hide Dest, Verify, FoundWrong, IsUrl, TransferWeight, InPlace, OthersKept, StagedOver, Ticker.Ok, Quiet;
    hide Share, Begun, BarsRise, BarsUnder, StagingWeight, CheckedOk, CopiesVerified, CopyVerified;
    NoWeight();
    NothingStaged(files.contents, dir, plan, digest);
    assert plan[..0] == [] && plan[..|plan|] == plan;
    if dryRun {
      StageDry(plan, ctrl, ticker);
      return Success(Staged(dir, [], []));
    }
    var room := files.Try();
    if !room {
      StagingWeightGrows(plan, 0);
      return Failure(NoSpace);
    }
    var paths: seq<(string, string)> := [];
    var created: seq<string> := [];
    for i := 0 to |plan|
      invariant ticker.Ok(ctrl)
      invariant ticker.done + ticker.current == old(ticker.done + ticker.current) + StagingWeight(plan[..i])
      invariant Adds(old(ctrl.trace), ctrl.trace, Quiet)
      invariant forall k :: |old(ctrl.trace)| <= k < |ctrl.trace| && ctrl.trace[k].Checked? ==>
                  ctrl.trace[k].verdict != Mismatched
      invariant |paths| == i && forall j :: 0 <= j < i ==> paths[j] == (plan[j].file.location, Dest(dir, plan[j].rel))
      invariant forall j :: 0 <= j < i ==> CheckedOk(ctrl.trace, plan[j].file)
      invariant CopiesVerified(files.contents, dir, plan, i, digest)
      invariant OthersKept(old(files.contents), files.contents, dir, plan)
      invariant forall p :: p in created ==> StagedOver(dir, plan, p)
      invariant forall p :: p in files.contents ==> p in old(files.contents) || p in created
      invariant files.disturbed == old(files.disturbed) && files.unpacked == old(files.unpacked)
    {
      StagingWeightGrows(plan, i);
      var chunks: seq<nat> :| true;
      ghost var trace := ctrl.trace;
      ghost var contents := files.contents;
      var one, copied := StageOne(dir, plan[i], files, ctrl, ticker, digest, chunks);
      AddsMore(old(ctrl.trace), trace, ctrl.trace, Quiet);
      CopyKeepsOthers(contents, files.contents, dir, plan, i);
      KeptTwice(old(files.contents), contents, files.contents, dir, plan);
      if copied {
        IsStagedOver(dir, plan, i);
        created := created + [Dest(dir, plan[i].rel)];
      }
      if one.Failure? {
        ghost var held := files.contents;
        DropStaged(Staged(dir, paths, created), keep, files);
        DropKeepsOthers(held, files.contents, dir, plan, created);
        KeptTwice(old(files.contents), held, files.contents, dir, plan);
        assert one.error == StagedMismatch ==> ctrl.trace[|ctrl.trace| - 1] == Checked(plan[i].file, Mismatched);
        return Failure(one.error);
      }
      forall j | 0 <= j < i
        ensures CheckedOk(ctrl.trace, plan[j].file)
      {
        CheckedStays(trace, ctrl.trace, plan[j].file);
      }
      CopiesSurvive(contents, files.contents, dir, plan, i, digest);
      paths := paths + [(plan[i].file.location, Dest(dir, plan[i].rel))];
    }
    return Success(Staged(dir, paths, created));
  }

  lemma IsStagedOver(dir: string, plan: seq<Artifact>, i: nat)
    requires i < |plan| && !InPlace(dir, plan[i])
    ensures StagedOver(dir, plan, Dest(dir, plan[i].rel))
  {
    hide InPlace, Dest;
  }

  lemma DropKeepsOthers(before: map<string, seq<u8>>, after: map<string, seq<u8>>, dir: string, plan: seq<Artifact>, created: seq<string>)
    requires forall p :: p in created ==> StagedOver(dir, plan, p)
    requires forall p :: p in before && p !in created ==> p in after && after[p] == before[p]
    ensures OthersKept(before, after, dir, plan)
  {
    hide StagedOver;
  }

  lemma NoWeight()
    ensures StagingWeight([]) == 0
  {
  }

  lemma NothingStaged(contents: map<string, seq<u8>>, dir: string, plan: seq<Artifact>, digest: Digest)
    ensures CopiesVerified(contents, dir, plan, 0, digest) && OthersKept(contents, contents, dir, plan)
  {
  }

  // --- reading the staged copies ------------------------------------------------------

  function StagedPath(paths: seq<(string, string)>, location: string): (r: Option<string>)
    ensures r.Some? ==> exists i :: 0 <= i < |paths| && paths[i] == (location, r.value)
    ensures r.None? ==> forall i :: 0 <= i < |paths| ==> paths[i].0 != location
  {
    if paths == [] then None
    else if paths[0].0 == location then
      assert paths[0] == (location, paths[0].1);
      Some(paths[0].1)
    else
      var r := StagedPath(paths[1..], location);
      assert forall i :: 0 <= i < |paths[1..]| ==> paths[1..][i] == paths[i + 1];
      r
  }

  function Localise(s: Staged, file: PackFile): PackFile {
    match StagedPath(s.paths, file.location)
    case Some(path) => file.(location := path, source := Local(s.dir))
    case None => file
  }

  function LocaliseOption(s: Staged, file: Option<PackFile>): Option<PackFile> {
    match file case None => None case Some(f) => Some(Localise(s, f))
  }

  function LocaliseProfile(s: Staged, p: Profile): Profile {
    p.(full := LocaliseOption(s, p.full), incremental := LocaliseOption(s, p.incremental))
  }

  function LocaliseProfiles(s: Staged, ps: seq<Profile>): (r: seq<Profile>)
    ensures |r| == |ps|
  {
    seq(|ps|, i requires 0 <= i < |ps| => LocaliseProfile(s, ps[i]))
  }

  /** `localise_build`. */
  method LocaliseBuild(s: Staged, build: Contents) returns (r: Contents)
    ensures r == Contents(LocaliseProfiles(s, build.profiles), LocaliseOption(s, build.home))
  {
    var profiles := build.profiles;
    for i := 0 to |profiles|
      invariant |profiles| == |build.profiles|
      invariant forall k :: 0 <= k < i ==> profiles[k] == LocaliseProfile(s, build.profiles[k])
      invariant forall k :: i <= k < |profiles| ==> profiles[k] == build.profiles[k]
    {
      var p := profiles[i];
      if p.full.Some? {
        p := p.(full := Some(Localise(s, p.full.value)));
      }
      if p.incremental.Some? {
        p := p.(incremental := Some(Localise(s, p.incremental.value)));
      }
      profiles := profiles[i := p];
    }
    return Contents(profiles, LocaliseOption(s, build.home));
  }

  /** The staging of exactly this plan. */
  ghost predicate Covers(s: Staged, plan: seq<Artifact>) {
    |s.paths| == |plan|
    && forall i :: 0 <= i < |plan| ==> s.paths[i] == (plan[i].file.location, Dest(s.dir, plan[i].rel))
  }

  ghost predicate IsStagedCopy(file: PackFile, dir: string, plan: seq<Artifact>) {
    file.source == Local(dir) && exists i :: 0 <= i < |plan| && file.location == Dest(dir, plan[i].rel)
  }

  /** After localising, a planned artifact is read from the scratch directory. */
  lemma PlannedIsLocalised(s: Staged, plan: seq<Artifact>, i: nat)
    requires Covers(s, plan) && i < |plan|
    ensures IsStagedCopy(Localise(s, plan[i].file), s.dir, plan)
    ensures Localise(s, plan[i].file).size == plan[i].file.size
  {
    hide Dest;
    assert s.paths[i].0 == plan[i].file.location;
    var path := StagedPath(s.paths, plan[i].file.location);
    assert path.Some?;
    var k :| 0 <= k < |s.paths| && s.paths[k] == (plan[i].file.location, path.value);
    assert Localise(s, plan[i].file).location == Dest(s.dir, plan[k].rel);
  }

  ghost predicate DistinctSources(plan: seq<Artifact>) {
    forall i, j :: 0 <= i < j < |plan| ==> plan[i].file.location != plan[j].file.location
  }

  /** A local file whose digest, taken again, is not wrong. */
  ghost predicate Trusted(file: PackFile, contents: map<string, seq<u8>>, digest: Digest) {
    file.source.Local? && CopyVerified(contents, file.location, file, digest)
  }

  /** With distinct names and sources, what the run goes on to read of a planned artifact
      is the copy that was verified against that artifact's own digest. */
  lemma LocalisedIsTrusted(s: Staged, plan: seq<Artifact>, i: nat, contents: map<string, seq<u8>>, digest: Digest)
    requires Covers(s, plan) && i < |plan| && DistinctRels(plan) && DistinctSources(plan)
    requires CopiesVerified(contents, s.dir, plan, |plan|, digest)
    ensures Trusted(Localise(s, plan[i].file), contents, digest)
  {
    DistinctAreAllVerified(contents, s.dir, plan, digest);
    hide Dest, Verify;
    assert s.paths[i].0 == plan[i].file.location;
    var path := StagedPath(s.paths, plan[i].file.location);
    assert path.Some?;
    var k :| 0 <= k < |s.paths| && s.paths[k] == (plan[i].file.location, path.value);
    assert k == i;
  }

  // --- artifacts on the target's own mounts ---------------------------------------------

  /** `under`: inside a mountpoint, by whole path segments. */
  function Under(path: string, mountpoint: string): bool {
    var mp := TrimEnd(mountpoint);
    if mp == [] then StartsWith(path, "/")
    else
      match StripPrefix(path, mp)
      case Some(rest) => rest == [] || rest[0] == '/'
      case None => false
  }

  lemma {:induction false} TrimEndHasNoSlash(s: string)
    ensures TrimEnd(s) != [] ==> TrimEnd(s)[|TrimEnd(s)| - 1] != '/'
  {
    if s != [] && s[|s| - 1] == '/' {
      TrimEndHasNoSlash(s[..|s| - 1]);
    }
  }

  /** A path is under a mountpoint exactly when it is the mountpoint or continues it
      with a new segment; a sibling whose name extends it is not. */
  lemma UnderIs(path: string, mountpoint: string)
    ensures Under(path, mountpoint)
            <==> (path == TrimEnd(mountpoint) && path != []) || StartsWith(path, TrimEnd(mountpoint) + "/")
  {
    var mp := TrimEnd(mountpoint);
    if StartsWith(path, mp) {
      assert path == mp + path[|mp|..];
      if |path| > |mp| {
        assert path[..|mp| + 1] == mp + [path[|mp|]];
      }
    }
    if StartsWith(path, mp + "/") {
      assert path[..|mp| + 1][..|mp|] == path[..|mp|];
      assert (mp + "/")[..|mp|] == mp;
      assert path[..|mp| + 1][|mp|] == (mp + "/")[|mp|];
    }
  }

  /** `check_not_on_mounts`: refuses exactly when a local artifact lies on one of the
      target's mounts. */
  method CheckNotOnMounts(plan: seq<Artifact>, mounts: seq<string>) returns (r: Result<(), (string, string)>)
    ensures r.Success? <==>
            forall i, j :: 0 <= i < |plan| && 0 <= j < |mounts| && !IsUrl(plan[i].file.location) ==>
              !Under(plan[i].file.location, mounts[j])
    ensures r.Failure? ==>
              exists i, j :: 0 <= i < |plan| && 0 <= j < |mounts| && !IsUrl(plan[i].file.location)
                && Under(plan[i].file.location, mounts[j]) && r.error == (plan[i].title, mounts[j])
  {
    hide IsUrl, Under;
    for i := 0 to |plan|
      invariant forall k, j :: 0 <= k < i && 0 <= j < |mounts| && !IsUrl(plan[k].file.location) ==>
                  !Under(plan[k].file.location, mounts[j])
    {
      if IsUrl(plan[i].file.location) {
        continue;
      }
      for j := 0 to |mounts|
        invariant forall m :: 0 <= m < j ==> !Under(plan[i].file.location, mounts[m])
      {
        if Under(plan[i].file.location, mounts[j]) {
          return Failure((plan[i].title, mounts[j]));
        }
      }
    }
    return Success(());
  }
}
