/** One whole install run as the sequence of events it leaves behind
    (src/core/install.rs:307-812, 840-1010, 1151-1375). Commands, servers and the
    medium may fail at any point. */
module InstallRun {
  import opened Wrappers
  import opened Bytes
  import opened Text
  import opened Progress
  import opened Profiles
  import opened BootPair
  import opened Ticking
  import opened Staging

  const DISCARD_WEIGHT: nat := 16 * MIB
  const GPT_WEIGHT: nat := MIB
  const MKFS_WEIGHT: nat := 8 * MIB
  const SNAPSHOT_WEIGHT: nat := MIB
  const KERNEL_WEIGHT: nat := 64 * MIB
  const METADATA_START: nat := 60 * MIB
  const ROOT_START: nat := 64 * MIB
  const METADATA_SIZE: nat := ROOT_START - METADATA_START
  const LOADER_CAPACITY: nat := METADATA_START - LOADER_START

  datatype FetchMode = VerifyFirst | Stream

  /** What the run finds out about its target before it starts; only a UFS device has
      the logical units. */
  datatype Device = Device(
    ufs: bool,
    bootRomCapable: bool,
    inUse: bool,
    bootLu: Option<Target>,
    bootLuSize: Option<nat>,
    recoveryLu: bool,
    recoveryLuSize: Option<nat>,
    mounts: seq<string>)

  datatype Job = Job(
    device: Device,
    uboot: PackFile,
    bootMenu: Option<PackFile>,
    recovery: Option<PackFile>,
    build: Contents,
    selected: seq<string>,
    archive: Option<nat>,
    mode: FetchMode,
    dryRun: bool,
    scratch: string,
    keepCache: bool)

  datatype Fault =
    | NoMinimal
    | Refused
    | OnTarget
    | ArchiveBroken
    | NotStaged(error: StageError)
    | CommandFailed
    | SourceFailed
    | BadDigest
    | NoFullPack
    | NoIncremental

  // --- what the run reads -------------------------------------------------------

  /** The extra profiles the user opted into, in build order. */
  function Extras(profiles: seq<Profile>, selected: seq<string>): seq<Profile> {
    if profiles == [] then []
    else
      var p := profiles[|profiles| - 1];
      Extras(profiles[..|profiles| - 1], selected) + if !p.IsMinimal() && p.name in selected then [p] else []
  }

  ghost predicate Picked(p: Profile, selected: seq<string>) {
    !SpellsSame(p.name, "minimal") && p.name in selected
  }

  /** `at` lists where in the build the extras stand. */
  ghost predicate StandAt(extras: seq<Profile>, profiles: seq<Profile>, at: seq<nat>) {
    && |at| == |extras|
    && (forall i :: 0 <= i < |at| ==> at[i] < |profiles| && extras[i] == profiles[at[i]])
    && (forall i, j :: 0 <= i < j < |at| ==> at[i] < at[j])
  }

  /** The extras are exactly the selected profiles that are not Minimal, each as often as
      the build lists it and in its order. */
  lemma {:induction false} ExtrasAre(profiles: seq<Profile>, selected: seq<string>) returns (at: seq<nat>)
    ensures StandAt(Extras(profiles, selected), profiles, at)
    ensures forall k: nat :: k in at <==> k < |profiles| && Picked(profiles[k], selected)
  {
    at := [];
    if profiles != [] {
      var n := |profiles| - 1;
      var init := profiles[..n];
      var before := ExtrasAre(init, selected);
      MinimalIs(profiles[n]);
      at := before + if Picked(profiles[n], selected) then [n] else [];
      assert Extras(profiles, selected)
          == Extras(init, selected) + if Picked(profiles[n], selected) then [profiles[n]] else [];
      hide Picked, Extras;
      forall k: nat
        ensures k in at <==> k < |profiles| && Picked(profiles[k], selected)
      {
        assert k in before <==> k < n && Picked(init[k], selected);
      }
      assert forall i :: 0 <= i < |before| ==> before[i] in before;
    }
  }

  /** The images of one run: as published, or as staged. */
  datatype Images = Images(uboot: PackFile, bootMenu: Option<PackFile>, recovery: Option<PackFile>, build: Contents)

  /** The Falcon images are only resolved for a UFS target. */
  function Published(job: Job): Images {
    if job.device.ufs then Images(job.uboot, job.bootMenu, job.recovery, job.build)
    else Images(job.uboot, None, None, job.build)
  }

  function Localised(s: Staged, im: Images): Images {
    Images(Localise(s, im.uboot), LocaliseOption(s, im.bootMenu), LocaliseOption(s, im.recovery),
           Contents(LocaliseProfiles(s, im.build.profiles), LocaliseOption(s, im.build.home)))
  }

  function PlanOf(job: Job): seq<Artifact> {
    var im := Published(job);
    StagePlan(Request(im.uboot, im.bootMenu, im.recovery, im.build, Extras(im.build.profiles, job.selected)))
  }

  // --- the total ------------------------------------------------------------------

  function OptionWeight(file: Option<PackFile>): nat {
    match file case None => 0 case Some(f) => TransferWeight(f.size)
  }

  function DeployWeight(pack: Option<PackFile>): nat {
    TransferWeight(match pack case None => 0 case Some(f) => f.size) + SNAPSHOT_WEIGHT + KERNEL_WEIGHT
  }

  function ExtrasWeight(extras: seq<Profile>): nat {
    if extras == [] then 0
    else ExtrasWeight(extras[..|extras| - 1]) + DeployWeight(extras[|extras| - 1].incremental)
  }

  function RecoveryOf(job: Job, im: Images): Option<PackFile> {
    if job.device.ufs && job.device.recoveryLu then im.recovery else None
  }

  function DeployAllWeight(job: Job, im: Images): nat {
    OptionWeight(im.build.home) + DeployWeight(MinimalFull(im.build))
    + ExtrasWeight(Extras(im.build.profiles, job.selected)) + METADATA_SIZE
  }

  function WriteWeight(job: Job, im: Images): nat {
    DISCARD_WEIGHT + GPT_WEIGHT + TransferWeight(im.uboot.size) + OptionWeight(im.bootMenu)
    + OptionWeight(RecoveryOf(job, im)) + MKFS_WEIGHT + DeployAllWeight(job, im)
  }

  /** `total_weight`, computed before the run from what the manifests publish. */
  function TotalWeight(job: Job): nat {
    (match job.archive case None => 0 case Some(size) => size)
    + (if job.mode.VerifyFirst? then StagingWeight(PlanOf(job)) else 0)
    + WriteWeight(job, Published(job))
  }

  lemma {:induction false} ExtrasWeightGrows(extras: seq<Profile>, i: nat)
    requires i <= |extras|
    ensures ExtrasWeight(extras[..i]) <= ExtrasWeight(extras)
    ensures i < |extras| ==>
              ExtrasWeight(extras[..i + 1]) == ExtrasWeight(extras[..i]) + DeployWeight(extras[i].incremental) <= ExtrasWeight(extras)
  {
    hide DeployWeight;
    if i < |extras| {
      var n := |extras| - 1;
      ExtrasWeightGrows(extras[..n], if i < n then i else n);
      if i < n {
        assert extras[..n][..i] == extras[..i] && extras[..n][..i + 1] == extras[..i + 1];
      } else {
        assert extras[..i + 1] == extras && extras[..n][..n] == extras[..n];
      }
    } else {
      assert extras[..i] == extras;
    }
  }

  // --- what a successful run destroys, in order ------------------------------------

  function Receives(extras: seq<Profile>): seq<Destruction> {
    seq(|extras|, i requires 0 <= i < |extras| => PackReceive(extras[i].name))
  }

  function OptionErased(file: Option<PackFile>, what: Destruction): seq<Destruction> {
    if file.Some? then [what] else []
  }

  function LoaderErased(job: Job): seq<Destruction> {
    if !job.device.ufs then [LoaderWrite]
    else match job.device.bootLu case None => [] case Some(t) => [BootLuWrite(t.id)]
  }

  function MinimalErased(im: Images): seq<Destruction> {
    match FirstMinimal(im.build.profiles) case None => [] case Some(m) => [PackReceive(m.name)]
  }

  function DeployErased(job: Job, im: Images): seq<Destruction> {
    OptionErased(im.build.home, PackReceive("@home")) + MinimalErased(im)
    + Receives(Extras(im.build.profiles, job.selected))
  }

  function ExpectedErased(job: Job, im: Images): seq<Destruction> {
    [Wipe] + [PartitionTable] + LoaderErased(job) + OptionErased(im.bootMenu, BootMenuWrite)
    + OptionErased(RecoveryOf(job, im), RecoveryWrite) + [MakeFilesystem] + DeployErased(job, im)
  }

  /** What a run receives into the new filesystem: the seed, the first Minimal profile of
      the build, and the selected others. */
  ghost predicate Receivable(job: Job, name: string) {
    var profiles := job.build.profiles;
    || (job.build.home.Some? && name == "@home")
    || (exists k :: IsFirstMinimal(profiles, k) && profiles[k].name == name)
    || (exists k :: 0 <= k < |profiles| && Picked(profiles[k], job.selected) && profiles[k].name == name)
  }

  lemma ExtrasReceived(profiles: seq<Profile>, selected: seq<string>, name: string)
    ensures PackReceive(name) in Receives(Extras(profiles, selected))
            <==> exists k :: 0 <= k < |profiles| && Picked(profiles[k], selected) && profiles[k].name == name
  {
    var at := ExtrasAre(profiles, selected);
    var extras := Extras(profiles, selected);
    hide Extras, Picked;
    if PackReceive(name) in Receives(extras) {
      var i :| 0 <= i < |extras| && Receives(extras)[i] == PackReceive(name);
      assert at[i] in at;
      assert Picked(profiles[at[i]], selected) && profiles[at[i]].name == name;
    }
    if k :| 0 <= k < |profiles| && Picked(profiles[k], selected) && profiles[k].name == name {
      var i :| 0 <= i < |at| && at[i] == k;
      assert Receives(extras)[i] == PackReceive(name);
    }
  }

  /** What a real run has to overwrite, from what the job asks for. */
  ghost predicate Due(job: Job, what: Destruction) {
    match what
    case Wipe => true
    case PartitionTable => true
    case LoaderWrite => !job.device.ufs
    case BootLuWrite(id) => job.device.ufs && job.device.bootLu.Some? && job.device.bootLu.value.id == id
    case BootMenuWrite => job.device.ufs && job.bootMenu.Some?
    case RecoveryWrite => job.device.ufs && job.device.recoveryLu && job.recovery.Some?
    case MakeFilesystem => true
    case PackReceive(name) => Receivable(job, name)
    case MetadataWrite => false
  }

  lemma DeployedExactly(job: Job, what: Destruction)
    ensures what in DeployErased(job, Published(job)) <==> what.PackReceive? && Receivable(job, what.profile)
  {
    var im := Published(job);
    FirstMinimalIs(job.build.profiles);
    var received := Receives(Extras(job.build.profiles, job.selected));
    assert forall i :: 0 <= i < |received| ==> received[i].PackReceive?;
    if what.PackReceive? {
      ExtrasReceived(job.build.profiles, job.selected, what.profile);
    }
    hide Extras, Picked, IsFirstMinimal, FirstMinimal, Receives;
    var minimal := FirstMinimal(job.build.profiles);
    if minimal.Some? {
      assert MinimalErased(im) == [PackReceive(minimal.value.name)];
    }
  }

  /** A run overwrites exactly what its job asks for. */
  lemma ExpectedExactly(job: Job, what: Destruction)
    ensures what in ExpectedErased(job, Published(job)) <==> Due(job, what)
  {
    var im := Published(job);
    DeployedExactly(job, what);
    hide DeployErased, Receivable;
  }

  // --- staging changes where the images are read from, nothing else ----------------

  lemma {:induction false} ExtrasLocalised(s: Staged, profiles: seq<Profile>, selected: seq<string>)
    ensures Extras(LocaliseProfiles(s, profiles), selected) == LocaliseProfiles(s, Extras(profiles, selected))
  {
    if profiles != [] {
      var n := |profiles| - 1;
      ExtrasLocalised(s, profiles[..n], selected);
      assert LocaliseProfiles(s, profiles)[..n] == LocaliseProfiles(s, profiles[..n]);
      var here := if !profiles[n].IsMinimal() && profiles[n].name in selected then [profiles[n]] else [];
      assert LocaliseProfiles(s, Extras(profiles[..n], selected) + here)
          == LocaliseProfiles(s, Extras(profiles[..n], selected)) + LocaliseProfiles(s, here);
    }
  }

  lemma {:induction false} ExtrasWeighTheSame(s: Staged, extras: seq<Profile>)
    ensures ExtrasWeight(LocaliseProfiles(s, extras)) == ExtrasWeight(extras)
  {
    if extras != [] {
      var n := |extras| - 1;
      ExtrasWeighTheSame(s, extras[..n]);
      assert LocaliseProfiles(s, extras)[..n] == LocaliseProfiles(s, extras[..n]);
    }
  }

  lemma {:induction false} MinimalLocalised(s: Staged, profiles: seq<Profile>)
    ensures FirstMinimal(LocaliseProfiles(s, profiles))
         == match FirstMinimal(profiles) case None => None case Some(m) => Some(LocaliseProfile(s, m))
  {
    if profiles != [] && !profiles[0].IsMinimal() {
      MinimalLocalised(s, profiles[1..]);
      assert LocaliseProfiles(s, profiles)[1..] == LocaliseProfiles(s, profiles[1..]);
    }
  }

  /** The total precomputed from the published images is the weight of writing the
      staged ones. */
  lemma LocalisedWeighsTheSame(job: Job, s: Staged, im: Images)
    ensures WriteWeight(job, Localised(s, im)) == WriteWeight(job, im)
    ensures ExpectedErased(job, Localised(s, im)) == ExpectedErased(job, im)
  {
    ExtrasLocalised(s, im.build.profiles, job.selected);
    ExtrasWeighTheSame(s, Extras(im.build.profiles, job.selected));
    MinimalLocalised(s, im.build.profiles);
    hide Extras, ExtrasWeight, FirstMinimal, StagedPath, TransferWeight;
    assert Receives(LocaliseProfiles(s, Extras(im.build.profiles, job.selected))) == Receives(Extras(im.build.profiles, job.selected));
  }

  // --- what may be read ---------------------------------------------------------------

  ghost predicate InPlan(plan: seq<Artifact>, file: PackFile) {
    exists i :: 0 <= i < |plan| && plan[i].file == file
  }

  /** Verified first, the run reads scratch copies; streaming, what it was given. */
  ghost predicate Allowed(job: Job, file: PackFile) {
    if job.mode.VerifyFirst? then IsStagedCopy(file, job.scratch, PlanOf(job)) else InPlan(PlanOf(job), file)
  }

  ghost predicate AllowedOption(job: Job, file: Option<PackFile>) {
    file.Some? ==> Allowed(job, file.value)
  }

  ghost predicate AllAllowed(job: Job, im: Images) {
    && Allowed(job, im.uboot)
    && AllowedOption(job, im.bootMenu)
    && AllowedOption(job, im.recovery)
    && AllowedOption(job, im.build.home)
    && AllowedOption(job, MinimalFull(im.build))
    && forall i :: 0 <= i < |Extras(im.build.profiles, job.selected)| ==>
         AllowedOption(job, Extras(im.build.profiles, job.selected)[i].incremental)
  }

  ghost predicate TrustedOption(file: Option<PackFile>, contents: map<string, seq<u8>>, digest: Digest) {
    file.Some? ==> Trusted(file.value, contents, digest)
  }

  ghost predicate ExtrasTrusted(extras: seq<Profile>, contents: map<string, seq<u8>>, digest: Digest) {
    forall i :: 0 <= i < |extras| ==> TrustedOption(extras[i].incremental, contents, digest)
  }

  /** Every image of the run is a local file that would pass its digest again. */
  ghost predicate AllTrusted(job: Job, im: Images, contents: map<string, seq<u8>>, digest: Digest) {
    && Trusted(im.uboot, contents, digest)
    && TrustedOption(im.bootMenu, contents, digest)
    && TrustedOption(im.recovery, contents, digest)
    && DeployTrusted(job, im, contents, digest)
  }

  ghost predicate DeployTrusted(job: Job, im: Images, contents: map<string, seq<u8>>, digest: Digest) {
    && TrustedOption(im.build.home, contents, digest)
    && TrustedOption(MinimalFull(im.build), contents, digest)
    && ExtrasTrusted(Extras(im.build.profiles, job.selected), contents, digest)
  }

  /** Only a run that verified first fails over a digest, and never over a trusted file. */
  ghost predicate Blames<T>(job: Job, r: Result<T, Fault>, trusted: bool) {
    r == Failure(BadDigest) ==> job.mode.VerifyFirst? && !job.dryRun && !trusted
  }

  ghost predicate PlannedOption(plan: seq<Artifact>, file: Option<PackFile>) {
    file.Some? ==> InPlan(plan, file.value)
  }

  lemma InEither(a: seq<Artifact>, b: seq<Artifact>, file: PackFile)
    requires InPlan(a, file) || InPlan(b, file)
    ensures InPlan(a + b, file)
  {
    if InPlan(a, file) {
      var i :| 0 <= i < |a| && a[i].file == file;
      assert (a + b)[i] == a[i];
    } else {
      var i :| 0 <= i < |b| && b[i].file == file;
      assert (a + b)[|a| + i] == b[i];
    }
  }

  lemma NamedPlanned(title: string, file: Option<PackFile>)
    ensures PlannedOption(Named(title, file), file)
  {
    if file.Some? {
      assert Named(title, file)[0].file == file.value;
    }
  }

  lemma {:induction false} ExtraPlanned(extras: seq<Profile>, i: nat)
    requires i < |extras|
    ensures PlannedOption(ExtraArtifacts(extras), extras[i].incremental)
  {
    var n := |extras| - 1;
    var last := Named(extras[n].name + " (incremental)", extras[n].incremental);
    if extras[i].incremental.Some? {
      if i < n {
        ExtraPlanned(extras[..n], i);
      } else {
        NamedPlanned(extras[n].name + " (incremental)", extras[n].incremental);
      }
      InEither(ExtraArtifacts(extras[..n]), last, extras[i].incremental.value);
    }
  }

  lemma PlannedEither(a: seq<Artifact>, b: seq<Artifact>, file: Option<PackFile>)
    requires PlannedOption(a, file) || PlannedOption(b, file)
    ensures PlannedOption(a + b, file)
  {
    if file.Some? {
      InEither(a, b, file.value);
    }
  }

  /** Everything the run will read is in the plan that is staged. */
  lemma EverythingPlanned(r: Request)
    ensures InPlan(StagePlan(r), r.uboot)
    ensures PlannedOption(StagePlan(r), r.bootMenu) && PlannedOption(StagePlan(r), r.recovery)
    ensures PlannedOption(StagePlan(r), r.build.home) && PlannedOption(StagePlan(r), MinimalFull(r.build))
    ensures forall i :: 0 <= i < |r.extras| ==> PlannedOption(StagePlan(r), r.extras[i].incremental)
  {
    var p0 := [Artifact("u-boot image", r.uboot, "u-boot-rockchip.bin")];
    var p1, p2 := Named("boot menu image", r.bootMenu), Named("recovery image", r.recovery);
    var p3, p4, p5 := Named("/home seed", r.build.home), Named("Minimal (full)", MinimalFull(r.build)), ExtraArtifacts(r.extras);
    NamedPlanned("boot menu image", r.bootMenu);
    NamedPlanned("recovery image", r.recovery);
    NamedPlanned("/home seed", r.build.home);
    NamedPlanned("Minimal (full)", MinimalFull(r.build));
    assert p0[0].file == r.uboot;
    forall i | 0 <= i < |r.extras|
      ensures PlannedOption(StagePlan(r), r.extras[i].incremental)
    {
      ExtraPlanned(r.extras, i);
      PlannedEither(p0 + p1 + p2 + p3 + p4, p5, r.extras[i].incremental);
    }
    hide InPlan, Named, ExtraArtifacts, MinimalFull;
    Joined(p0, p1, p2, p3, p4, p5, Some(r.uboot));
    Joined(p0, p1, p2, p3, p4, p5, r.bootMenu);
    Joined(p0, p1, p2, p3, p4, p5, r.recovery);
    Joined(p0, p1, p2, p3, p4, p5, r.build.home);
    Joined(p0, p1, p2, p3, p4, p5, MinimalFull(r.build));
  }

  lemma Joined(p0: seq<Artifact>, p1: seq<Artifact>, p2: seq<Artifact>, p3: seq<Artifact>, p4: seq<Artifact>, p5: seq<Artifact>, file: Option<PackFile>)
    requires PlannedOption(p0, file) || PlannedOption(p1, file) || PlannedOption(p2, file) || PlannedOption(p3, file) || PlannedOption(p4, file)
    ensures PlannedOption(p0 + p1 + p2 + p3 + p4 + p5, file)
  {
    hide PlannedOption;
    if PlannedOption(p0, file) || PlannedOption(p1, file) {
      PlannedEither(p0, p1, file);
    }
    if PlannedOption(p0 + p1, file) || PlannedOption(p2, file) {
      PlannedEither(p0 + p1, p2, file);
    }
    if PlannedOption(p0 + p1 + p2, file) || PlannedOption(p3, file) {
      PlannedEither(p0 + p1 + p2, p3, file);
    }
    PlannedEither(p0 + p1 + p2 + p3, p4, file);
    PlannedEither(p0 + p1 + p2 + p3 + p4, p5, file);
  }

  lemma StagedOption(job: Job, s: Staged, file: Option<PackFile>)
    requires job.mode.VerifyFirst? && Covers(s, PlanOf(job)) && s.dir == job.scratch
    requires PlannedOption(PlanOf(job), file)
    ensures AllowedOption(job, LocaliseOption(s, file))
  {
    if file.Some? {
      var plan := PlanOf(job);
      var i :| 0 <= i < |plan| && plan[i].file == file.value;
      PlannedIsLocalised(s, plan, i);
    }
  }

  /** Once staged and localised, every image the run will read is a scratch copy. */
  lemma StagedAreAllowed(job: Job, s: Staged)
    requires job.mode.VerifyFirst? && Covers(s, PlanOf(job)) && s.dir == job.scratch
    ensures AllAllowed(job, Localised(s, Published(job)))
  {
    var im := Published(job);
    var extras := Extras(im.build.profiles, job.selected);
    EverythingPlanned(Request(im.uboot, im.bootMenu, im.recovery, im.build, extras));
    MinimalLocalised(s, im.build.profiles);
    ExtrasLocalised(s, im.build.profiles, job.selected);
    hide Extras, StagePlan, InPlan, Allowed, Covers, Localise, FirstMinimal;
    StagedOption(job, s, Some(im.uboot));
    StagedOption(job, s, im.bootMenu);
    StagedOption(job, s, im.recovery);
    StagedOption(job, s, im.build.home);
    StagedOption(job, s, MinimalFull(im.build));
    forall i | 0 <= i < |extras|
      ensures AllowedOption(job, LocaliseProfiles(s, extras)[i].incremental)
    {
      StagedOption(job, s, extras[i].incremental);
    }
  }

  lemma TrustedStagedOption(job: Job, s: Staged, file: Option<PackFile>, contents: map<string, seq<u8>>, digest: Digest)
    requires Covers(s, PlanOf(job)) && PlannedOption(PlanOf(job), file)
    requires DistinctRels(PlanOf(job)) && DistinctSources(PlanOf(job))
    requires CopiesVerified(contents, s.dir, PlanOf(job), |PlanOf(job)|, digest)
    ensures TrustedOption(LocaliseOption(s, file), contents, digest)
  {
    if file.Some? {
      var plan := PlanOf(job);
      var i :| 0 <= i < |plan| && plan[i].file == file.value;
      LocalisedIsTrusted(s, plan, i, contents, digest);
    }
  }

  /** With distinct names and sources, everything a staged run goes on to read would pass
      its digest again. */
  lemma StagedAreTrusted(job: Job, s: Staged, contents: map<string, seq<u8>>, digest: Digest)
    requires Covers(s, PlanOf(job))
    requires DistinctRels(PlanOf(job)) && DistinctSources(PlanOf(job))
    requires CopiesVerified(contents, s.dir, PlanOf(job), |PlanOf(job)|, digest)
    ensures AllTrusted(job, Localised(s, Published(job)), contents, digest)
  {
    var im := Published(job);
    var extras := Extras(im.build.profiles, job.selected);
    EverythingPlanned(Request(im.uboot, im.bootMenu, im.recovery, im.build, extras));
    MinimalLocalised(s, im.build.profiles);
    ExtrasLocalised(s, im.build.profiles, job.selected);
    hide Extras, StagePlan, InPlan, Trusted, Covers, Localise, FirstMinimal, CopiesVerified, DistinctRels, DistinctSources;
    TrustedStagedOption(job, s, Some(im.uboot), contents, digest);
    TrustedStagedOption(job, s, im.bootMenu, contents, digest);
    TrustedStagedOption(job, s, im.recovery, contents, digest);
    TrustedStagedOption(job, s, im.build.home, contents, digest);
    TrustedStagedOption(job, s, MinimalFull(im.build), contents, digest);
    forall i | 0 <= i < |extras|
      ensures TrustedOption(LocaliseProfiles(s, extras)[i].incremental, contents, digest)
    {
      TrustedStagedOption(job, s, extras[i].incremental, contents, digest);
    }
  }

  lemma PublishedAreAllowed(job: Job)
    requires job.mode.Stream?
    ensures AllAllowed(job, Published(job))
  {
    var im := Published(job);
    EverythingPlanned(Request(im.uboot, im.bootMenu, im.recovery, im.build, Extras(im.build.profiles, job.selected)));
    hide Extras, StagePlan, InPlan, FirstMinimal;
  }

  // --- what a step may add to the trace -----------------------------------------------

  function Erased(trace: seq<Event>): seq<Destruction> {
    if trace == [] then []
    else
      var here := if trace[|trace| - 1].Destroyed? then [trace[|trace| - 1].target] else [];
      Erased(trace[..|trace| - 1]) + here
  }

  ghost predicate SwitchTo(job: Job, id: u8) {
    job.device.ufs && job.device.bootLu.Some? && id == job.device.bootLu.value.id != job.device.bootLu.value.believed
  }

  ghost predicate May(job: Job, e: Event) {
    match e
    case Bar(_) => true
    case Began(_) => true
    case Checked(_, _) => false
    case ReadFrom(file) => !job.dryRun && Allowed(job, file)
    case Destroyed(_) => !job.dryRun
    case Wrote(_, _) => !job.dryRun
    case Switched(id) => !job.dryRun && SwitchTo(job, id)
  }

  /** A switch comes straight after the write of the LU it switches to, found good. */
  ghost predicate VouchedAt(trace: seq<Event>, k: nat)
    requires k < |trace|
  {
    trace[k].Switched? ==>
      k > 0 && trace[k - 1].Wrote? && trace[k - 1].what == BootLuWrite(trace[k].id)
      && trace[k - 1].verdict != Mismatched
  }

  ghost predicate WellWritten(job: Job, e: Event) {
    job.mode.VerifyFirst? && e.Wrote? ==> e.verdict != Mismatched
  }

  ghost predicate IsSpare(job: Job, what: Destruction) {
    what.BootLuWrite? && SwitchTo(job, what.id)
  }

  /** Once the spare boot LU has been overwritten its write is judged, and a write of it
      not found wrong is directly followed by the switch to it. */
  ghost predicate SettledAt(job: Job, trace: seq<Event>, k: nat)
    requires k < |trace|
  {
    match trace[k]
    case Destroyed(target) =>
      IsSpare(job, target) ==> exists j :: k < j < |trace| && trace[j].Wrote? && trace[j].what == target
    case Wrote(what, verdict) =>
      IsSpare(job, what) && verdict != Mismatched ==> k + 1 < |trace| && trace[k + 1] == Switched(what.id)
    case _ => true
  }

  ghost predicate Settled(job: Job, a: seq<Event>, b: seq<Event>) {
    forall k :: |a| <= k < |b| ==> SettledAt(job, b, k)
  }

  /** What a stretch of a run may emit, and, when it succeeds, what it has destroyed and
      that no write of a verified run was found wrong. */
  ghost predicate Emits(job: Job, a: seq<Event>, b: seq<Event>, ok: bool, gone: seq<Destruction>) {
    && a <= b
    && (forall k :: |a| <= k < |b| ==> May(job, b[k]) && VouchedAt(b, k) && (ok ==> WellWritten(job, b[k])))
    && (ok ==> Erased(b) == Erased(a) + if job.dryRun then [] else gone)
  }

  /** One stretch of a run; one that succeeds leaves no switch undone. */
  ghost predicate Stretch(job: Job, a: seq<Event>, b: seq<Event>, ok: bool, gone: seq<Destruction>) {
    Emits(job, a, b, ok, gone) && (ok ==> Settled(job, a, b))
  }

  lemma EmitsThen(job: Job, a: seq<Event>, b: seq<Event>, c: seq<Event>, ok: bool, first: seq<Destruction>, second: seq<Destruction>)
    requires Emits(job, a, b, true, first) && Emits(job, b, c, ok, second)
    ensures Emits(job, a, c, ok, first + second)
  {
    hide May, Erased;
    forall k | |a| <= k < |c|
      ensures May(job, c[k]) && VouchedAt(c, k) && (ok ==> WellWritten(job, c[k]))
    {
      if k < |b| {
        assert c[k] == b[k] && (k > 0 ==> c[k - 1] == b[k - 1]);
        assert VouchedAt(b, k);
      }
    }
    if ok && !job.dryRun {
      assert Erased(a) + first + second == Erased(a) + (first + second);
    }
  }

  lemma SettledThen(job: Job, a: seq<Event>, b: seq<Event>, c: seq<Event>)
    requires a <= b <= c && Settled(job, a, b) && Settled(job, b, c)
    ensures Settled(job, a, c)
  {
    hide IsSpare;
    forall k | |a| <= k < |c|
      ensures SettledAt(job, c, k)
    {
      if k < |b| {
        assert SettledAt(job, b, k) && c[k] == b[k];
        assert forall j :: k < j < |b| ==> c[j] == b[j];
      }
    }
  }

  lemma Then(job: Job, a: seq<Event>, b: seq<Event>, c: seq<Event>, ok: bool, first: seq<Destruction>, second: seq<Destruction>)
    requires Stretch(job, a, b, true, first) && Stretch(job, b, c, ok, second)
    ensures Stretch(job, a, c, ok, first + second)
  {
    EmitsThen(job, a, b, c, ok, first, second);
    if ok {
      SettledThen(job, a, b, c);
    }
    hide May, Erased, Settled;
  }

  lemma Failed(job: Job, a: seq<Event>, b: seq<Event>, gone: seq<Destruction>, other: seq<Destruction>)
    requires Emits(job, a, b, true, gone)
    ensures Stretch(job, a, b, false, other)
  {
    hide May, Erased;
  }

  lemma Nothing(job: Job, a: seq<Event>)
    ensures Stretch(job, a, a, true, [])
  {
  }

  lemma DryGone(job: Job, a: seq<Event>, b: seq<Event>, gone: seq<Destruction>, other: seq<Destruction>)
    requires job.dryRun && Stretch(job, a, b, true, gone)
    ensures Stretch(job, a, b, true, other)
  {
    hide May, Erased, Settled;
  }

  lemma {:induction false} QuietErasesNothing(a: seq<Event>, b: seq<Event>)
    requires a <= b && forall k :: |a| <= k < |b| ==> !b[k].Destroyed?
    ensures Erased(b) == Erased(a)
    decreases |b|
  {
    if |b| > |a| {
      QuietErasesNothing(a, b[..|b| - 1]);
    } else {
      assert a == b;
    }
  }

  lemma Quietly(job: Job, a: seq<Event>, b: seq<Event>)
    requires a <= b && forall k :: |a| <= k < |b| ==> b[k].Bar? || b[k].Began?
    ensures Stretch(job, a, b, true, [])
  {
    QuietErasesNothing(a, b);
    hide Erased;
  }

  lemma Noted(job: Job, a: seq<Event>, e: Event)
    requires May(job, e) && !e.Switched?
    ensures Stretch(job, a, a + [e], false, [])
    ensures WellWritten(job, e) ==> Emits(job, a, a + [e], true, if e.Destroyed? then [e.target] else [])
    ensures !e.Wrote? && (e.Destroyed? ==> !IsSpare(job, e.target)) ==> Settled(job, a, a + [e])
  {
    assert (a + [e])[..|a|] == a;
    hide Allowed;
  }

  lemma Switches(job: Job, a: seq<Event>, id: u8)
    requires !job.dryRun && SwitchTo(job, id)
    requires a != [] && a[|a| - 1].Wrote? && a[|a| - 1].what == BootLuWrite(id) && a[|a| - 1].verdict != Mismatched
    ensures Emits(job, a, a + [Switched(id)], true, [])
  {
    assert (a + [Switched(id)])[..|a|] == a;
    hide SwitchTo;
  }

  /** A stretch that puts one source onto the target: nothing else is destroyed, and the
      judged write ends it. */
  ghost predicate Lands(a: seq<Event>, b: seq<Event>, what: Destruction) {
    && a < b && b[|b| - 1].Wrote? && b[|b| - 1].what == what
    && forall k :: |a| <= k < |b| - 1 ==> !b[k].Wrote? && (b[k].Destroyed? ==> b[k].target == what)
  }

  lemma JustLanded(a: seq<Event>, d: seq<Event>, file: PackFile, what: Destruction, verdict: Verdict)
    requires a + [ReadFrom(file)] + [Destroyed(what)] <= d
    requires forall k :: |a| + 2 <= k < |d| ==> d[k].Bar? || d[k].Began?
    ensures Lands(a, d + [Wrote(what, verdict)], what)
  {
    assert d[|a|] == (a + [ReadFrom(file)] + [Destroyed(what)])[|a|];
    assert d[|a| + 1] == (a + [ReadFrom(file)] + [Destroyed(what)])[|a| + 1];
  }

  lemma LandsAfter(a: seq<Event>, b: seq<Event>, c: seq<Event>, what: Destruction)
    requires a <= b && Lands(b, c, what) && forall k :: |a| <= k < |b| ==> b[k].Bar? || b[k].Began?
    ensures Lands(a, c, what)
  {
    assert forall k :: |a| <= k < |b| ==> c[k] == b[k];
  }

  /** Nothing is left to switch to: another target, or a write found wrong. */
  lemma SettledElsewhere(job: Job, a: seq<Event>, b: seq<Event>, what: Destruction)
    requires Lands(a, b, what) && (IsSpare(job, what) ==> b[|b| - 1].verdict == Mismatched)
    ensures Settled(job, a, b)
  {
    hide SwitchTo;
  }

  lemma SettledBySwitch(job: Job, a: seq<Event>, b: seq<Event>, id: u8)
    requires Lands(a, b, BootLuWrite(id))
    ensures Settled(job, a, b + [Switched(id)])
  {
    hide SwitchTo;
    var c := b + [Switched(id)];
    assert c[|b| - 1] == b[|b| - 1] && forall k :: 0 <= k < |b| ==> c[k] == b[k];
  }

  // --- single steps ---------------------------------------------------------------------

  /** A command: only a real run can see it fail. */
  method Exec(job: Job, files: Files) returns (ok: bool)
    modifies files`disturbed
    ensures job.dryRun ==> ok
    ensures files.disturbed == (old(files.disturbed) || !ok)
  {
    ok := true;
    if !job.dryRun {
      ok := files.Try();
    }
  }

  method Begin(job: Job, weight: nat, ctrl: Ctrl, ticker: Ticker)
    requires ticker.Ok(ctrl) && ticker.done + ticker.current + weight <= ticker.total
    modifies ctrl, ticker
    ensures ticker.AtStart(ctrl) && ticker.done + ticker.current == old(ticker.done + ticker.current) + weight
    ensures Stretch(job, old(ctrl.trace), ctrl.trace, true, [])
    ensures old(ctrl.trace) <= ctrl.trace
    ensures forall k :: |old(ctrl.trace)| <= k < |ctrl.trace| ==> ctrl.trace[k].Bar? || ctrl.trace[k].Began?
  {
    hide Share, Begun, BarsRise, BarsUnder, Stretch;
    ticker.Begin(ctrl, weight);
    Quietly(job, old(ctrl.trace), ctrl.trace);
  }

  /** A step that is one destructive command. */
  method Destroy(job: Job, what: Destruction, weight: nat, files: Files, ctrl: Ctrl, ticker: Ticker) returns (r: Result<(), Fault>)
    requires ticker.Ok(ctrl) && ticker.done + ticker.current + weight <= ticker.total && !what.BootLuWrite?
    modifies ctrl, ticker, files`disturbed
    ensures ticker.Ok(ctrl) && ticker.done + ticker.current == old(ticker.done + ticker.current) + weight
    ensures Stretch(job, old(ctrl.trace), ctrl.trace, r.Success?, [what])
    ensures Blames(job, r, true)
    ensures r.Failure? ==> files.disturbed
    ensures r.Success? ==> files.disturbed == old(files.disturbed)
    ensures old(files.disturbed) ==> files.disturbed
  {
    hide Share, Begun, BarsRise, BarsUnder, Emits, Settled;
    Begin(job, weight, ctrl, ticker);
    if job.dryRun {
      DryGone(job, old(ctrl.trace), ctrl.trace, [], [what]);
      return Success(());
    }
    ghost var a := ctrl.trace;
    Noted(job, a, Destroyed(what));
    ticker.Note(ctrl, Destroyed(what));
    Then(job, old(ctrl.trace), a, ctrl.trace, true, [], [what]);
    assert [] + [what] == [what];
    var ok := Exec(job, files);
    if !ok {
      Failed(job, old(ctrl.trace), ctrl.trace, [what], [what]);
      return Failure(CommandFailed);
    }
    return Success(());
  }

  /** `write_source_to_offset` and `receive_pack`: a source goes straight onto the
      target while its digest is taken, so one that breaks midway has already left bytes
      there. The result says whether they can be trusted. */
  method Land(job: Job, file: PackFile, what: Destruction, files: Files, digest: Digest, ctrl: Ctrl, ticker: Ticker)
    returns (r: Result<bool, Fault>)
    requires ticker.AtStart(ctrl) && (!job.dryRun ==> Allowed(job, file))
    modifies ctrl, files`served, files`disturbed
    ensures ticker.Ok(ctrl)
    ensures Emits(job, old(ctrl.trace), ctrl.trace, r.Success?, [what])
    ensures r.Success? && job.dryRun ==> r.value && ctrl.trace == old(ctrl.trace)
    ensures r.Success? && !job.dryRun ==>
              && Lands(old(ctrl.trace), ctrl.trace, what)
              && (r.value <==> ctrl.trace[|ctrl.trace| - 1].verdict != Mismatched)
              && (r.value <==> !FoundWrong(digest(files.served), file.sha256))
    ensures Blames(job, r, Trusted(file, files.contents, digest))
    ensures r.Success? && !job.dryRun && (file.source.Local? || !IsUrl(file.location)) ==>
              file.location in files.contents && files.served == files.contents[file.location]
    ensures r.Failure? ==> files.disturbed || r.error == BadDigest
    ensures r.Success? ==> files.disturbed == old(files.disturbed)
    ensures old(files.disturbed) ==> files.disturbed
  {
    hide Share, Begun, BarsRise, BarsUnder, Emits, Settled, Lands, IsSpare, Verify, Allowed, IsUrl;
    ghost var a := ctrl.trace;
    Nothing(job, a);
    if job.dryRun {
      DryGone(job, a, a, [], [what]);
      return Success(true);
    }
    var present := Exec(job, files);
    if !present {
      Failed(job, a, a, [], [what]);
      return Failure(CommandFailed);
    }
    Noted(job, a, ReadFrom(file));
    ticker.Note(ctrl, ReadFrom(file));
    ghost var b := ctrl.trace;
    var readable := Exec(job, files);
    if !readable {
      Failed(job, a, b, [], [what]);
      return Failure(SourceFailed);
    }
    Noted(job, b, Destroyed(what));
    ticker.Note(ctrl, Destroyed(what));
    ghost var c := ctrl.trace;
    EmitsThen(job, a, b, c, true, [], [what]);
    var chunks: seq<nat> :| true;
    var _ := ticker.Transfer(ctrl, file.size, chunks);
    ghost var d := ctrl.trace;
    Quietly(job, c, d);
    EmitsThen(job, a, c, d, true, [] + [what], []);
    assert [] + [what] + [] == [what];
    var bytes := files.Fetch(file);
    var ok := Exec(job, files);
    if bytes.None? || !ok {
      Failed(job, a, d, [what], [what]);
      return Failure(SourceFailed);
    }
    var verdict := Verify(digest(bytes.value), file.sha256);
    Noted(job, d, Wrote(what, verdict));
    JustLanded(a, d, file, what, verdict);
    ticker.Note(ctrl, Wrote(what, verdict));
    if verdict == Mismatched && job.mode.VerifyFirst? {
      EmitsThen(job, a, d, ctrl.trace, false, [what], []);
      assert [what] + [] == [what];
      return Failure(BadDigest);
    }
    EmitsThen(job, a, d, ctrl.trace, true, [what], []);
    assert [what] + [] == [what];
    return Success(verdict != Mismatched);
  }

  /** A transfer step: the boot menu, the recovery system, a pack. */
  method Transfer(job: Job, file: PackFile, what: Destruction, files: Files, digest: Digest, ctrl: Ctrl, ticker: Ticker)
    returns (r: Result<bool, Fault>)
    requires ticker.Ok(ctrl) && ticker.done + ticker.current + TransferWeight(file.size) <= ticker.total
    requires !job.dryRun ==> Allowed(job, file)
    modifies ctrl, ticker, files`served, files`disturbed
    ensures ticker.Ok(ctrl) && ticker.done + ticker.current == old(ticker.done + ticker.current) + TransferWeight(file.size)
    ensures Emits(job, old(ctrl.trace), ctrl.trace, r.Success?, [what])
    ensures r.Success? && !what.BootLuWrite? ==> Stretch(job, old(ctrl.trace), ctrl.trace, true, [what])
    ensures r.Success? && job.dryRun ==> r.value && Settled(job, old(ctrl.trace), ctrl.trace)
    ensures r.Success? && !job.dryRun ==>
              && Lands(old(ctrl.trace), ctrl.trace, what)
              && (r.value <==> ctrl.trace[|ctrl.trace| - 1].verdict != Mismatched)
              && (r.value <==> !FoundWrong(digest(files.served), file.sha256))
    ensures Blames(job, r, Trusted(file, files.contents, digest))
    ensures r.Success? && !job.dryRun && (file.source.Local? || !IsUrl(file.location)) ==>
              file.location in files.contents && files.served == files.contents[file.location]
    ensures r.Failure? ==> files.disturbed || r.error == BadDigest
    ensures r.Success? ==> files.disturbed == old(files.disturbed)
    ensures old(files.disturbed) ==> files.disturbed
  {
    hide Emits, Settled, Lands, SwitchTo, Ticker.Ok, Ticker.AtStart, TransferWeight, Allowed, IsUrl, Verify, Trusted;
    Begin(job, TransferWeight(file.size), ctrl, ticker);
    ghost var a := ctrl.trace;
    r := Land(job, file, what, files, digest, ctrl, ticker);
    EmitsThen(job, old(ctrl.trace), a, ctrl.trace, r.Success?, [], [what]);
    assert [] + [what] == [what];
    if r.Success? && !job.dryRun {
      LandsAfter(old(ctrl.trace), a, ctrl.trace, what);
      if !what.BootLuWrite? {
        SettledElsewhere(job, old(ctrl.trace), ctrl.trace, what);
      }
    }
  }

  /** `install_uboot`, with its step: the only place the boot flag moves. An attribute
      write that fails may have moved it all the same. */
  method InstallUboot(job: Job, uboot: PackFile, files: Files, digest: Digest, ctrl: Ctrl, ticker: Ticker)
    returns (r: Result<(), Fault>)
    requires ticker.Ok(ctrl) && ticker.done + ticker.current + TransferWeight(uboot.size) <= ticker.total
    requires !job.dryRun ==> Allowed(job, uboot)
    modifies ctrl, ticker, files`served, files`disturbed
    ensures ticker.Ok(ctrl) && ticker.done + ticker.current == old(ticker.done + ticker.current) + TransferWeight(uboot.size)
    ensures Stretch(job, old(ctrl.trace), ctrl.trace, r.Success?, LoaderErased(job))
    ensures r.Success? && !job.dryRun && job.device.bootLu.Some? && SwitchTo(job, job.device.bootLu.value.id) ==>
              && ctrl.trace != []
              && (ctrl.trace[|ctrl.trace| - 1] == Switched(job.device.bootLu.value.id)
                  <==> !FoundWrong(digest(files.served), uboot.sha256))
    ensures Blames(job, r, Trusted(uboot, files.contents, digest))
    ensures r.Failure? ==> files.disturbed || r.error == BadDigest
    ensures r.Success? ==> files.disturbed == old(files.disturbed)
    ensures old(files.disturbed) ==> files.disturbed
  {
    hide Emits, Settled, TransferWeight, Allowed, Trusted, Share, Begun, BarsRise, BarsUnder;
    if job.device.ufs && job.device.bootLu.None? {
      Begin(job, TransferWeight(uboot.size), ctrl, ticker);
      return Success(());
    }
    var what := if job.device.ufs then BootLuWrite(job.device.bootLu.value.id) else LoaderWrite;
    var landed := Transfer(job, uboot, what, files, digest, ctrl, ticker);
    if landed.Failure? {
      return Failure(landed.error);
    }
    ghost var a := ctrl.trace;
    if !job.device.ufs || job.device.bootLu.value.id == job.device.bootLu.value.believed || !landed.value || job.dryRun {
      if !job.dryRun {
        SettledElsewhere(job, old(ctrl.trace), a, what);
      }
      return Success(());
    }
    var id := job.device.bootLu.value.id;
    Switches(job, a, id);
    EmitsThen(job, old(ctrl.trace), a, a + [Switched(id)], true, [what], []);
    assert [what] + [] == [what];
    var asked := Exec(job, files);
    if !asked {
      var reached: bool := *;
      if reached {
        ticker.Note(ctrl, Switched(id));
      }
      Failed(job, old(ctrl.trace), a, [what], [what]);
      Failed(job, old(ctrl.trace), a + [Switched(id)], [what], [what]);
      return Failure(CommandFailed);
    }
    ticker.Note(ctrl, Switched(id));
    SettledBySwitch(job, old(ctrl.trace), a, id);
    var readBack := Exec(job, files);
    if !readBack {
      Failed(job, old(ctrl.trace), ctrl.trace, [what], [what]);
      return Failure(CommandFailed);
    }
    return Success(());
  }

  /** An image with nowhere of its own to go is skipped, step and all. */
  method TransferOption(job: Job, file: Option<PackFile>, what: Destruction, files: Files, digest: Digest, ctrl: Ctrl, ticker: Ticker)
    returns (r: Result<(), Fault>)
    requires ticker.Ok(ctrl) && ticker.done + ticker.current + OptionWeight(file) <= ticker.total
    requires (!job.dryRun ==> AllowedOption(job, file)) && !what.BootLuWrite?
    modifies ctrl, ticker, files`served, files`disturbed
    ensures ticker.Ok(ctrl) && ticker.done + ticker.current == old(ticker.done + ticker.current) + OptionWeight(file)
    ensures Stretch(job, old(ctrl.trace), ctrl.trace, r.Success?, OptionErased(file, what))
    ensures Blames(job, r, TrustedOption(file, files.contents, digest))
    ensures r.Failure? ==> files.disturbed || r.error == BadDigest
    ensures r.Success? ==> files.disturbed == old(files.disturbed)
    ensures old(files.disturbed) ==> files.disturbed
  {
    hide Emits, Settled, Ticker.Ok, TransferWeight, Allowed, Trusted;
    match file
    case None =>
      Nothing(job, ctrl.trace);
      return Success(());
    case Some(f) =>
      var landed := Transfer(job, f, what, files, digest, ctrl, ticker);
      return if landed.Success? then Success(()) else Failure(landed.error);
  }

  /** A step that is one command inside the mounted target. */
  method Command(job: Job, weight: nat, files: Files, ctrl: Ctrl, ticker: Ticker) returns (r: Result<(), Fault>)
    requires ticker.Ok(ctrl) && ticker.done + ticker.current + weight <= ticker.total
    modifies ctrl, ticker, files`disturbed
    ensures ticker.Ok(ctrl) && ticker.done + ticker.current == old(ticker.done + ticker.current) + weight
    ensures Stretch(job, old(ctrl.trace), ctrl.trace, r.Success?, [])
    ensures Blames(job, r, true)
    ensures r.Failure? ==> files.disturbed
    ensures r.Success? ==> files.disturbed == old(files.disturbed)
    ensures old(files.disturbed) ==> files.disturbed
  {
    Begin(job, weight, ctrl, ticker);
    hide Emits, Settled, Ticker.Ok;
    var ok := Exec(job, files);
    if !ok {
      Failed(job, old(ctrl.trace), ctrl.trace, [], []);
      return Failure(CommandFailed);
    }
    return Success(());
  }

  /** `deploy_profile`: receive, snapshot, kernel. */
  method DeployProfile(job: Job, name: string, pack: PackFile, files: Files, digest: Digest, ctrl: Ctrl, ticker: Ticker)
    returns (r: Result<(), Fault>)
    requires ticker.Ok(ctrl) && ticker.done + ticker.current + DeployWeight(Some(pack)) <= ticker.total
    requires !job.dryRun ==> Allowed(job, pack)
    modifies ctrl, ticker, files`served, files`disturbed
    ensures ticker.Ok(ctrl)
    ensures ticker.done + ticker.current <= old(ticker.done + ticker.current) + DeployWeight(Some(pack))
    ensures r.Success? ==> ticker.done + ticker.current == old(ticker.done + ticker.current) + DeployWeight(Some(pack))
    ensures Stretch(job, old(ctrl.trace), ctrl.trace, r.Success?, [PackReceive(name)])
    ensures Blames(job, r, Trusted(pack, files.contents, digest))
    ensures r.Failure? ==> files.disturbed || r.error == BadDigest
    ensures r.Success? ==> files.disturbed == old(files.disturbed)
    ensures old(files.disturbed) ==> files.disturbed
  {
    hide Emits, Settled, Ticker.Ok, TransferWeight, Allowed, Trusted;
    var what := PackReceive(name);
    assert [what] + [] == [what];
    var landed := Transfer(job, pack, what, files, digest, ctrl, ticker);
    if landed.Failure? {
      return Failure(landed.error);
    }
    ghost var a := ctrl.trace;
    r := Command(job, SNAPSHOT_WEIGHT, files, ctrl, ticker);
    Then(job, old(ctrl.trace), a, ctrl.trace, r.Success?, [what], []);
    if r.Failure? {
      return;
    }
    ghost var b := ctrl.trace;
    r := Command(job, KERNEL_WEIGHT, files, ctrl, ticker);
    Then(job, old(ctrl.trace), b, ctrl.trace, r.Success?, [what], []);
  }

  method DeployOption(job: Job, name: string, pack: Option<PackFile>, missing: Fault, files: Files, digest: Digest, ctrl: Ctrl, ticker: Ticker)
    returns (r: Result<(), Fault>)
    requires ticker.Ok(ctrl) && ticker.done + ticker.current + DeployWeight(pack) <= ticker.total
    requires !job.dryRun ==> AllowedOption(job, pack)
    modifies ctrl, ticker, files`served, files`disturbed
    ensures ticker.Ok(ctrl)
    ensures ticker.done + ticker.current <= old(ticker.done + ticker.current) + DeployWeight(pack)
    ensures r.Success? ==> pack.Some? && ticker.done + ticker.current == old(ticker.done + ticker.current) + DeployWeight(pack)
    ensures Stretch(job, old(ctrl.trace), ctrl.trace, r.Success?, [PackReceive(name)])
    ensures missing != BadDigest ==> Blames(job, r, TrustedOption(pack, files.contents, digest))
    ensures r.Failure? ==> files.disturbed || r.error == BadDigest || (r.error == missing && pack.None?)
    ensures r.Success? ==> files.disturbed == old(files.disturbed)
    ensures old(files.disturbed) ==> files.disturbed
  {
    hide Emits, Settled, Ticker.Ok, DeployWeight, Allowed, Trusted;
    if pack.None? {
      Nothing(job, ctrl.trace);
      Failed(job, ctrl.trace, ctrl.trace, [], [PackReceive(name)]);
      return Failure(missing);
    }
    r := DeployProfile(job, name, pack.value, files, digest, ctrl, ticker);
  }

  lemma ReceivesMore(extras: seq<Profile>, i: nat)
    requires i < |extras|
    ensures Receives(extras[..i]) + [PackReceive(extras[i].name)] == Receives(extras[..i + 1])
  {
  }

  /** Some extra profile has no pack to put on top of Minimal. */
  ghost predicate LacksIncremental(extras: seq<Profile>) {
    exists i :: 0 <= i < |extras| && extras[i].incremental.None?
  }

  /** A pack the build would need is not in it. */
  ghost predicate LacksPack(job: Job, im: Images, e: Fault) {
    || (e == NoFullPack && MinimalFull(im.build).None?)
    || (e == NoIncremental && LacksIncremental(Extras(im.build.profiles, job.selected)))
  }

  /** The extra profiles, in build order, on top of Minimal. */
  method DeployExtras(job: Job, extras: seq<Profile>, files: Files, digest: Digest, ctrl: Ctrl, ticker: Ticker)
    returns (r: Result<(), Fault>)
    requires ticker.Ok(ctrl) && ticker.done + ticker.current + ExtrasWeight(extras) <= ticker.total
    requires !job.dryRun ==> forall i :: 0 <= i < |extras| ==> AllowedOption(job, extras[i].incremental)
    modifies ctrl, ticker, files`served, files`disturbed
    ensures ticker.Ok(ctrl)
    ensures ticker.done + ticker.current <= old(ticker.done + ticker.current) + ExtrasWeight(extras)
    ensures r.Success? ==> ticker.done + ticker.current == old(ticker.done + ticker.current) + ExtrasWeight(extras)
    ensures Stretch(job, old(ctrl.trace), ctrl.trace, r.Success?, Receives(extras))
    ensures Blames(job, r, ExtrasTrusted(extras, files.contents, digest))
    ensures r.Failure? ==> files.disturbed || r.error == BadDigest || (r.error == NoIncremental && LacksIncremental(extras))
    ensures r.Success? ==> files.disturbed == old(files.disturbed)
    ensures old(files.disturbed) ==> files.disturbed
  {
    Nothing(job, ctrl.trace);
    assert ExtrasWeight([]) == 0;
    hide Stretch, Ticker.Ok, DeployWeight, AllowedOption, TrustedOption, ExtrasWeight;
    assert extras[..0] == [] && extras[..|extras|] == extras;
    for i := 0 to |extras|
      invariant ticker.Ok(ctrl)
      invariant ticker.done + ticker.current == old(ticker.done + ticker.current) + ExtrasWeight(extras[..i])
      invariant Stretch(job, old(ctrl.trace), ctrl.trace, true, Receives(extras[..i]))
      invariant files.disturbed == old(files.disturbed)
    {
      ExtrasWeightGrows(extras, i);
      ghost var a := ctrl.trace;
      r := DeployOption(job, extras[i].name, extras[i].incremental, NoIncremental, files, digest, ctrl, ticker);
      Then(job, old(ctrl.trace), a, ctrl.trace, r.Success?, Receives(extras[..i]), [PackReceive(extras[i].name)]);
      if r.Failure? {
        Unfinished(job, old(ctrl.trace), ctrl.trace, Receives(extras[..i]) + [PackReceive(extras[i].name)], Receives(extras));
        return;
      }
      ReceivesMore(extras, i);
    }
    r := Success(());
  }

  lemma Unfinished(job: Job, a: seq<Event>, b: seq<Event>, gone: seq<Destruction>, other: seq<Destruction>)
    requires Stretch(job, a, b, false, gone)
    ensures Stretch(job, a, b, false, other)
  {
    hide May, Erased;
  }

  /** The metadata step. A failure is only reported; the result says whether the
      partition was written. */
  method Record(job: Job, files: Files, ctrl: Ctrl, ticker: Ticker) returns (written: bool)
    requires ticker.Ok(ctrl) && ticker.done + ticker.current + METADATA_SIZE <= ticker.total
    modifies ctrl, ticker, files`disturbed
    ensures ticker.Ok(ctrl) && ticker.done + ticker.current == old(ticker.done + ticker.current) + METADATA_SIZE
    ensures Stretch(job, old(ctrl.trace), ctrl.trace, true, if written then [MetadataWrite] else [])
    ensures !written ==> files.disturbed || job.dryRun
    ensures written || job.dryRun ==> files.disturbed == old(files.disturbed)
    ensures old(files.disturbed) ==> files.disturbed
  {
    hide Emits, Settled, Share, Begun, BarsRise, BarsUnder;
    Begin(job, METADATA_SIZE, ctrl, ticker);
    written := Exec(job, files);
    written := written && !job.dryRun;
    if written {
      ghost var a := ctrl.trace;
      Noted(job, a, Destroyed(MetadataWrite));
      ticker.Note(ctrl, Destroyed(MetadataWrite));
      Then(job, old(ctrl.trace), a, ctrl.trace, true, [], [MetadataWrite]);
      assert [] + [MetadataWrite] == [MetadataWrite];
    }
  }

  // --- the guards ---------------------------------------------------------------------------

  /** A published size that is known must fit a capacity that is known. */
  predicate Fits(file: PackFile, offset: nat, capacity: Option<nat>) {
    file.size == 0 || capacity.None? || offset + file.size <= capacity.value
  }

  predicate OptionFits(file: Option<PackFile>, capacity: Option<nat>) {
    file.Some? ==> Fits(file.value, 0, capacity)
  }

  /** Every image written outside the filesystem has room where it goes, and a UFS
      board has a boot LU for its bootloader. */
  predicate RoomForAll(job: Job) {
    && (job.device.ufs ==> job.device.bootLu.Some? && Fits(job.uboot, LOADER_START, job.device.bootLuSize))
    && OptionFits(Published(job).bootMenu, Some(LOADER_CAPACITY))
    && OptionFits(RecoveryOf(job, Published(job)), job.device.recoveryLuSize)
  }

  predicate OffTarget(job: Job) {
    forall i, j :: 0 <= i < |PlanOf(job)| && 0 <= j < |job.device.mounts| && !IsUrl(PlanOf(job)[i].file.location) ==>
      !Under(PlanOf(job)[i].file.location, job.device.mounts[j])
  }

  /** What a run demands of its target; a dry run is let off what only a write needs. */
  predicate Cleared(job: Job) {
    job.device.bootRomCapable && OffTarget(job) && (job.dryRun || (!job.device.inUse && RoomForAll(job)))
  }

  method Guard(job: Job) returns (r: Result<(), Fault>)
    ensures r.Success? <==> Cleared(job)
    ensures r.Failure? ==> r.error == Refused || r.error == OnTarget
  {
    hide Under, IsUrl, StagePlan, Extras;
    if !job.device.bootRomCapable || (job.device.inUse && !job.dryRun) {
      return Failure(Refused);
    }
    if job.device.ufs && !job.dryRun {
      if job.device.bootLu.None? {
        return Failure(Refused);
      }
      if job.uboot.size > 0 && job.device.bootLuSize.Some? && job.device.bootLuSize.value < LOADER_START + job.uboot.size {
        return Failure(Refused);
      }
    }
    var menu := Published(job).bootMenu;
    if menu.Some? && menu.value.size > LOADER_CAPACITY && !job.dryRun {
      return Failure(Refused);
    }
    var recovery := RecoveryOf(job, Published(job));
    if recovery.Some? && recovery.value.size > 0 && job.device.recoveryLuSize.Some?
       && recovery.value.size > job.device.recoveryLuSize.value && !job.dryRun {
      return Failure(Refused);
    }
    var onTarget := CheckNotOnMounts(PlanOf(job), job.device.mounts);
    if onTarget.Failure? {
      return Failure(OnTarget);
    }
    return Success(());
  }

  // --- the run ----------------------------------------------------------------------------------

  /** The steps inside the mounted target: the /home seed, Minimal, the extras, the
      metadata. */
  method DeployAll(job: Job, im: Images, files: Files, digest: Digest, ctrl: Ctrl, ticker: Ticker)
    returns (r: Result<(), Fault>, recorded: bool)
    requires ticker.Ok(ctrl) && ticker.done + ticker.current + DeployAllWeight(job, im) <= ticker.total
    requires !job.dryRun ==> AllAllowed(job, im)
    requires FirstMinimal(im.build.profiles).Some?
    modifies ctrl, ticker, files`served, files`disturbed
    ensures ticker.Ok(ctrl)
    ensures ticker.done + ticker.current <= old(ticker.done + ticker.current) + DeployAllWeight(job, im)
    ensures r.Success? ==> ticker.done + ticker.current == old(ticker.done + ticker.current) + DeployAllWeight(job, im)
    ensures Stretch(job, old(ctrl.trace), ctrl.trace, r.Success?, DeployErased(job, im) + if recorded then [MetadataWrite] else [])
    ensures Blames(job, r, DeployTrusted(job, im, files.contents, digest))
    ensures r.Failure? ==> files.disturbed || r.error == BadDigest || LacksPack(job, im, r.error)
    ensures r.Success? && !recorded ==> files.disturbed || job.dryRun
    ensures r.Success? && (recorded || job.dryRun) ==> files.disturbed == old(files.disturbed)
    ensures old(files.disturbed) ==> files.disturbed
  {
    hide Emits, Settled, Ticker.Ok, DeployWeight, OptionWeight, Allowed, TrustedOption, ExtrasTrusted, ExtrasWeight, Receives, Extras;
    recorded := false;
    var home := OptionErased(im.build.home, PackReceive("@home"));
    var extras := Extras(im.build.profiles, job.selected);
    var minimal := FirstMinimal(im.build.profiles).value;
    assert home + MinimalErased(im) + Receives(extras) + [] == home + MinimalErased(im) + Receives(extras);
    r := TransferOption(job, im.build.home, PackReceive("@home"), files, digest, ctrl, ticker);
    if r.Failure? {
      Unfinished(job, old(ctrl.trace), ctrl.trace, home, DeployErased(job, im) + []);
      return;
    }
    var ready := Exec(job, files);
    if !ready {
      Failed(job, old(ctrl.trace), ctrl.trace, home, DeployErased(job, im) + []);
      return Failure(CommandFailed), false;
    }
    ghost var a := ctrl.trace;
    r := DeployOption(job, minimal.name, minimal.full, NoFullPack, files, digest, ctrl, ticker);
    Then(job, old(ctrl.trace), a, ctrl.trace, r.Success?, home, [PackReceive(minimal.name)]);
    if r.Failure? {
      Unfinished(job, old(ctrl.trace), ctrl.trace, home + [PackReceive(minimal.name)], DeployErased(job, im) + []);
      return;
    }
    ghost var b := ctrl.trace;
    r := DeployExtras(job, extras, files, digest, ctrl, ticker);
    Then(job, old(ctrl.trace), b, ctrl.trace, r.Success?, home + MinimalErased(im), Receives(extras));
    if r.Failure? {
      return;
    }
    ghost var c := ctrl.trace;
    recorded := Record(job, files, ctrl, ticker);
    Then(job, old(ctrl.trace), c, ctrl.trace, true, DeployErased(job, im), if recorded then [MetadataWrite] else []);
  }

  /** The destructive part of a run, steps 1 to 6 and the unmount. */
  method WriteTarget(job: Job, im: Images, files: Files, digest: Digest, ctrl: Ctrl, ticker: Ticker)
    returns (r: Result<(), Fault>, recorded: bool)
    requires ticker.Ok(ctrl) && ticker.done + ticker.current + WriteWeight(job, im) <= ticker.total
    requires !job.dryRun ==> AllAllowed(job, im)
    requires FirstMinimal(im.build.profiles).Some?
    modifies ctrl, ticker, files`served, files`disturbed
    ensures ticker.Ok(ctrl)
    ensures ticker.done + ticker.current <= old(ticker.done + ticker.current) + WriteWeight(job, im)
    ensures r.Success? ==> ticker.done + ticker.current == old(ticker.done + ticker.current) + WriteWeight(job, im)
    ensures Stretch(job, old(ctrl.trace), ctrl.trace, r.Success?, ExpectedErased(job, im) + if recorded then [MetadataWrite] else [])
    ensures Blames(job, r, AllTrusted(job, im, files.contents, digest))
    ensures r.Failure? ==> files.disturbed || r.error == BadDigest || LacksPack(job, im, r.error)
    ensures r.Success? && !recorded ==> files.disturbed || job.dryRun
    ensures r.Success? && (recorded || job.dryRun) ==> files.disturbed == old(files.disturbed)
    ensures old(files.disturbed) ==> files.disturbed
  {
    hide Emits, Settled, Ticker.Ok, OptionWeight, TransferWeight, Allowed, Trusted, DeployTrusted, DeployAllWeight, DeployErased, LoaderErased, OptionErased, RecoveryOf;
    recorded := false;
    ghost var t := ctrl.trace;
    var g2, g3 := [Wipe] + [PartitionTable], [Wipe] + [PartitionTable] + LoaderErased(job);
    var g4 := g3 + OptionErased(im.bootMenu, BootMenuWrite);
    var g5 := g4 + OptionErased(RecoveryOf(job, im), RecoveryWrite);
    var all := ExpectedErased(job, im) + [];
    r := Destroy(job, Wipe, DISCARD_WEIGHT, files, ctrl, ticker);
    if r.Failure? {
      Unfinished(job, t, ctrl.trace, [Wipe], all);
      return;
    }
    ghost var a := ctrl.trace;
    r := Destroy(job, PartitionTable, GPT_WEIGHT, files, ctrl, ticker);
    Then(job, t, a, ctrl.trace, r.Success?, [Wipe], [PartitionTable]);
    if r.Failure? {
      Unfinished(job, t, ctrl.trace, g2, all);
      return;
    }
    ghost var b := ctrl.trace;
    r := InstallUboot(job, im.uboot, files, digest, ctrl, ticker);
    Then(job, t, b, ctrl.trace, r.Success?, g2, LoaderErased(job));
    if r.Failure? {
      Unfinished(job, t, ctrl.trace, g3, all);
      return;
    }
    ghost var c := ctrl.trace;
    r := TransferOption(job, im.bootMenu, BootMenuWrite, files, digest, ctrl, ticker);
    Then(job, t, c, ctrl.trace, r.Success?, g3, OptionErased(im.bootMenu, BootMenuWrite));
    if r.Failure? {
      Unfinished(job, t, ctrl.trace, g4, all);
      return;
    }
    ghost var d := ctrl.trace;
    RecoveryAllowed(job, im);
    r := TransferOption(job, RecoveryOf(job, im), RecoveryWrite, files, digest, ctrl, ticker);
    Then(job, t, d, ctrl.trace, r.Success?, g4, OptionErased(RecoveryOf(job, im), RecoveryWrite));
    if r.Failure? {
      Unfinished(job, t, ctrl.trace, g5, all);
      return;
    }
    ghost var e := ctrl.trace;
    r := Destroy(job, MakeFilesystem, MKFS_WEIGHT, files, ctrl, ticker);
    Then(job, t, e, ctrl.trace, r.Success?, g5, [MakeFilesystem]);
    if r.Failure? {
      Unfinished(job, t, ctrl.trace, g5 + [MakeFilesystem], all);
      return;
    }
    ghost var f := ctrl.trace;
    r, recorded := DeployAll(job, im, files, digest, ctrl, ticker);
    ghost var meta := if recorded then [MetadataWrite] else [];
    Then(job, t, f, ctrl.trace, r.Success?, g5 + [MakeFilesystem], DeployErased(job, im) + meta);
    assert g5 + [MakeFilesystem] + (DeployErased(job, im) + meta) == ExpectedErased(job, im) + meta;
    var unmounted := Exec(job, files);
    if r.Success? && !unmounted {
      Failed(job, t, ctrl.trace, ExpectedErased(job, im) + meta, ExpectedErased(job, im) + meta);
      r := Failure(CommandFailed);
    }
  }

  lemma RecoveryAllowed(job: Job, im: Images)
    ensures RecoveryOf(job, im) == None || RecoveryOf(job, im) == im.recovery
    ensures AllAllowed(job, im) ==> AllowedOption(job, RecoveryOf(job, im))
  {
    hide Allowed, Extras, MinimalFull;
  }

  /** Unpacking and staging: everything before the first destructive command. */
  method Prepare(job: Job, files: Files, digest: Digest, ctrl: Ctrl, ticker: Ticker) returns (r: Result<Staged, Fault>)
    requires ticker.Ok(ctrl) && ticker.done + ticker.current == 0 && ticker.total == TotalWeight(job)
    modifies files, ctrl, ticker
    ensures ticker.Ok(ctrl)
    ensures r.Success? ==> ticker.done + ticker.current + WriteWeight(job, Published(job)) == ticker.total
    ensures Adds(old(ctrl.trace), ctrl.trace, Quiet)
    ensures job.dryRun || job.mode.Stream? ==> forall k :: |old(ctrl.trace)| <= k < |ctrl.trace| ==> !ctrl.trace[k].Checked?
    ensures r.Success? ==>
              forall k :: |old(ctrl.trace)| <= k < |ctrl.trace| && ctrl.trace[k].Checked? ==> ctrl.trace[k].verdict != Mismatched
    ensures r.Success? && !job.dryRun && job.mode.VerifyFirst? ==>
              && r.value.dir == job.scratch && Covers(r.value, PlanOf(job)) && AllChecked(ctrl.trace, PlanOf(job))
              && CopiesVerified(files.contents, job.scratch, PlanOf(job), |PlanOf(job)|, digest)
    ensures job.dryRun ==> files.contents == old(files.contents)
    ensures r.Success? ==> forall p :: p in r.value.created ==> StagedOver(job.scratch, PlanOf(job), p)
    ensures OutsideKept(old(files.contents), files.contents, job.scratch)
    ensures job.archive.None? ==>
              && OthersKept(old(files.contents), files.contents, job.scratch, PlanOf(job))
              && (r.Success? ==> forall p :: p in files.contents ==> p in old(files.contents) || p in r.value.created)
              && (r.Failure? && !job.keepCache ==> forall p :: p in files.contents ==> p in old(files.contents))
    ensures r != Failure(BadDigest)
    ensures r.Failure? ==>
              || files.disturbed
              || (!job.dryRun && job.mode.VerifyFirst? && r.error == NotStaged(StagedMismatch) && StagedWrong(ctrl.trace))
    ensures r.Success? ==> files.disturbed == old(files.disturbed)
    ensures old(files.disturbed) ==> files.disturbed
    ensures r.Success? && !job.dryRun && job.archive.Some? ==> files.unpacked
    ensures job.dryRun || job.archive.None? ==> files.unpacked == old(files.unpacked)
  {
    hide Share, Begun, BarsRise, BarsUnder, StagingWeight, WriteWeight, PlanOf, StagedOver, IsUrl, CheckedOk, CopiesVerified, InPlace;
    Untouched(files.contents, job.scratch, PlanOf(job));
    if job.archive.Some? {
      ticker.Begin(ctrl, job.archive.value);
      if !job.dryRun {
        var room := Exec(job, files);
        if !room {
          return Failure(ArchiveBroken);
        }
        var chunks: seq<nat> :| true;
        var _ := ticker.Transfer(ctrl, job.archive.value, chunks);
        var ok := files.Unpack(job.scratch);
        if !ok {
          return Failure(ArchiveBroken);
        }
      }
    }
    if job.mode.Stream? {
      return Success(Staged(job.scratch, [], []));
    }
    ghost var trace := ctrl.trace;
    ghost var held := files.contents;
    var staged := StageRun(job.dryRun, job.keepCache, job.scratch, PlanOf(job), files, ctrl, ticker, digest);
    AddsMore(old(ctrl.trace), trace, ctrl.trace, Quiet);
    OthersAreOutside(held, files.contents, job.scratch, PlanOf(job));
    hide OutsideKept, OthersKept;
    OutsideTwice(old(files.contents), held, files.contents, job.scratch);
    return if staged.Success? then Success(staged.value) else Failure(NotStaged(staged.error));
  }

  /** Nothing outside the scratch directory changes. */
  ghost predicate OutsideKept(before: map<string, seq<u8>>, after: map<string, seq<u8>>, dir: string) {
    forall p :: p in before && !StartsWith(p, dir + "/") ==> p in after && after[p] == before[p]
  }

  lemma Untouched(contents: map<string, seq<u8>>, dir: string, plan: seq<Artifact>)
    ensures OutsideKept(contents, contents, dir) && OthersKept(contents, contents, dir, plan)
  {
  }

  lemma OutsideTwice(a: map<string, seq<u8>>, b: map<string, seq<u8>>, c: map<string, seq<u8>>, dir: string)
    requires OutsideKept(a, b, dir) && OutsideKept(b, c, dir)
    ensures OutsideKept(a, c, dir)
  {
    hide StartsWith;
  }

  lemma OthersAreOutside(before: map<string, seq<u8>>, after: map<string, seq<u8>>, dir: string, plan: seq<Artifact>)
    requires OthersKept(before, after, dir, plan)
    ensures OutsideKept(before, after, dir)
  {
    hide InPlace;
    forall i | 0 <= i < |plan|
      ensures StartsWith(Dest(dir, plan[i].rel), dir + "/")
    {
      assert Dest(dir, plan[i].rel)[..|dir| + 1] == dir + "/";
    }
    hide Dest, StartsWith;
  }

  /** Before the target is touched or read for: everything verified, nothing found wrong. */
  ghost predicate Ready(job: Job, before: seq<Event>) {
    job.mode.VerifyFirst? ==>
      && AllChecked(before, PlanOf(job))
      && forall j :: 0 <= j < |before| && before[j].Checked? ==> before[j].verdict != Mismatched
  }

  /** What every event of every run satisfies. */
  ghost predicate SafeAt(job: Job, trace: seq<Event>, k: nat)
    requires k < |trace|
  {
    match trace[k]
    case Bar(_) => true
    case Began(_) => true
    case Checked(_, _) => !job.dryRun && job.mode.VerifyFirst?
    case ReadFrom(file) => !job.dryRun && Allowed(job, file) && Ready(job, trace[..k])
    case Destroyed(_) => !job.dryRun && Cleared(job) && Ready(job, trace[..k])
    case Wrote(_, _) => !job.dryRun
    case Switched(id) => !job.dryRun && SwitchTo(job, id) && VouchedAt(trace, k)
  }

  ghost predicate SafeTrace(job: Job, trace: seq<Event>) {
    forall k :: 0 <= k < |trace| ==> SafeAt(job, trace, k)
  }

  lemma PreparedIsSafe(job: Job, trace: seq<Event>)
    requires Adds([], trace, Quiet)
    requires job.dryRun || job.mode.Stream? ==> forall k :: 0 <= k < |trace| ==> !trace[k].Checked?
    ensures SafeTrace(job, trace) && Erased(trace) == [] && Harmless(trace)
  {
    QuietErasesNothing([], trace);
    hide Erased;
  }

  lemma ReadyStays(job: Job, t: seq<Event>, trace: seq<Event>, k: nat)
    requires Ready(job, t) && t <= trace && |t| <= k <= |trace|
    requires forall j :: |t| <= j < |trace| ==> !trace[j].Checked?
    ensures Ready(job, trace[..k])
  {
    var before := trace[..k];
    assert t <= before;
    if job.mode.VerifyFirst? {
      hide PlanOf;
      forall i | 0 <= i < |PlanOf(job)|
        ensures CheckedOk(before, PlanOf(job)[i].file)
      {
        CheckedStays(t, before, PlanOf(job)[i].file);
      }
      forall j | 0 <= j < |before| && before[j].Checked?
        ensures before[j].verdict != Mismatched
      {
        assert before[j] == trace[j] && (j < |t| ==> t[j] == trace[j]);
      }
    }
  }

  lemma WrittenIsSafe(job: Job, t: seq<Event>, trace: seq<Event>, ok: bool, gone: seq<Destruction>)
    requires SafeTrace(job, t) && Cleared(job) && (!job.dryRun ==> Ready(job, t))
    requires Stretch(job, t, trace, ok, gone)
    ensures SafeTrace(job, trace)
  {
    hide Settled, Ready, Allowed, Cleared, SwitchTo, Erased;
    assert forall j :: |t| <= j < |trace| ==> !trace[j].Checked?;
    forall k | 0 <= k < |trace|
      ensures SafeAt(job, trace, k)
    {
      if k < |t| {
        assert SafeAt(job, t, k) && trace[k] == t[k] && trace[..k] == t[..k] && (k > 0 ==> trace[k - 1] == t[k - 1]);
      } else {
        assert May(job, trace[k]);
        if !job.dryRun {
          ReadyStays(job, t, trace, k);
        }
      }
    }
  }

  /** The spare boot LU, if there is one, was written and judged, and each write of it
      is followed by the switch to it exactly when it was not found wrong. */
  ghost predicate SwitchedAsDue(job: Job, trace: seq<Event>) {
    forall id :: SwitchTo(job, id) ==>
      && (exists k :: 0 <= k < |trace| && trace[k].Wrote? && trace[k].what == BootLuWrite(id))
      && forall k :: 0 <= k < |trace| && trace[k].Wrote? && trace[k].what == BootLuWrite(id) ==>
           (trace[k].verdict != Mismatched <==> k + 1 < |trace| && trace[k + 1] == Switched(id))
  }

  /** What a finished run may look like. */
  ghost predicate Complete(job: Job, trace: seq<Event>) {
    && Begun(trace) == TotalWeight(job)
    && (forall k :: 0 <= k < |trace| ==> WellWritten(job, trace[k]))
    && (!job.dryRun ==> SwitchedAsDue(job, trace))
    && (!job.dryRun ==>
          Erased(trace) == ExpectedErased(job, Published(job))
          || Erased(trace) == ExpectedErased(job, Published(job)) + [MetadataWrite])
  }

  ghost predicate StagedWrong(trace: seq<Event>) {
    exists k :: 0 <= k < |trace| && trace[k].Checked? && trace[k].verdict == Mismatched
  }

  ghost predicate Harmless(trace: seq<Event>) {
    forall k :: 0 <= k < |trace| ==> trace[k].Bar? || trace[k].Began? || trace[k].Checked?
  }

  ghost predicate BarsFine(trace: seq<Event>) {
    BarsRise(trace) && BarsUnder(trace, 1.0)
  }

  lemma BarsAreFine(ctrl: Ctrl, ticker: Ticker)
    requires ticker.Ok(ctrl)
    ensures BarsFine(ctrl.trace) && Begun(ctrl.trace) == ticker.done + ticker.current <= ticker.total
  {
    ShareOrdered(ticker.done + ticker.current, ticker.total, ticker.total);
    assert ticker.total as real / ticker.total as real == 1.0;
    BarsUnderMore(ctrl.trace, Share(ticker.done + ticker.current, ticker.total), 1.0);
    hide Begun, BarsRise, BarsUnder;
  }

  lemma EmptyIsFine(job: Job)
    ensures SafeTrace(job, []) && BarsFine([]) && Begun([]) <= TotalWeight(job) && !StagedWrong([])
  {
  }

  lemma StartsOk(ctrl: Ctrl, ticker: Ticker, job: Job)
    requires ctrl.trace == [] && ticker.done == ticker.current == 0 && ticker.total == TotalWeight(job)
    ensures ticker.Ok(ctrl)
  {
    hide StagingWeight, DeployAllWeight, OptionWeight, TransferWeight, PlanOf, Published, RecoveryOf;
  }

  lemma {:induction false} ErasedOnce(trace: seq<Event>, what: Destruction)
    requires what in Erased(trace)
    ensures exists k :: 0 <= k < |trace| && trace[k] == Destroyed(what)
  {
    var n := |trace| - 1;
    if what in Erased(trace[..n]) {
      ErasedOnce(trace[..n], what);
      var k :| 0 <= k < n && trace[..n][k] == Destroyed(what);
      assert trace[k] == Destroyed(what);
    } else {
      assert trace[n] == Destroyed(what);
    }
  }

  lemma SpareIsErased(job: Job, im: Images, id: u8)
    requires SwitchTo(job, id)
    ensures BootLuWrite(id) in ExpectedErased(job, im)
  {
    assert LoaderErased(job) == [BootLuWrite(id)];
    hide OptionErased, RecoveryOf, DeployErased;
  }

  lemma SwitchIsDue(job: Job, t: seq<Event>, trace: seq<Event>, gone: seq<Destruction>)
    requires Stretch(job, t, trace, true, gone) && Erased(t) == [] && Harmless(t) && !job.dryRun
    requires forall id :: SwitchTo(job, id) ==> BootLuWrite(id) in gone
    ensures SwitchedAsDue(job, trace)
  {
    hide May, WellWritten, SwitchTo;
    assert forall k :: 0 <= k < |t| ==> trace[k] == t[k] && !trace[k].Wrote? && !trace[k].Destroyed?;
    forall id | SwitchTo(job, id)
      ensures exists k :: 0 <= k < |trace| && trace[k].Wrote? && trace[k].what == BootLuWrite(id)
    {
      assert BootLuWrite(id) in Erased(trace);
      ErasedOnce(trace, BootLuWrite(id));
      var k :| 0 <= k < |trace| && trace[k] == Destroyed(BootLuWrite(id));
      assert SettledAt(job, trace, k);
    }
    hide Erased;
    forall id, k | SwitchTo(job, id) && 0 <= k < |trace| && trace[k].Wrote? && trace[k].what == BootLuWrite(id)
      ensures trace[k].verdict != Mismatched <==> k + 1 < |trace| && trace[k + 1] == Switched(id)
    {
      assert SettledAt(job, trace, k);
      assert k + 1 < |trace| ==> VouchedAt(trace, k + 1);
    }
  }

  lemma WrittenIsWhole(job: Job, t: seq<Event>, trace: seq<Event>, ok: bool, gone: seq<Destruction>)
    requires Stretch(job, t, trace, ok, gone) && Erased(t) == []
    requires Harmless(t) && forall k :: 0 <= k < |t| && t[k].Checked? ==> t[k].verdict != Mismatched
    ensures !StagedWrong(trace)
    ensures ok && !job.dryRun ==> Erased(trace) == gone
    ensures ok && Begun(trace) == TotalWeight(job)
            && (gone == ExpectedErased(job, Published(job)) || gone == ExpectedErased(job, Published(job)) + [MetadataWrite]) ==>
              Complete(job, trace)
  {
    if ok && !job.dryRun && ExpectedErased(job, Published(job)) <= gone {
      forall id | SwitchTo(job, id)
        ensures BootLuWrite(id) in gone
      {
        SpareIsErased(job, Published(job), id);
      }
      SwitchIsDue(job, t, trace, gone);
    }
    hide Erased, Allowed, SwitchTo, Begun, TotalWeight, ExpectedErased, Published, Settled, SwitchedAsDue;
    forall k | 0 <= k < |trace|
      ensures trace[k].Checked? ==> trace[k].verdict != Mismatched
      ensures ok ==> WellWritten(job, trace[k])
    {
      if k < |t| {
        assert trace[k] == t[k];
      } else {
        assert May(job, trace[k]);
      }
    }
    assert [] + gone == gone;
  }

  /** After a real success, exactly what the job asks for was overwritten, the metadata
      aside: of the packs the seed, Minimal and the selected profiles. */
  lemma OverwritesExactly(job: Job, trace: seq<Event>, what: Destruction)
    requires Complete(job, trace) && !job.dryRun && what != MetadataWrite
    ensures what in Erased(trace) <==> Due(job, what)
  {
    ExpectedExactly(job, what);
    hide Erased, ExpectedErased, Due, Published;
  }

  /** Staging neither adds nor removes a pack. */
  lemma LacksTheSame(job: Job, s: Staged, im: Images, e: Fault)
    requires im == Published(job)
    ensures LacksPack(job, Localised(s, im), e) <==> LacksPack(job, im, e)
    ensures LacksPack(job, im, e) ==> e.NoFullPack? || e.NoIncremental?
    ensures LacksPack(job, im, e) && e.NoFullPack? ==> MinimalFull(job.build).None?
    ensures LacksPack(job, im, e) && e.NoIncremental? ==>
              exists k :: 0 <= k < |job.build.profiles| && Picked(job.build.profiles[k], job.selected)
                && job.build.profiles[k].incremental.None?
  {
    var extras := Extras(im.build.profiles, job.selected);
    MinimalLocalised(s, im.build.profiles);
    ExtrasLocalised(s, im.build.profiles, job.selected);
    var at := ExtrasAre(job.build.profiles, job.selected);
    hide Extras, Picked, FirstMinimal, Localise;
    var local := LocaliseProfiles(s, extras);
    assert forall i :: 0 <= i < |extras| ==> (local[i].incremental.None? <==> extras[i].incremental.None?);
    assert LacksIncremental(local) <==> LacksIncremental(extras);
    if LacksPack(job, im, e) && e.NoIncremental? {
      var i :| 0 <= i < |extras| && extras[i].incremental.None?;
      assert at[i] in at;
    }
  }

  /** The images the run goes on with: the published ones, or their scratch copies. */
  method Sources(job: Job, staged: Staged, ghost contents: map<string, seq<u8>>, digest: Digest) returns (im: Images)
    requires job.mode.VerifyFirst? && !job.dryRun ==> Covers(staged, PlanOf(job)) && staged.dir == job.scratch
    ensures !job.dryRun ==> AllAllowed(job, im)
    ensures job.mode.VerifyFirst? && !job.dryRun && DistinctRels(PlanOf(job)) && DistinctSources(PlanOf(job))
            && CopiesVerified(contents, job.scratch, PlanOf(job), |PlanOf(job)|, digest) ==>
              AllTrusted(job, im, contents, digest)
    ensures WriteWeight(job, im) == WriteWeight(job, Published(job))
    ensures ExpectedErased(job, im) == ExpectedErased(job, Published(job))
    ensures FirstMinimal(job.build.profiles).Some? ==> FirstMinimal(im.build.profiles).Some?
    ensures forall e :: LacksPack(job, im, e) ==> Deserved(job, e, [])
  {
    im := Published(job);
    forall e
      ensures LacksPack(job, Localised(staged, im), e) <==> LacksPack(job, im, e)
      ensures LacksPack(job, im, e) ==> Deserved(job, e, [])
    {
      LacksTheSame(job, staged, im, e);
    }
    if job.mode.VerifyFirst? {
      LocalisedWeighsTheSame(job, staged, im);
      MinimalLocalised(staged, job.build.profiles);
      if !job.dryRun {
        StagedAreAllowed(job, staged);
        if DistinctRels(PlanOf(job)) && DistinctSources(PlanOf(job))
           && CopiesVerified(contents, job.scratch, PlanOf(job), |PlanOf(job)|, digest) {
          StagedAreTrusted(job, staged, contents, digest);
        }
      }
      im := Localised(staged, im);
    } else {
      PublishedAreAllowed(job);
    }
    hide AllAllowed, AllTrusted, WriteWeight, ExpectedErased, FirstMinimal, LacksPack, Deserved;
  }

  /** Dropping the staged copies at the end of a run that began with `before`. */
  method CleanUp(job: Job, staged: Staged, files: Files, ghost before: map<string, seq<u8>>)
    requires forall p :: p in staged.created ==> StagedOver(job.scratch, PlanOf(job), p)
    requires OutsideKept(before, files.contents, job.scratch)
    requires job.archive.None? ==>
               && OthersKept(before, files.contents, job.scratch, PlanOf(job))
               && forall p :: p in files.contents ==> p in before || p in staged.created
    modifies files`contents
    ensures job.dryRun ==> files.contents == old(files.contents)
    ensures OutsideKept(before, files.contents, job.scratch)
    ensures job.archive.None? ==>
              && OthersKept(before, files.contents, job.scratch, PlanOf(job))
              && (!job.keepCache && !job.dryRun ==> forall p :: p in files.contents ==> p in before)
  {
    hide StagedOver, StartsWith, PlanOf;
    if !job.dryRun {
      ghost var held := files.contents;
      DropStaged(staged, job.keepCache, files);
      DropKeepsOthers(held, files.contents, job.scratch, PlanOf(job), staged.created);
      OthersAreOutside(held, files.contents, job.scratch, PlanOf(job));
      OutsideTwice(before, held, files.contents, job.scratch);
      if job.archive.None? {
        KeptTwice(before, held, files.contents, job.scratch, PlanOf(job));
      }
    }
  }

  /** The faults of a run that nothing outside has caused. */
  ghost predicate Deserved(job: Job, e: Fault, trace: seq<Event>) {
    match e
    case NoMinimal =>
      forall k :: 0 <= k < |job.build.profiles| ==> !SpellsSame(job.build.profiles[k].name, "minimal")
    case Refused => !Cleared(job)
    case OnTarget => !Cleared(job)
    case NotStaged(error) => error == StagedMismatch && !job.dryRun && job.mode.VerifyFirst? && StagedWrong(trace)
    case BadDigest => !job.dryRun && job.mode.VerifyFirst?
    case NoFullPack => MinimalFull(job.build).None?
    case NoIncremental =>
      exists k :: 0 <= k < |job.build.profiles| && Picked(job.build.profiles[k], job.selected)
        && job.build.profiles[k].incremental.None?
    case _ => false
  }

  /** `run`. */
  method Run(job: Job, files: Files, digest: Digest) returns (r: Result<(), Fault>, trace: seq<Event>)
    modifies files
    ensures SafeTrace(job, trace) && BarsFine(trace) && Begun(trace) <= TotalWeight(job)
    ensures r.Success? ==> Cleared(job) && Complete(job, trace)
    ensures StagedWrong(trace) ==> r.Failure? && Harmless(trace)
    ensures r.Success? && !job.dryRun && job.archive.Some? ==> files.unpacked
    ensures job.dryRun || job.archive.None? ==> files.unpacked == old(files.unpacked)
    ensures r.Failure? && !files.disturbed ==> Deserved(job, r.error, trace)
    ensures r.Success? && !job.dryRun && !files.disturbed ==> MetadataWrite in Erased(trace)
    ensures r.Success? && (job.dryRun || MetadataWrite in Erased(trace)) ==> files.disturbed == old(files.disturbed)
    ensures DistinctRels(PlanOf(job)) && DistinctSources(PlanOf(job)) ==> r != Failure(BadDigest)
    ensures job.dryRun ==> files.contents == old(files.contents)
    ensures OutsideKept(old(files.contents), files.contents, job.scratch)
    ensures job.archive.None? ==>
              && OthersKept(old(files.contents), files.contents, job.scratch, PlanOf(job))
              && (!job.keepCache ==> forall p :: p in files.contents ==> p in old(files.contents))
  {
    hide Share, Begun, BarsRise, BarsUnder, TotalWeight, WriteWeight, PlanOf, StagedOver, Cleared, Erased, StartsWith;
    hide AllAllowed, Localised, Published, ExpectedErased, FirstMinimal, SafeTrace, Harmless, Stretch, Adds, OthersKept, OutsideKept;
    hide AllTrusted, DistinctRels, DistinctSources, BarsFine, StagedWrong, Complete, AllChecked, CopiesVerified, Covers, Ticker.Ok, WellWritten;
    Untouched(files.contents, job.scratch, PlanOf(job));
    EmptyIsFine(job);
    FirstMinimalIs(job.build.profiles);
    if FirstMinimal(job.build.profiles).None? {
      return Failure(NoMinimal), [];
    }
    var cleared := Guard(job);
    if cleared.Failure? {
      return Failure(cleared.error), [];
    }
    var ctrl := new Ctrl();
    var ticker := new Ticker(TotalWeight(job));
    StartsOk(ctrl, ticker, job);
    var prepared := Prepare(job, files, digest, ctrl, ticker);
    PreparedIsSafe(job, ctrl.trace);
    if prepared.Failure? {
      BarsAreFine(ctrl, ticker);
      return Failure(prepared.error), ctrl.trace;
    }
    ghost var t := ctrl.trace;
    var im := Sources(job, prepared.value, files.contents, digest);
    var recorded;
    r, recorded := WriteTarget(job, im, files, digest, ctrl, ticker);
    ghost var gone := ExpectedErased(job, im) + if recorded then [MetadataWrite] else [];
    assert !recorded ==> gone == ExpectedErased(job, im);
    assert recorded ==> MetadataWrite in gone;
    ExpectedExactly(job, MetadataWrite);
    assert MetadataWrite in gone ==> recorded;
    trace := ctrl.trace;
    WrittenIsSafe(job, t, trace, r.Success?, gone);
    BarsAreFine(ctrl, ticker);
    WrittenIsWhole(job, t, trace, r.Success?, gone);
    assert r.Failure? && LacksPack(job, im, r.error) ==> Deserved(job, r.error, []);
    CleanUp(job, prepared.value, files, old(files.contents));
  }
}
