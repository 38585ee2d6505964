/** The A/B bootloader update (src/core/install.rs:1165-1252, 1377-1470, 2038-2090)
    as a transition system: every byte-level write, every byte the kernel writes back,
    every error and every crash is a step, and runs follow one another on the same
    device. */
module BootPair {
  import opened Wrappers
  import opened Bytes
  import opened Text
  import opened Ufs
  import opened Planning
  import opened Comparison

  /** Where the image starts inside a boot LU: 32 KiB. */
  const LOADER_START: nat := 32 * 1024

  type Digest = seq<u8> -> string

  datatype Verdict = Match | Unpublished | Mismatched

  /** A digest was published, and the computed one does not spell the same. */
  ghost predicate FoundWrong(computed: string, expected: Option<string>) {
    expected.Some? && !SpellsSame(expected.value, computed)
  }

  /** `fetch::verify`: the published digest is compared without regard to case. */
  function Verify(computed: string, expected: Option<string>): (v: Verdict)
    ensures v == Unpublished <==> expected.None?
    ensures v == Mismatched <==> FoundWrong(computed, expected)
  {
    match expected
    case None => Unpublished
    case Some(want) =>
      EqIgnoreCaseIs(want, computed);
      if EqIgnoreCase(want, computed) then Match else Mismatched
  }

  datatype Policy = Fail | Warn

  /** One install's bootloader: the image its source delivers, the digest the manifest
      publishes, and the policy. */
  datatype Job = Job(image: seq<u8>, expected: Option<string>, policy: Policy)

  /** A bootloader image written in full whose digest was not found wrong. */
  datatype Installed = Installed(target: u8, image: seq<u8>, job: Job)

  datatype Phase =
    | Idle
    | Writing(target: u8, believed: u8, job: Job, sent: seq<u8>, synced: bool)
    | Switching(target: u8)

  /** `lus` holds the contents of the boot LUs found on the device, by boot id, as
      programs read them, and `media` what of that a crash leaves, which is what the
      boot ROM reads. `config` is the descriptor in effect; `done` records completed
      writes. */
  datatype State = State(
    config: Desc,
    active: u8,
    lus: map<u8, seq<u8>>,
    media: map<u8, seq<u8>>,
    phase: Phase,
    done: seq<Installed>)

  datatype Action =
    | Begin(job: Job, flagReadable: bool)
    | Chunk(bytes: seq<u8>)
    | Sync
    | Finish
    | Switch
    | Stop
    | WriteBack(id: u8, from: nat, to: nat)
    | Crash

  // --- choosing the LU to write -----------------------------------------------

  function Spare(active: u8): u8 {
    if active == BOOT_A then BOOT_B else BOOT_A
  }

  datatype Target = Target(id: u8, believed: u8)

  /** `ufs_boot_lu_plan`: the spare side first, then the active one; LU A in place
      when the flag cannot be read. */
  function ChooseTarget(s: State, flagReadable: bool): Option<Target> {
    if !flagReadable then
      if BOOT_A in s.lus then Some(Target(BOOT_A, BOOT_A)) else None
    else if Spare(s.active) in s.lus then Some(Target(Spare(s.active), s.active))
    else if s.active != BOOT_NONE && s.active in s.lus then Some(Target(s.active, s.active))
    else None
  }

  /** The update is fail-safe, that is, the LU to write is not the one being booted,
      exactly when the flag can be read and the spare side exists, or it cannot and the
      board does not boot from A. */
  lemma TargetAvoidsActiveExactly(s: State, flagReadable: bool)
    requires ChooseTarget(s, flagReadable).Some?
    ensures ChooseTarget(s, flagReadable).value.id != s.active
            <==> if flagReadable then Spare(s.active) in s.lus else s.active != BOOT_A
  {
  }

  /** An LU is found to write whenever the board has one it could boot: either side when
      a side is active, side A when none is or the flag cannot be read. */
  lemma TargetExistsExactly(s: State, flagReadable: bool)
    requires s.active <= BOOT_B
    ensures ChooseTarget(s, flagReadable).Some?
            <==> BOOT_A in s.lus || (flagReadable && s.active != BOOT_NONE && BOOT_B in s.lus)
    ensures ChooseTarget(s, flagReadable).Some? ==>
              var t := ChooseTarget(s, flagReadable).value;
              && t.id in s.lus && (t.id == BOOT_A || t.id == BOOT_B)
              && t.believed == if flagReadable then s.active else BOOT_A
  {
  }

  // --- steps --------------------------------------------------------------------

  /** The kernel writes part of an LU back to the medium, when and as it likes. */
  function WrittenBack(s: State, id: u8, from: nat, to: nat): Option<State> {
    if id in s.lus && id in s.media && from <= to <= |s.lus[id]| && |s.media[id]| == |s.lus[id]| then
      Some(s.(media := s.media[id := Splice(s.media[id], from, s.lus[id][from..to])]))
    else None
  }

  /** One step, or `None` when the action does not apply in this state. A write is
      finished only by the whole image, synced: a copy that stops short and a sync that
      fails are errors, and an error is a `Stop`, which leaves what was written for the
      kernel to write back or a crash to lose. */
  function Step(s: State, a: Action, digest: Digest): Option<State> {
    match (a, s.phase)
    case (Begin(job, readable), Idle) =>
      var t := ChooseTarget(s, readable);
      if t.None? then None else Some(s.(phase := Writing(t.value.id, t.value.believed, job, [], false)))
    case (Chunk(bytes), Writing(target, believed, job, sent, _)) =>
      if target in s.lus && LOADER_START + |sent| + |bytes| <= |s.lus[target]| then
        Some(s.(lus := s.lus[target := Splice(s.lus[target], LOADER_START + |sent|, bytes)],
                phase := Writing(target, believed, job, sent + bytes, false)))
      else None
    case (Sync, Writing(target, believed, job, sent, _)) =>
      if target in s.lus then
        Some(s.(media := s.media[target := s.lus[target]], phase := s.phase.(synced := true)))
      else None
    case (Finish, Writing(target, believed, job, sent, synced)) =>
      if sent != job.image || !synced then None
      else if Verify(digest(sent), job.expected) == Mismatched then
        Some(s.(phase := Idle))
      else
        var recorded := s.(done := s.done + [Installed(target, sent, job)]);
        Some(recorded.(phase := if target == believed then Idle else Switching(target)))
    case (Switch, Switching(target)) => Some(s.(active := target, phase := Idle))
    case (Stop, _) => Some(s.(phase := Idle))
    case (WriteBack(id, from, to), _) => WrittenBack(s, id, from, to)
    case (Crash, _) => Some(s.(lus := s.media, phase := Idle))
    case _ => None
  }

  /** `n` actions of a history; actions that do not apply change nothing. */
  function Run(s: State, actions: seq<Action>, n: nat, digest: Digest): State
    requires n <= |actions|
  {
    if n == 0 then s
    else
      var before := Run(s, actions, n - 1, digest);
      match Step(before, actions[n - 1], digest) case Some(next) => next case None => before
  }

  // --- safety ---------------------------------------------------------------------

  predicate Holds(content: seq<u8>, image: seq<u8>) {
    LOADER_START + |image| <= |content| && content[LOADER_START..LOADER_START + |image|] == image
  }

  /** The whole image of its install, its digest not found wrong. */
  ghost predicate WholeAndGood(i: Installed, digest: Digest) {
    i.image == i.job.image && !FoundWrong(digest(i.image), i.job.expected)
  }

  ghost predicate Vouched(s: State, digest: Digest) {
    forall k :: 0 <= k < |s.done| ==> WholeAndGood(s.done[k], digest)
  }

  /** Some install's whole image was written to this LU, is on its medium, and was not
      found wrong. */
  ghost predicate HoldsInstalled(s: State, id: u8, digest: Digest) {
    id in s.media
    && exists k :: 0 <= k < |s.done| && s.done[k].target == id && Holds(s.media[id], s.done[k].job.image)
         && WholeAndGood(s.done[k], digest)
  }

  /** The medium of the booted LU holds what it held at the start, or the complete image
      of an install, not found wrong. */
  ghost predicate Bootable(s0: State, s: State, digest: Digest) {
    && s.active in s.media
    && ((s.active == s0.active && s.active in s0.media && s.media[s.active] == s0.media[s.active])
        || HoldsInstalled(s, s.active, digest))
  }

  /** Nothing written to this LU is still waiting to reach its medium. */
  predicate Clean(s: State, id: u8) {
    id in s.lus && id in s.media && s.media[id] == s.lus[id]
  }

  ghost predicate PhaseSafe(s: State, digest: Digest) {
    match s.phase
    case Idle => true
    case Writing(target, believed, job, sent, synced) =>
      target in s.lus && (target == BOOT_A || target == BOOT_B) && target != s.active
      && Holds(s.lus[target], sent) && (synced ==> Clean(s, target))
      && (believed == s.active || target == believed)
    case Switching(target) =>
      target in s.lus && (target == BOOT_A || target == BOOT_B) && target != s.active
      && Clean(s, target) && HoldsInstalled(s, target, digest)
  }

  ghost predicate Sized(s: State) {
    && BOOT_A in s.lus && BOOT_B in s.lus
    && s.media.Keys == s.lus.Keys
    && forall id :: id in s.lus ==> |s.media[id]| == |s.lus[id]| >= LOADER_START
  }

  ghost predicate Safe(s0: State, s: State, digest: Digest) {
    && Sized(s)
    && (s.active == BOOT_A || s.active == BOOT_B)
    && Clean(s, s.active)
    && Vouched(s, digest)
    && Bootable(s0, s, digest)
    && PhaseSafe(s, digest)
  }

  /** Each install could read the flag, or the board was booting B. */
  predicate FlagKnown(s: State, a: Action) {
    a.Begin? ==> a.flagReadable || s.active != BOOT_A
  }

  lemma ChunkHolds(content: seq<u8>, sent: seq<u8>, bytes: seq<u8>)
    requires Holds(content, sent) && LOADER_START + |sent| + |bytes| <= |content|
    ensures Holds(Splice(content, LOADER_START + |sent|, bytes), sent + bytes)
  {
    var r := Splice(content, LOADER_START + |sent|, bytes);
    assert forall k :: 0 <= k < |sent| ==> content[LOADER_START..LOADER_START + |sent|][k] == sent[k];
    assert r[LOADER_START..LOADER_START + |sent + bytes|] == sent + bytes;
  }

  /** Writing back an LU that is clean changes nothing. */
  lemma CleanWriteBack(s: State, id: u8, from: nat, to: nat)
    requires Clean(s, id) && from <= to <= |s.lus[id]|
    ensures Splice(s.media[id], from, s.lus[id][from..to]) == s.media[id]
  {
  }

  /** Every step keeps the device bootable. */
  lemma StepKeepsSafe(s0: State, s: State, a: Action, digest: Digest)
    requires Safe(s0, s, digest) && FlagKnown(s, a) && Step(s, a, digest).Some?
    ensures Safe(s0, Step(s, a, digest).value, digest)
  {
    match (a, s.phase)
    case (Begin(job, readable), Idle) =>
      TargetAvoidsActiveExactly(s, readable);
    case (Chunk(bytes), Writing(target, believed, job, sent, _)) =>
      ChunkHolds(s.lus[target], sent, bytes);
    case (Sync, Writing(target, believed, job, sent, _)) =>
    case (Finish, Writing(target, believed, job, sent, _)) =>
      if Verify(digest(sent), job.expected) != Mismatched {
        FinishKeepsSafe(s0, s, digest);
      }
    case (Switch, Switching(target)) =>
    case (Stop, _) =>
    case (WriteBack(id, from, to), _) =>
      WriteBackKeepsSafe(s0, s, id, from, to, digest);
    case (Crash, _) =>
    case _ =>
  }

  /** Writing back touches only an LU that has something waiting, which is neither the
      booted one nor one about to be. */
  lemma WriteBackKeepsSafe(s0: State, s: State, id: u8, from: nat, to: nat, digest: Digest)
    requires Safe(s0, s, digest) && WrittenBack(s, id, from, to).Some?
    ensures Safe(s0, WrittenBack(s, id, from, to).value, digest)
  {
    if Clean(s, id) {
      CleanWriteBack(s, id, from, to);
      assert s.media[id := s.media[id]] == s.media;
    } else {
      hide Holds, WholeAndGood;
    }
  }

  lemma FinishKeepsSafe(s0: State, s: State, digest: Digest)
    requires Safe(s0, s, digest) && s.phase.Writing? && s.phase.sent == s.phase.job.image && s.phase.synced
    requires Verify(digest(s.phase.sent), s.phase.job.expected) != Mismatched
    ensures Safe(s0, Step(s, Finish, digest).value, digest)
  {
    var next := Step(s, Finish, digest).value;
    assert next.done[|s.done|] == Installed(s.phase.target, s.phase.sent, s.phase.job);
    assert forall k :: 0 <= k < |s.done| ==> next.done[k] == s.done[k];
    hide Holds, Verify;
    assert WholeAndGood(next.done[|s.done|], digest);
    assert HoldsInstalled(next, s.phase.target, digest);
    if HoldsInstalled(s, s.active, digest) {
      var k :| 0 <= k < |s.done| && s.done[k].target == s.active && Holds(s.media[s.active], s.done[k].job.image)
        && WholeAndGood(s.done[k], digest);
      assert next.done[k] == s.done[k];
      assert HoldsInstalled(next, next.active, digest);
    }
  }

  /** Neither the booted LU nor its medium is written, and it changes only by a switch to an LU holding the
      complete image of an install, not found wrong, under either policy. */
  lemma ActiveUntouched(s0: State, s: State, a: Action, digest: Digest)
    requires Safe(s0, s, digest) && FlagKnown(s, a) && Step(s, a, digest).Some?
    ensures var next := Step(s, a, digest).value;
            && s.active in next.lus && next.lus[s.active] == s.lus[s.active]
            && s.active in next.media && next.media[s.active] == s.media[s.active]
            && (next.active != s.active ==> HoldsInstalled(next, next.active, digest))
  {
    StepKeepsSafe(s0, s, a, digest);
    if a.WriteBack? && a.id == s.active {
      CleanWriteBack(s, a.id, a.from, a.to);
    }
  }

  ghost predicate FlagAlwaysKnown(s: State, actions: seq<Action>, n: nat, digest: Digest)
    requires n <= |actions|
  {
    forall k :: 0 <= k < n ==> FlagKnown(Run(s, actions, k, digest), actions[k])
  }

  /** Over any history of installs, each finishing, failing or crashing at any byte, and
      with unsynced bytes written back or lost in any pattern, the LU the boot ROM reads
      is bootable at every moment. */
  lemma {:induction false} AlwaysBootable(s0: State, actions: seq<Action>, n: nat, digest: Digest)
    requires n <= |actions| && Safe(s0, s0, digest) && FlagAlwaysKnown(s0, actions, n, digest)
    ensures Safe(s0, Run(s0, actions, n, digest), digest)
  {
    hide Safe, FlagKnown, Step;
    if n > 0 {
      AlwaysBootable(s0, actions, n - 1, digest);
      var before := Run(s0, actions, n - 1, digest);
      if Step(before, actions[n - 1], digest).Some? {
        StepKeepsSafe(s0, before, actions[n - 1], digest);
      }
    }
  }

  /** Whenever the LU to write is the booted one (the flag cannot be read and the board
      boots A, or there is no spare side) the update is not fail-safe: if the image
      differs from what is there in two places, writing it up to the first and crashing
      leaves neither the old bootloader nor the new one. */
  lemma InPlaceIsNotFailSafe(s0: State, job: Job, readable: bool, i: nat, j: nat, digest: Digest)
    requires s0.phase == Idle && s0.done == []
    requires ChooseTarget(s0, readable).Some? && ChooseTarget(s0, readable).value.id == s0.active
    requires s0.active in s0.media && |s0.media[s0.active]| == |s0.lus[s0.active]|
    requires i < j < |job.image| && LOADER_START + |job.image| <= |s0.lus[s0.active]|
    requires s0.media[s0.active][LOADER_START + i] != job.image[i]
    requires s0.media[s0.active][LOADER_START + j] != job.image[j]
    ensures var actions := [Begin(job, readable), Chunk(job.image[..i + 1]),
                            WriteBack(s0.active, LOADER_START, LOADER_START + (i + 1)), Crash];
            var s := Run(s0, actions, 4, digest);
            && s.active == s0.active && s.active in s.media && s.media[s.active] != s0.media[s.active]
            && !Holds(s.media[s.active], job.image) && !Bootable(s0, s, digest)
  {
    TornIsNeither(s0.media[s0.active], job.image, i, j);
    hide Splice, Holds, Run, Step;
    TornRun(s0, job, readable, job.image[..i + 1], digest);
  }

  /** A write begun, part of it written back, and a crash: the medium has that part. */
  lemma TornRun(s0: State, job: Job, readable: bool, part: seq<u8>, digest: Digest)
    requires s0.phase == Idle && ChooseTarget(s0, readable).Some?
    requires var id := ChooseTarget(s0, readable).value.id;
             id in s0.media && |s0.media[id]| == |s0.lus[id]| && LOADER_START + |part| <= |s0.lus[id]|
    ensures var id := ChooseTarget(s0, readable).value.id;
            var actions := [Begin(job, readable), Chunk(part), WriteBack(id, LOADER_START, LOADER_START + |part|), Crash];
            var media := s0.media[id := Splice(s0.media[id], LOADER_START, part)];
            Run(s0, actions, 4, digest) == s0.(lus := media, media := media)
  {
    var Target(id, believed) := ChooseTarget(s0, readable).value;
    var lu := Splice(s0.lus[id], LOADER_START, part);
    assert lu[LOADER_START..LOADER_START + |part|] == part && [] + part == part;
    var media := s0.media[id := Splice(s0.media[id], LOADER_START, part)];
    hide Splice, Verify, Run;
    var s1 := s0.(phase := Writing(id, believed, job, [], false));
    var s2 := s0.(lus := s0.lus[id := lu], phase := Writing(id, believed, job, part, false));
    FourSteps([s0, s1, s2, s2.(media := media), s0.(lus := media, media := media)],
              [Begin(job, readable), Chunk(part), WriteBack(id, LOADER_START, LOADER_START + |part|), Crash], digest);
  }

  /** A run step by step. */
  lemma FourSteps(states: seq<State>, actions: seq<Action>, digest: Digest)
    requires |states| == 5 && |actions| == 4
    requires forall k :: 0 <= k < 4 ==> Step(states[k], actions[k], digest) == Some(states[k + 1])
    ensures Run(states[0], actions, 4, digest) == states[4]
  {
    hide Step;
    assert Run(states[0], actions, 1, digest) == states[1];
    assert Run(states[0], actions, 2, digest) == states[2];
    assert Run(states[0], actions, 3, digest) == states[3];
  }

  /** An image written only up to a byte that differs is neither what was there nor all
      of itself, if another byte differs further on. */
  lemma TornIsNeither(content: seq<u8>, image: seq<u8>, i: nat, j: nat)
    requires i < j < |image| && LOADER_START + |image| <= |content|
    requires content[LOADER_START + i] != image[i] && content[LOADER_START + j] != image[j]
    ensures var torn := Splice(content, LOADER_START, image[..i + 1]);
            torn != content && !Holds(torn, image)
  {
    var torn := Splice(content, LOADER_START, image[..i + 1]);
    assert torn[LOADER_START + i] == image[i];
    assert torn[LOADER_START..LOADER_START + |image|][j] == content[LOADER_START + j];
  }

  // --- provisioning status --------------------------------------------------------

  /** A boot LU is found through its descriptor: its id is the one an enabled LU of
      the descriptor in effect is flagged with. */
  ghost predicate FoundByFlag(s: State) {
    s.media.Keys == s.lus.Keys && forall id :: id in s.lus ==> Flagged(s.config, id)
  }

  ghost predicate Flagged(d: Desc, id: u8) {
    exists j :: 0 <= j < LUS && d.Lu(j).Enabled() && d.Lu(j).bootLunId == id
  }

  ghost predicate TargetsFound(s: State) {
    match s.phase
    case Idle => true
    case Writing(target, believed, job, sent, _) => target in s.lus && target != BOOT_NONE
    case Switching(target) => target in s.lus && target != BOOT_NONE
  }

  lemma StepKeepsFound(s: State, a: Action, digest: Digest)
    requires FoundByFlag(s) && TargetsFound(s) && Step(s, a, digest).Some?
    ensures var next := Step(s, a, digest).value;
            && FoundByFlag(next) && TargetsFound(next) && next.config == s.config
            && next.lus.Keys == s.lus.Keys
            && (next.active == s.active || (next.active in s.lus && next.active != BOOT_NONE))
  {
    hide Flagged, Splice;
  }

  /** When the layout agrees with a plan that flags boot LUs, every boot LU found on
      the device is acceptable as the active one. */
  lemma FoundIsAcceptable(plan: Plan, current: Desc, extra: seq<nat>, id: u8)
    requires LayoutAgrees(plan, current, extra) && Flagged(current, id) && (id == BOOT_A || id == BOOT_B)
    ensures id in Acceptable(plan)
  {
    var j :| 0 <= j < LUS && current.Lu(j).Enabled() && current.Lu(j).bootLunId == id;
    assert LuAgrees(plan.descriptor.Lu(j), current.Lu(j));
    hide LuAt, MemoryTypeName, BlockBytes;
    BootableIs(plan.descriptor, LUS, id);
  }

  ghost predicate StaysProvisioned(plan: Plan, s: State, extra: seq<nat>) {
    !HasCritical(CompareOf(plan, s.config, s.active, extra))
  }

  ghost predicate OnlyPair(s: State) {
    forall id :: id in s.lus ==> id == BOOT_A || id == BOOT_B
  }

  /** Being provisioned is an invariant of installing: whatever a history of installs
      does, and wherever each stops, the comparison never starts reporting anything
      critical, readable flag or not. */
  lemma {:induction false} InstallsKeepProvisioned(plan: Plan, s0: State, extra: seq<nat>, actions: seq<Action>, n: nat, digest: Digest)
    requires n <= |actions| && FoundByFlag(s0) && TargetsFound(s0) && OnlyPair(s0)
    requires StaysProvisioned(plan, s0, extra)
    ensures var s := Run(s0, actions, n, digest);
            && StaysProvisioned(plan, s, extra) && FoundByFlag(s) && TargetsFound(s) && OnlyPair(s)
            && s.config == s0.config
  {
    hide CompareOf, HasCritical, Step, FoundByFlag, TargetsFound;
    if n > 0 {
      InstallsKeepProvisioned(plan, s0, extra, actions, n - 1, digest);
      var before := Run(s0, actions, n - 1, digest);
      if Step(before, actions[n - 1], digest).Some? {
        ProvisionedStep(plan, before, extra, actions[n - 1], digest);
      }
    }
  }

  lemma ProvisionedStep(plan: Plan, s: State, extra: seq<nat>, a: Action, digest: Digest)
    requires FoundByFlag(s) && TargetsFound(s) && OnlyPair(s) && StaysProvisioned(plan, s, extra)
    requires Step(s, a, digest).Some?
    ensures var next := Step(s, a, digest).value;
            && StaysProvisioned(plan, next, extra) && FoundByFlag(next) && TargetsFound(next) && OnlyPair(next)
            && next.config == s.config
  {
    var next := Step(s, a, digest).value;
    StepKeepsFound(s, a, digest);
    hide Step, TargetsFound, CompareOf, HasCritical, LayoutAgrees, Acceptable;
    CompareExact(plan, s.config, s.active, extra);
    CompareExact(plan, s.config, next.active, extra);
    if next.active != s.active {
      assert Flagged(s.config, next.active);
      FoundIsAcceptable(plan, s.config, extra, next.active);
    }
  }
}
