/** The byte pipeline's write of a bootloader, seen as steps of the A/B update: whatever
    `write_source_to_offset` answers (src/core/install.rs:2044-2090), the boot LU and
    the update end as `install_uboot` takes them (src/core/install.rs:1207-1251). */
module BootWrites {
  import opened Wrappers
  import opened Bytes
  import opened BootPair
  import opened Streams

  function Flatten(chunks: seq<seq<u8>>): seq<u8> {
    if chunks == [] then [] else Flatten(chunks[..|chunks| - 1]) + chunks[|chunks| - 1]
  }

  function Chunks(chunks: seq<seq<u8>>): (r: seq<Action>)
    ensures |r| == |chunks|
  {
    seq(|chunks|, i requires 0 <= i < |chunks| => Chunk(chunks[i]))
  }

  lemma {:induction false} FlattenPrefix(chunks: seq<seq<u8>>, n: nat)
    requires n <= |chunks|
    ensures |Flatten(chunks[..n])| <= |Flatten(chunks)|
    ensures n < |chunks| ==>
              Flatten(chunks[..n + 1]) == Flatten(chunks[..n]) + chunks[n]
              && |Flatten(chunks[..n + 1])| <= |Flatten(chunks)|
  {
    if n < |chunks| {
      var m := |chunks| - 1;
      assert chunks[..n + 1][..n] == chunks[..n];
      FlattenPrefix(chunks[..m], if n < m then n + 1 else m);
      if n < m {
        assert chunks[..m][..n + 1] == chunks[..n + 1];
        FlattenPrefix(chunks[..m], n);
        assert chunks[..m][..n] == chunks[..n];
      } else {
        assert chunks[..n + 1] == chunks && chunks[..m][..m] == chunks[..m];
      }
    } else {
      assert chunks[..n] == chunks;
    }
  }

  /** The actions before the `n`th decide where a history stands. */
  lemma {:induction false} RunPrefix(s: State, a: seq<Action>, b: seq<Action>, n: nat, digest: Digest)
    requires n <= |a| && n <= |b| && a[..n] == b[..n]
    ensures Run(s, a, n, digest) == Run(s, b, n, digest)
  {
    hide Step;
    if n > 0 {
      assert a[n - 1] == a[..n][n - 1] == b[..n][n - 1] == b[n - 1];
      assert a[..n - 1] == a[..n][..n - 1] && b[..n - 1] == b[..n][..n - 1];
      RunPrefix(s, a, b, n - 1, digest);
    }
  }

  /** After some chunks the LU holds them from 32 KiB on, whatever their sizes. */
  lemma {:induction false} ChunksLand(s: State, chunks: seq<seq<u8>>, n: nat, digest: Digest)
    requires s.phase.Writing? && s.phase.sent == [] && !s.phase.synced && s.phase.target in s.lus && n <= |chunks|
    requires LOADER_START + |Flatten(chunks)| <= |s.lus[s.phase.target]|
    ensures var sent := Flatten(chunks[..n]);
            LOADER_START + |sent| <= |s.lus[s.phase.target]|
            && Run(s, Chunks(chunks), n, digest)
               == s.(lus := s.lus[s.phase.target := Landed(s.lus[s.phase.target], LOADER_START, sent)],
                     phase := s.phase.(sent := sent))
  {
    FlattenPrefix(chunks, n);
    if n == 0 {
      assert chunks[..0] == [];
      assert s.lus[s.phase.target := s.lus[s.phase.target]] == s.lus;
    } else {
      ChunksLand(s, chunks, n - 1, digest);
      FlattenPrefix(chunks, n - 1);
      hide Flatten, Landed, Splice, Step;
      OneMoreLands(s, Flatten(chunks[..n - 1]), chunks[n - 1], digest);
    }
  }

  lemma OneMoreLands(s: State, sent: seq<u8>, chunk: seq<u8>, digest: Digest)
    requires s.phase.Writing? && !s.phase.synced && s.phase.target in s.lus
    requires LOADER_START + |sent| + |chunk| <= |s.lus[s.phase.target]|
    ensures var lu := s.lus[s.phase.target];
            Step(s.(lus := s.lus[s.phase.target := Landed(lu, LOADER_START, sent)], phase := s.phase.(sent := sent)),
                 Chunk(chunk), digest)
            == Some(s.(lus := s.lus[s.phase.target := Landed(lu, LOADER_START, sent + chunk)],
                       phase := s.phase.(sent := sent + chunk)))
  {
    var lu := s.lus[s.phase.target];
    SplicesOn(lu, sent, chunk);
    hide Landed, Splice, Verify;
    var after := Landed(lu, LOADER_START, sent + chunk);
    assert s.lus[s.phase.target := Landed(lu, LOADER_START, sent)][s.phase.target := after] == s.lus[s.phase.target := after];
  }

  lemma SplicesOn(lu: seq<u8>, sent: seq<u8>, chunk: seq<u8>)
    requires LOADER_START + |sent| + |chunk| <= |lu|
    ensures Splice(Landed(lu, LOADER_START, sent), LOADER_START + |sent|, chunk) == Landed(lu, LOADER_START, sent + chunk)
  {
    LandedExtends(lu, LOADER_START, sent, chunk);
    if chunk == [] {
      var r := Landed(lu, LOADER_START, sent);
      assert Splice(r, LOADER_START + |sent|, []) == r;
    }
  }

  /** How a write ends: a copy or a sync that fails stops it, and otherwise it is synced
      before its digest is judged. */
  function Ending(r: Result<bool, WriteError>): seq<Action> {
    if r == Failure(CannotCopy) then [Stop] else [Sync, Finish]
  }

  /** Every outcome of the write is a history of the update: chunks of any sizes, ended
      by a sync and a `Finish` when all of the image was copied and by `Stop` when the
      copy failed. The LU ends with the bytes the write left on it, on its medium too
      unless the copy failed, the booted LU is the same, and the update goes on to
      switch exactly when the answer was true and there is another LU to switch from. */
  lemma WriteIsHistory(s: State, chunks: seq<seq<u8>>, r: Result<bool, WriteError>, written: nat, digest: Digest)
    returns (actions: seq<Action>)
    requires s.phase.Writing? && s.phase.sent == [] && !s.phase.synced && s.phase.target in s.lus
    requires var job := s.phase.job; Outcome(job.image, job.expected, job.policy, digest, r, written)
    requires Flatten(chunks) == s.phase.job.image[..written]
    requires LOADER_START + written <= |s.lus[s.phase.target]|
    ensures actions == Chunks(chunks) + Ending(r)
    ensures var end := Run(s, actions, |actions|, digest);
            var Writing(target, believed, job, _, _) := s.phase;
            var lu := Landed(s.lus[target], LOADER_START, job.image[..written]);
            && end.lus == s.lus[target := lu]
            && end.media == (if r == Failure(CannotCopy) then s.media else s.media[target := lu])
            && end.active == s.active && end.config == s.config
            && end.done == (if r == Success(true) then s.done + [Installed(target, job.image, job)] else s.done)
            && end.phase == (if r == Success(true) && target != believed then Switching(target) else Idle)
  {
    var n := |chunks|;
    actions := Chunks(chunks) + Ending(r);
    ChunksLand(s, chunks, n, digest);
    assert chunks[..n] == chunks;
    assert actions[..n] == Chunks(chunks) == Chunks(chunks)[..n];
    RunPrefix(s, actions, Chunks(chunks), n, digest);
    var before := Run(s, actions, n, digest);
    hide Landed, Flatten, Verify;
    LastSteps(before, r, written, digest);
    if r != Failure(CannotCopy) {
      hide Step, Outcome;
      assert Run(s, actions, n + 1, digest) == Synced(before);
    }
  }

  /** An update whose write has been synced. */
  function Synced(s: State): State
    requires s.phase.Writing? && s.phase.target in s.lus
  {
    s.(media := s.media[s.phase.target := s.lus[s.phase.target]], phase := s.phase.(synced := true))
  }

  /** The steps that end a write. */
  lemma LastSteps(s: State, r: Result<bool, WriteError>, written: nat, digest: Digest)
    requires s.phase.Writing? && s.phase.target in s.lus
    requires written <= |s.phase.job.image| && s.phase.sent == s.phase.job.image[..written]
    requires Outcome(s.phase.job.image, s.phase.job.expected, s.phase.job.policy, digest, r, written)
    ensures var Writing(target, believed, job, _, _) := s.phase;
            var done := if r == Success(true) then s.done + [Installed(target, job.image, job)] else s.done;
            var phase := if r == Success(true) && target != believed then Switching(target) else Idle;
            && (r == Failure(CannotCopy) ==> Step(s, Stop, digest) == Some(s.(done := done, phase := phase)))
            && (r != Failure(CannotCopy) ==>
                  && Step(s, Sync, digest) == Some(Synced(s))
                  && Step(Synced(s), Finish, digest) == Some(Synced(s).(done := done, phase := phase)))
  {
    hide Verify;
    match r
    case Failure(CannotCopy) =>
    case Failure(DigestMismatch) => assert s.phase.sent == s.phase.job.image;
    case Success(_) => assert s.phase.sent == s.phase.job.image;
  }

  /** A history is its parts, one after the other. */
  lemma {:induction false} RunOn(s: State, a: seq<Action>, b: seq<Action>, n: nat, digest: Digest)
    requires n <= |b|
    ensures Run(s, a + b, |a| + n, digest) == Run(Run(s, a, |a|, digest), b, n, digest)
  {
    hide Step;
    if n == 0 {
      assert (a + b)[..|a|] == a == a[..|a|];
      RunPrefix(s, a + b, a, |a|, digest);
    } else {
      RunOn(s, a, b, n - 1, digest);
      assert (a + b)[|a| + n - 1] == b[n - 1];
    }
  }

  /** Answers a write of the whole image may give. */
  function WholeAnswer(good: bool, policy: Policy): Result<bool, WriteError> {
    if good then Success(true) else if policy == Policy.Fail then Failure(DigestMismatch) else Success(false)
  }

  /** An update that is not cut short, on a device with both sides (A is 1, B is 2): the image lands on
      the other side, and that side is what boots from then on, unless the digest was
      found wrong, in which case what boots stays. Nothing else on the device changes. */
  lemma UpdateSwitchesOver(s: State, job: Job, chunks: seq<seq<u8>>, digest: Digest) returns (actions: seq<Action>)
    requires s.phase == Idle && Flatten(chunks) == job.image
    requires var other: u8 := if s.active == 0x01 then 0x02 else 0x01;
             other in s.lus && 0x8000 + |job.image| <= |s.lus[other]|
    ensures actions == [Begin(job, true)] + Chunks(chunks) + [Sync, Finish, Switch]
    ensures var other: u8 := if s.active == 0x01 then 0x02 else 0x01;
            var end := Run(s, actions, |actions|, digest);
            && end.phase == Idle && end.config == s.config
            && end.active == (if FoundWrong(digest(job.image), job.expected) then s.active else other)
            && other in end.media && other in end.lus && end.media[other] == end.lus[other]
            && |end.media[other]| == |s.lus[other]|
            && end.media[other][0x8000..0x8000 + |job.image|] == job.image
            && end.media[other][..0x8000] == s.lus[other][..0x8000]
            && end.media[other][0x8000 + |job.image|..] == s.lus[other][0x8000 + |job.image|..]
            && end.lus - {other} == s.lus - {other} && end.media - {other} == s.media - {other}
  {
    var other: u8 := if s.active == 0x01 then 0x02 else 0x01;
    LandedParts(s.lus[other], job.image);
    hide Landed, Flatten, Run, FoundWrong;
    var lu := Landed(s.lus[other], LOADER_START, job.image);
    actions := UpdateEnds(s, job, chunks, other, digest);
    assert s.lus[other := lu] - {other} == s.lus - {other};
    assert s.media[other := lu] - {other} == s.media - {other};
  }

  /** Where an update that is not cut short ends. */
  lemma UpdateEnds(s: State, job: Job, chunks: seq<seq<u8>>, other: u8, digest: Digest) returns (actions: seq<Action>)
    requires s.phase == Idle && Flatten(chunks) == job.image && ChooseTarget(s, true) == Some(Target(other, s.active))
    requires other in s.lus && other != s.active && LOADER_START + |job.image| <= |s.lus[other]|
    ensures actions == [Begin(job, true)] + Chunks(chunks) + [Sync, Finish, Switch]
    ensures var end := Run(s, actions, |actions|, digest);
            var lu := Landed(s.lus[other], LOADER_START, job.image);
            && end.phase == Idle && end.config == s.config
            && end.active == (if FoundWrong(digest(job.image), job.expected) then s.active else other)
            && end.lus == s.lus[other := lu] && end.media == s.media[other := lu]
  {
    var good := Verify(digest(job.image), job.expected) != Mismatched;
    var r := WholeAnswer(good, job.policy);
    assert job.image[..|job.image|] == job.image;
    var s1 := s.(phase := Writing(other, s.active, job, [], false));
    var begin := [Begin(job, true)];
    assert Run(s, begin, 1, digest) == s1;
    hide Flatten, Landed, FoundWrong, Step;
    var write := WriteIsHistory(s1, chunks, r, |job.image|, digest);
    actions := begin + write + [Switch];
    assert actions == begin + Chunks(chunks) + [Sync, Finish, Switch];
    RunOn(s, begin, write, |write|, digest);
    RunOn(s, begin + write, [Switch], 1, digest);
    hide Run, Outcome;
    SwitchEnds(Run(s, begin + write, |begin + write|, digest), digest);
  }

  lemma SwitchEnds(s: State, digest: Digest)
    requires s.phase.Idle? || s.phase.Switching?
    ensures Run(s, [Switch], 1, digest)
            == if s.phase.Switching? then s.(active := s.phase.target, phase := Idle) else s
  {
    assert Run(s, [Switch], 0, digest) == s;
  }

  lemma LandedParts(lu: seq<u8>, image: seq<u8>)
    requires 0x8000 + |image| <= |lu|
    ensures var r := Landed(lu, LOADER_START, image);
            && |r| == |lu| && r[0x8000..0x8000 + |image|] == image
            && r[..0x8000] == lu[..0x8000] && r[0x8000 + |image|..] == lu[0x8000 + |image|..]
  {
  }
}
