/** Reading artifacts and writing them out (src/core/fetch.rs:95-225,
    src/core/install.rs:209-228, 2038-2090; src/core/stage.rs:459-495). */
module Streams {
  import opened Wrappers
  import opened Bytes
  import opened Progress
  import opened BootPair

  const MAX_RESUMES: nat := 4

  /** What the transport does on one request: hand over at most `max` bytes, be
      interrupted, or break, in which case the open body may have moved anywhere. An
      exhausted script means nothing goes wrong any more. */
  datatype Answer = Data(max: nat) | Interrupted | Broken(lost: nat)

  datatype ReadResult = Got(n: nat) | Interrupt | Error

  /** What is left of a script after one answer. */
  function Rest(script: seq<Answer>): seq<Answer> {
    if script == [] then [] else script[1..]
  }

  ghost predicate IsTail(script: seq<Answer>, of: seq<Answer>) {
    |script| <= |of| && script == of[|of| - |script|..]
  }

  /** A break that no resume could mend: one after which no more may be asked for, or
      whose range the server did not serve. */
  ghost predicate GaveUp(script: seq<Answer>, spent: bool) {
    exists i :: 0 <= i < |script| && script[i].Broken? && (spent || (i + 1 < |script| && !script[i + 1].Data?))
  }

  lemma TailGaveUp(script: seq<Answer>, of: seq<Answer>, spent: bool)
    requires IsTail(script, of)
    ensures GaveUp(script, spent) ==> GaveUp(of, spent)
    ensures forall s :: IsTail(s, script) ==> IsTail(s, of)
  {
    var d := |of| - |script|;
    if GaveUp(script, spent) {
      var i :| 0 <= i < |script| && script[i].Broken? && (spent || (i + 1 < |script| && !script[i + 1].Data?));
      assert of[d + i].Broken? && (spent || (d + i + 1 < |of| && !of[d + i + 1].Data?));
    }
  }

  lemma RestIsTail(script: seq<Answer>, of: seq<Answer>)
    ensures IsTail(of, of)
    ensures IsTail(script, of) ==> IsTail(Rest(script), of)
  {
  }

  lemma BreakGivesUp(script: seq<Answer>, of: seq<Answer>, spent: bool)
    requires IsTail(script, of) && script != [] && script[0].Broken?
    requires spent || (|script| > 1 && !script[1].Data?)
    ensures GaveUp(of, spent)
  {
    TailGaveUp(script, of, spent);
  }

  // --- the resuming reader ------------------------------------------------------

  /** A reader over an artifact: a body that resumes itself when it comes from a
      server, a plain file otherwise. `at` is where the open body continues, `requests`
      counts the range requests sent. */
  class Reader {
    const artifact: seq<u8>
    const remote: bool
    var at: nat
    var read: nat
    var resumes: nat
    var script: seq<Answer>
    ghost var requests: nat

    /** Range requests are sent for counted resumes only, and within the limit. */
    ghost predicate Valid()
      reads this
    {
      at <= |artifact| && read <= |artifact| && requests == resumes <= MAX_RESUMES
    }

    /** The open body continues where the last call stopped: true until a read fails. */
    ghost predicate Live()
      reads this
    {
      at == read
    }

    /** No further resume would help: a file has none, and a server's are used up or
        have nothing left to deliver. */
    ghost predicate Spent()
      reads this
    {
      !remote || resumes == MAX_RESUMES || read == |artifact|
    }

    constructor (bytes: seq<u8>, fromServer: bool, transport: seq<Answer>)
      ensures Valid() && Live() && requests == 0
      ensures artifact == bytes && remote == fromServer && read == 0 && script == transport
    {
      artifact, remote, at, read, resumes, script := bytes, fromServer, 0, 0, 0, transport;
      requests := 0;
    }

    method Fill(buf: array<u8>, data: seq<u8>)
      requires |data| <= buf.Length
      modifies buf
      ensures buf[..|data|] == data
      ensures forall k :: |data| <= k < buf.Length ==> buf[k] == old(buf[k])
    {
      for i := 0 to |data|
        invariant buf[..i] == data[..i]
        invariant forall k :: i <= k < buf.Length ==> buf[k] == old(buf[k])
      {
        buf[i] := data[i];
      }
    }

    /** One read of the open body. */
    method ReadBody(buf: array<u8>) returns (r: ReadResult)
      requires at <= |artifact|
      modifies `at, `script, buf
      ensures at <= |artifact|
      ensures match r
              case Got(n) =>
                && n <= buf.Length && at == old(at) + n
                && buf[..n] == artifact[old(at)..at]
                && (forall k :: n <= k < buf.Length ==> buf[k] == old(buf[k]))
                && (n == 0 ==> buf.Length == 0 || at == |artifact|)
              case Interrupt => at == old(at) && buf[..] == old(buf[..]) && |script| < |old(script)|
              case Error => buf[..] == old(buf[..]) && |script| < |old(script)| && old(script)[0].Broken?
      ensures script == Rest(old(script))
    {
      var allowed := |artifact| - at;
      if script != [] {
        var answer := script[0];
        script := script[1..];
        match answer {
          case Interrupted => return Interrupt;
          case Broken(lost) =>
            at := if lost < |artifact| then lost else |artifact|;
            return Error;
          case Data(max) =>
            if 0 < max < allowed {
              allowed := max;
            }
        }
      }
      var n := if buf.Length < allowed then buf.Length else allowed;
      Fill(buf, artifact[at..at + n]);
      at := at + n;
      return Got(n);
    }

    /** `resume`: ask for the object from `read` on. The server must serve the range;
        there is none to serve at its end. */
    method Resume() returns (ok: bool)
      requires at <= |artifact| && read <= |artifact| && requests < MAX_RESUMES
      modifies `at, `script, `requests
      ensures ok ==> Live()
      ensures ok <==> read < |artifact| && (old(script) == [] || old(script)[0].Data?)
      ensures at <= |artifact| && requests == old(requests) + 1
      ensures script == Rest(old(script))
    {
      requests := requests + 1;
      var served := read < |artifact|;
      if script != [] {
        if !script[0].Data? {
          served := false;
        }
        script := script[1..];
      }
      if served {
        at := read;
      }
      return served;
    }

    /** `read` refines a reader without faults: what it hands out continues exactly
        where the last call stopped, across any pattern of breaks, wherever they leave
        the body, and resumes. It ends the stream only at the object's end, and sends at
        most `MAX_RESUMES` range requests in its life. It fails only over a break that no
        resume could mend. */
    method Read(buf: array<u8>) returns (r: ReadResult)
      requires Valid() && Live()
      modifies this, buf
      ensures Valid() && (r != Error ==> Live())
      ensures match r
              case Got(n) =>
                && n <= buf.Length && read == old(read) + n
                && buf[..n] == artifact[old(read)..read]
                && (forall k :: n <= k < buf.Length ==> buf[k] == old(buf[k]))
                && (n == 0 ==> buf.Length == 0 || read == |artifact|)
              case Interrupt => !remote && read == old(read) && |script| < |old(script)|
              case Error => read == old(read) && GaveUp(old(script), Spent())
      ensures IsTail(script, old(script))
      ensures old(resumes) <= resumes && (!remote ==> resumes == old(resumes))
    {
      hide IsTail, GaveUp;
      RestIsTail(script, script);
      ghost var whole := script;
      if !remote {
        r := ReadBody(buf);
        if r == Error {
          BreakGivesUp(whole, whole, true);
        }
        if r.Got? {
          read := at;
        }
        return;
      }
      while true
        invariant Valid() && Live() && read == old(read) && old(resumes) <= resumes
        invariant buf[..] == old(buf[..])
        invariant IsTail(script, whole)
        decreases |script|
      {
        ghost var left := script;
        var got := ReadBody(buf);
        RestIsTail(left, whole);
        match got {
          case Got(n) =>
            read := read + n;
            assert forall k :: 0 <= k < buf.Length ==> old(buf[..])[k] == old(buf[k]);
            return got;
          case Interrupt =>
          case Error =>
            if resumes >= MAX_RESUMES {
              BreakGivesUp(left, whole, true);
              return Error;
            }
            resumes := resumes + 1;
            RestIsTail(script, whole);
            var ok := Resume();
            if !ok {
              BreakGivesUp(left, whole, Spent());
              return Error;
            }
        }
      }
    }
  }

  // --- adapters ---------------------------------------------------------------------

  /** The digest: all that matters of it is which bytes it was fed, in order. */
  class Sha256 {
    var fed: seq<u8>

    constructor ()
      ensures fed == []
    {
      fed := [];
    }

    method Update(bytes: seq<u8>)
      modifies this
      ensures fed == old(fed) + bytes
    {
      fed := fed + bytes;
    }
  }

  class Digesting {
    const inner: Reader
    const sha: Sha256

    constructor (reader: Reader, digest: Sha256)
      ensures inner == reader && sha == digest
    {
      inner, sha := reader, digest;
    }

    /** Everything handed out so far, and nothing else, has been fed to the digest. */
    ghost predicate Valid()
      reads this, inner, sha
    {
      inner.Valid() && sha.fed == inner.artifact[..inner.read]
    }

    ghost predicate Live()
      reads this, inner
    {
      inner.Live()
    }

    method Read(buf: array<u8>) returns (r: ReadResult)
      requires Valid() && Live()
      modifies inner, sha, buf
      ensures Valid() && (r != Error ==> Live())
      ensures match r
              case Got(n) =>
                && n <= buf.Length && inner.read == old(inner.read) + n
                && buf[..n] == inner.artifact[old(inner.read)..inner.read]
                && (n == 0 ==> buf.Length == 0 || inner.read == |inner.artifact|)
              case Interrupt => inner.read == old(inner.read) && |inner.script| < |old(inner.script)|
              case Error => inner.read == old(inner.read) && GaveUp(old(inner.script), inner.Spent())
      ensures IsTail(inner.script, old(inner.script))
    {
      ghost var before := inner.read;
      r := inner.Read(buf);
      if r.Got? && r.n > 0 {
        sha.Update(buf[..r.n]);
        assert inner.artifact[..before] + inner.artifact[before..inner.read] == inner.artifact[..inner.read];
      }
    }
  }

  class ProgressReader {
    const inner: Digesting
    const progress: ProgressCallback
    var read: nat

    constructor (reader: Digesting, callback: ProgressCallback)
      requires reader.inner.read == 0 && callback.Valid() && callback.calls == []
      ensures inner == reader && progress == callback && read == 0
    {
      inner, progress, read := reader, callback, 0;
    }

    /** The callback has seen strictly rising totals, the last being what was read. */
    ghost predicate Valid()
      reads this, inner, inner.inner, inner.sha, progress
    {
      inner.Valid() && read == inner.inner.read && progress.Valid() && RisingTo(progress.calls, read)
    }

    ghost predicate Live()
      reads this, inner, inner.inner
    {
      inner.Live()
    }

    method Read(buf: array<u8>) returns (r: ReadResult)
      requires Valid() && Live()
      modifies this, inner.inner, inner.sha, progress, buf
      ensures Valid() && (r != Error ==> Live()) && read <= |inner.inner.artifact|
      ensures match r
              case Got(n) =>
                && n <= buf.Length && read == old(read) + n
                && buf[..n] == inner.inner.artifact[old(read)..read]
                && (n == 0 ==> buf.Length == 0 || read == |inner.inner.artifact|)
              case Interrupt => read == old(read) && |inner.inner.script| < |old(inner.inner.script)|
              case Error => read == old(read) && GaveUp(old(inner.inner.script), inner.inner.Spent())
      ensures IsTail(inner.inner.script, old(inner.inner.script))
    {
      r := inner.Read(buf);
      if r.Got? && r.n > 0 {
        read := read + r.n;
        progress.Call(read);
      }
    }
  }

  // --- writing to a device ------------------------------------------------------

  /** A block device being written: writes fail past its end, and may fail sooner. */
  class Disk {
    const bytes: array<u8>
    var faults: seq<nat>
    var synced: bool
    const syncFails: bool

    constructor (size: nat, failing: bool)
      ensures bytes.Length == size && fresh(bytes) && syncFails == failing
    {
      bytes := new u8[size](_ => 0);
      faults, synced, syncFails := [], true, failing;
    }

    /** `sync_all`, which may fail: what was written is on the medium only if it did not. */
    method Sync() returns (ok: bool)
      modifies `synced
      ensures synced == ok == !syncFails
    {
      ok := !syncFails;
      synced := ok;
    }

    /** `write_all` at `at`: on an error some prefix has landed. */
    method WriteAll(at: nat, data: seq<u8>) returns (landed: nat)
      modifies bytes, `faults, `synced
      ensures landed <= |data| && (landed == 0 || at + landed <= bytes.Length)
      ensures bytes[..] == Landed(old(bytes[..]), at, data[..landed])
      ensures landed < |data| ==> old(faults) != [] || bytes.Length < at + |data|
      ensures old(faults) == [] ==> faults == []
      ensures !synced
    {
      synced := false;
      var limit := if bytes.Length <= at then 0 else bytes.Length - at;
      if faults != [] {
        if faults[0] < limit {
          limit := faults[0];
        }
        faults := faults[1..];
      }
      landed := if |data| < limit then |data| else limit;
      for i := 0 to landed
        modifies bytes
        invariant forall k :: 0 <= k < bytes.Length ==>
                    bytes[k] == if at <= k < at + i then data[k - at] else old(bytes[k])
      {
        bytes[at + i] := data[i];
      }
      assert bytes[..] == Landed(old(bytes[..]), at, data[..landed]);
    }
  }

  /** A buffer with a run of bytes written at `at`; nothing written changes nothing. */
  function Landed(s: seq<u8>, at: nat, data: seq<u8>): (r: seq<u8>)
    requires data == [] || at + |data| <= |s|
    ensures |r| == |s|
  {
    if data == [] then s else Splice(s, at, data)
  }

  lemma LandedExtends(s: seq<u8>, at: nat, xs: seq<u8>, ys: seq<u8>)
    requires xs == [] || at + |xs| <= |s|
    requires ys == [] || at + |xs| + |ys| <= |s|
    ensures Landed(Landed(s, at, xs), at + |xs|, ys) == Landed(s, at, xs + ys)
  {
    if xs == [] {
      assert xs + ys == ys;
    } else if ys == [] {
      assert xs + ys == xs;
    } else {
      SpliceAdjacent(s, at, xs, ys);
    }
  }

  lemma ChunkPrefix(artifact: seq<u8>, written: nat, n: nat, chunk: seq<u8>, landed: nat)
    requires landed <= n && written + n <= |artifact| && chunk == artifact[written..written + n]
    ensures chunk[..landed] == artifact[written..written + landed]
  {
  }

  datatype CopyState = Going | Finished | Stopped

  /** One round of the copy: read what there is, then put all of it on the device. */
  method CopyStep(reader: ProgressReader, disk: Disk, offset: nat, written: nat, buf: array<u8>)
    returns (state: CopyState, now: nat)
    requires reader.Valid() && reader.Live() && reader.read == written && buf.Length > 0 && buf != disk.bytes
    requires written <= |reader.inner.inner.artifact| && (written == 0 || offset + written <= disk.bytes.Length)
    modifies reader, reader.inner.inner, reader.inner.sha, reader.progress, disk.bytes, disk, buf
    ensures reader.Valid()
    ensures written <= now <= |reader.inner.inner.artifact| && (now == 0 || offset + now <= disk.bytes.Length)
    ensures disk.bytes[..] == Landed(old(disk.bytes[..]), offset + written, reader.inner.inner.artifact[written..now])
    ensures state != Stopped ==> reader.read == now && reader.Live()
    ensures state == Finished ==> now == |reader.inner.inner.artifact|
    ensures state == Going ==> now > written || |reader.inner.inner.script| < |old(reader.inner.inner.script)|
    ensures IsTail(reader.inner.inner.script, old(reader.inner.inner.script))
    ensures state == Stopped ==>
              || GaveUp(old(reader.inner.inner.script), reader.inner.inner.Spent())
              || old(disk.faults) != [] || disk.bytes.Length < offset + |reader.inner.inner.artifact|
    ensures old(disk.faults) == [] ==> disk.faults == []
  {
    hide Landed, GaveUp, IsTail, ProgressReader.Valid, ProgressReader.Live;
    ghost var artifact := reader.inner.inner.artifact;
    NothingLanded(disk.bytes[..], offset + written);
    assert artifact[written..written] == [];
    var r := reader.Read(buf);
    match r {
      case Interrupt => return Going, written;
      case Error => return Stopped, written;
      case Got(n) =>
        if n == 0 {
          return Finished, written;
        }
        var landed := disk.WriteAll(offset + written, buf[..n]);
        ChunkPrefix(artifact, written, n, buf[..n], landed);
        return if landed < n then Stopped else Going, written + landed;
    }
  }

  /** `io::copy` onto the device. Whatever happens, the device holds a prefix of the
      object at the offset and is otherwise unchanged; on success it holds all of it,
      the digest was fed exactly those bytes, and progress ended at the length. */
  method CopyToDisk(reader: ProgressReader, disk: Disk, offset: nat) returns (ok: bool, written: nat)
    requires reader.Valid() && reader.Live() && reader.read == 0
    modifies reader, reader.inner.inner, reader.inner.sha, reader.progress, disk.bytes, disk
    ensures reader.Valid()
    ensures written <= |reader.inner.inner.artifact|
    ensures written == 0 || offset + written <= disk.bytes.Length
    ensures disk.bytes[..] == Landed(old(disk.bytes[..]), offset, reader.inner.inner.artifact[..written])
    ensures ok ==>
              && written == |reader.inner.inner.artifact| == reader.read
              && reader.inner.sha.fed == reader.inner.inner.artifact
              && RisingTo(reader.progress.calls, |reader.inner.inner.artifact|)
              && reader.progress.Reported(|reader.inner.inner.artifact|)
    ensures !ok ==>
              || GaveUp(old(reader.inner.inner.script), reader.inner.inner.Spent())
              || old(disk.faults) != [] || disk.bytes.Length < offset + |reader.inner.inner.artifact|
  {
    hide Landed, RisingTo, ProgressCallback.Reported, Ticks, Tick, GaveUp, IsTail;
    ghost var artifact := reader.inner.inner.artifact;
    var buf := new u8[8 * 1024](_ => 0);
    written := 0;
    NothingLanded(disk.bytes[..], offset);
    assert artifact[..0] == [];
    RestIsTail(reader.inner.inner.script, reader.inner.inner.script);
    while true
      invariant reader.Valid() && reader.Live() && fresh(buf)
      invariant written == reader.read <= |artifact|
      invariant written == 0 || offset + written <= disk.bytes.Length
      invariant disk.bytes[..] == Landed(old(disk.bytes[..]), offset, artifact[..written])
      invariant IsTail(reader.inner.inner.script, old(reader.inner.inner.script))
      invariant old(disk.faults) == [] ==> disk.faults == []
      decreases |artifact| - written, |reader.inner.inner.script|
    {
      ghost var left := reader.inner.inner.script;
      var state, now := CopyStep(reader, disk, offset, written, buf);
      LandedExtends(old(disk.bytes[..]), offset, artifact[..written], artifact[written..now]);
      assert artifact[..written] + artifact[written..now] == artifact[..now];
      written := now;
      TailGaveUp(left, old(reader.inner.inner.script), reader.inner.inner.Spent());
      if state == Stopped {
        return false, written;
      }
      if state == Finished {
        assert artifact[..written] == artifact;
        reader.progress.Completed(written);
        return true, written;
      }
    }
  }

  lemma NothingLanded(s: seq<u8>, at: nat)
    ensures Landed(s, at, []) == s
  {
  }

  datatype WriteError = CannotCopy | DigestMismatch

  /** What `write_source_to_offset` may answer for an image of which it wrote the first
      `written` bytes. */
  ghost predicate Outcome(image: seq<u8>, published: Option<string>, policy: Policy, digest: Digest,
                          r: Result<bool, WriteError>, written: nat)
  {
    && written <= |image|
    && (r.Success? ==>
          && written == |image|
          && (r.value <==> !FoundWrong(digest(image), published))
          && (policy == Policy.Fail ==> r.value))
    && (r == Failure(DigestMismatch) ==>
          policy == Policy.Fail && written == |image| && FoundWrong(digest(image), published))
  }

  /** `write_source_to_offset`: copy, sync, then judge the digest. The answer is whether the
      bytes on the device may be made live. It fails to copy only over a break that no
      resume could mend, a fault of the device, or a device too small. */
  method WriteSourceToOffset(dryRun: bool, source: Reader, disk: Disk, offset: nat, published: Option<string>,
                             policy: Policy, progress: ProgressCallback, digest: Digest)
    returns (r: Result<bool, WriteError>, written: nat)
    requires source.Valid() && source.Live() && source.read == 0 && progress.Valid() && progress.calls == []
    modifies source, progress, disk.bytes, disk
    ensures written <= |source.artifact| && (written == 0 || offset + written <= disk.bytes.Length)
    ensures disk.bytes[..] == Landed(old(disk.bytes[..]), offset, source.artifact[..written])
    ensures dryRun ==> r == Success(true) && written == 0
    ensures !dryRun ==> Outcome(source.artifact, published, policy, digest, r, written)
    ensures !dryRun && r != Failure(CannotCopy) ==>
              && disk.synced && written == |source.artifact|
              && r == if !FoundWrong(digest(source.artifact), published) then Success(true)
                      else if policy == Policy.Fail then Failure(DigestMismatch) else Success(false)
    ensures r == Failure(CannotCopy) ==>
              || GaveUp(old(source.script), source.Spent())
              || old(disk.faults) != [] || disk.bytes.Length < offset + |source.artifact| || disk.syncFails
    ensures !dryRun && r.Success? ==>
              RisingTo(progress.calls, |source.artifact|) && progress.Reported(|source.artifact|)
  {
    if dryRun {
      return Success(true), 0;
    }
    var sha := new Sha256();
    var digesting := new Digesting(source, sha);
    var reader := new ProgressReader(digesting, progress);
    var ok;
    ok, written := CopyToDisk(reader, disk, offset);
    if !ok {
      return Failure(CannotCopy), written;
    }
    ok := disk.Sync();
    if !ok {
      return Failure(CannotCopy), written;
    }
    var verdict := Verify(digest(sha.fed), published);
    if verdict == Mismatched && policy == Policy.Fail {
      return Failure(DigestMismatch), written;
    }
    return Success(verdict != Mismatched), written;
  }

  // --- staging copies ---------------------------------------------------------------

  /** A scratch file being written; a write may fail having appended a prefix. */
  class ScratchFile {
    var bytes: seq<u8>
    var room: nat

    constructor (space: nat)
      ensures bytes == [] && room == space
    {
      bytes, room := [], space;
    }

    method WriteAll(data: seq<u8>) returns (ok: bool)
      modifies this
      ensures ok ==> bytes == old(bytes) + data
      ensures !ok ==> exists k :: 0 <= k < |data| && bytes == old(bytes) + data[..k]
      ensures ok <==> |data| <= old(room)
      ensures ok ==> room == old(room) - |data|
    {
      if |data| <= room {
        bytes, room := bytes + data, room - |data|;
        return true;
      }
      bytes, room := bytes + data[..room], 0;
      return false;
    }
  }

  lemma PartLands(artifact: seq<u8>, total: nat, n: nat, chunk: seq<u8>)
    requires total + n <= |artifact| && chunk == artifact[total..total + n]
    ensures artifact[..total] + chunk == artifact[..total + n]
    ensures forall k :: 0 <= k <= n ==> artifact[..total] + chunk[..k] <= artifact
  {
    forall k | 0 <= k <= n
      ensures artifact[..total] + chunk[..k] <= artifact
    {
      assert artifact[..total] + chunk[..k] == artifact[..total + k];
    }
  }

  /** `copy`: the scratch file ends up holding exactly the object. */
  method Copy(reader: Digesting, out: ScratchFile, progress: ProgressCallback) returns (r: Result<nat, ()>)
    requires reader.Valid() && reader.Live() && reader.inner.read == 0 && out.bytes == [] && progress.Valid() && progress.calls == []
    modifies reader.inner, reader.sha, out, progress
    ensures reader.Valid()
    ensures r.Success? ==>
              && r.value == |reader.inner.artifact|
              && out.bytes == reader.inner.artifact
              && reader.sha.fed == reader.inner.artifact
              && RisingTo(progress.calls, |reader.inner.artifact|)
              && progress.Reported(|reader.inner.artifact|)
    ensures out.bytes <= reader.inner.artifact
    ensures r.Failure? ==>
              GaveUp(old(reader.inner.script), reader.inner.Spent()) || old(out.room) < |reader.inner.artifact|
  {
    ghost var artifact := reader.inner.artifact;
    hide RisingTo, ProgressCallback.Valid, ProgressCallback.Reported, Tick, GaveUp, IsTail;
    NoCalls();
    RestIsTail(reader.inner.script, reader.inner.script);
    var buf := new u8[256 * 1024](_ => 0);
    var total := 0;
    while true
      invariant reader.Valid() && reader.Live() && fresh(buf)
      invariant total == reader.inner.read <= |artifact|
      invariant out.bytes == artifact[..total] && out.room == old(out.room) - total
      invariant progress.Valid() && RisingTo(progress.calls, total)
      invariant IsTail(reader.inner.script, old(reader.inner.script))
      decreases |artifact| - total, |reader.inner.script|
    {
      ghost var left := reader.inner.script;
      var got := reader.Read(buf);
      TailGaveUp(left, old(reader.inner.script), reader.inner.Spent());
      match got {
        case Interrupt =>
        case Error => return Failure(());
        case Got(n) =>
          if n == 0 {
            assert artifact[..total] == artifact;
            progress.Completed(total);
            return Success(total);
          }
          PartLands(artifact, total, n, buf[..n]);
          var ok := out.WriteAll(buf[..n]);
          if !ok {
            return Failure(());
          }
          RisesFurther(progress.calls, total, total + n);
          total := total + n;
          progress.Call(total);
      }
    }
  }

  /** `drain`: the same reading with nothing kept. */
  method Drain(reader: Digesting, progress: ProgressCallback) returns (r: Result<nat, ()>)
    requires reader.Valid() && reader.Live() && reader.inner.read == 0 && progress.Valid() && progress.calls == []
    modifies reader.inner, reader.sha, progress
    ensures reader.Valid()
    ensures r.Success? ==>
              && r.value == |reader.inner.artifact|
              && reader.sha.fed == reader.inner.artifact
              && RisingTo(progress.calls, |reader.inner.artifact|)
              && progress.Reported(|reader.inner.artifact|)
    ensures r.Failure? ==> GaveUp(old(reader.inner.script), reader.inner.Spent())
  {
    hide RisingTo, ProgressCallback.Valid, ProgressCallback.Reported, Tick, GaveUp, IsTail;
    NoCalls();
    RestIsTail(reader.inner.script, reader.inner.script);
    var buf := new u8[256 * 1024](_ => 0);
    var total := 0;
    while true
      invariant reader.Valid() && reader.Live() && fresh(buf)
      invariant total == reader.inner.read <= |reader.inner.artifact|
      invariant progress.Valid() && RisingTo(progress.calls, total)
      invariant IsTail(reader.inner.script, old(reader.inner.script))
      decreases |reader.inner.artifact| - total, |reader.inner.script|
    {
      ghost var left := reader.inner.script;
      var got := reader.Read(buf);
      TailGaveUp(left, old(reader.inner.script), reader.inner.Spent());
      match got {
        case Interrupt =>
        case Error => return Failure(());
        case Got(n) =>
          if n == 0 {
            assert reader.inner.artifact[..total] == reader.inner.artifact;
            progress.Completed(total);
            return Success(total);
          }
          RisesFurther(progress.calls, total, total + n);
          total := total + n;
          progress.Call(total);
      }
    }
  }
}
