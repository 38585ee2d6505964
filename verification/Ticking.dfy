/** The install run's event trace and its weighted progress bar
    (src/core/install.rs:107-159, 265-305). */
module Ticking {
  import opened Bytes
  import opened Progress
  import opened Profiles
  import opened BootPair

  /** The commands and writes that destroy what the target held. */
  datatype Destruction =
    | Wipe
    | PartitionTable
    | LoaderWrite
    | BootLuWrite(id: u8)
    | BootMenuWrite
    | RecoveryWrite
    | MakeFilesystem
    | PackReceive(profile: string)
    | MetadataWrite

  datatype Event =
    | Bar(at: real)
    | Began(weight: nat)
    | Checked(file: PackFile, verdict: Verdict)
    | ReadFrom(file: PackFile)
    | Destroyed(target: Destruction)
    | Wrote(what: Destruction, verdict: Verdict)
    | Switched(id: u8)

  /** The controller, as far as a run goes: what it was told, in order. */
  class Ctrl {
    var trace: seq<Event>

    constructor ()
      ensures trace == []
    {
      trace := [];
    }

    method Emit(e: Event)
      modifies this
      ensures trace == old(trace) + [e]
    {
      trace := trace + [e];
    }
  }

  /** The weights of the steps begun so far. */
  function Begun(trace: seq<Event>): nat {
    if trace == [] then 0
    else Begun(trace[..|trace| - 1]) + if trace[|trace| - 1].Began? then trace[|trace| - 1].weight else 0
  }

  lemma BegunAppend(trace: seq<Event>, e: Event)
    ensures Begun(trace + [e]) == Begun(trace) + if e.Began? then e.weight else 0
  {
    assert (trace + [e])[..|trace|] == trace;
  }

  /** The bar never moves back and stays at or under `limit`. */
  ghost predicate BarsRise(trace: seq<Event>) {
    && (forall i :: 0 <= i < |trace| && trace[i].Bar? ==> trace[i].at >= 0.0)
    && (forall i, j :: 0 <= i < j < |trace| && trace[i].Bar? && trace[j].Bar? ==> trace[i].at <= trace[j].at)
  }

  ghost predicate BarsUnder(trace: seq<Event>, limit: real) {
    forall i :: 0 <= i < |trace| && trace[i].Bar? ==> trace[i].at <= limit
  }

  lemma BarAppended(trace: seq<Event>, at: real)
    requires BarsRise(trace) && BarsUnder(trace, at) && at >= 0.0
    ensures BarsRise(trace + [Bar(at)]) && BarsUnder(trace + [Bar(at)], at)
  {
  }

  lemma OtherAppended(trace: seq<Event>, e: Event, limit: real)
    requires BarsRise(trace) && BarsUnder(trace, limit) && !e.Bar?
    ensures BarsRise(trace + [e]) && BarsUnder(trace + [e], limit)
  {
  }

  lemma BarsUnderMore(trace: seq<Event>, limit: real, more: real)
    requires BarsUnder(trace, limit) && limit <= more
    ensures BarsUnder(trace, more)
  {
  }

  lemma ShareAdds(a: nat, b: nat, total: nat)
    requires total > 0
    ensures Share(a, total) + Share(b, total) == Share(a + b, total)
    ensures Share(a, total) >= 0.0
  {
    var t := total as real;
    assert a as real / t + b as real / t == (a as real + b as real) / t;
  }

  /** The bytes a sequence of chunks comes to. */
  function Total(chunks: seq<nat>): nat {
    if chunks == [] then 0 else Total(chunks[..|chunks| - 1]) + chunks[|chunks| - 1]
  }

  class Ticker {
    var done: nat
    var current: nat
    const total: nat

    constructor (weight: nat)
      ensures done == 0 && current == 0 && total == weight
    {
      done, current, total := 0, 0, weight;
    }

    /** The steps begun weigh what the ticker has counted, within the total, and the
        bar has risen no further than they allow. */
    ghost predicate Ok(ctrl: Ctrl)
      reads this, ctrl
    {
      && total > 0
      && Begun(ctrl.trace) == done + current <= total
      && BarsRise(ctrl.trace)
      && BarsUnder(ctrl.trace, Share(done + current, total))
    }

    /** The step under way has not moved the bar yet. */
    ghost predicate AtStart(ctrl: Ctrl)
      reads this, ctrl
    {
      Ok(ctrl) && BarsUnder(ctrl.trace, Share(done, total))
    }

    method Begin(ctrl: Ctrl, weight: nat)
      requires Ok(ctrl) && done + current + weight <= total
      modifies this, ctrl
      ensures done == old(done + current) && current == weight
      ensures AtStart(ctrl)
      ensures ctrl.trace == old(ctrl.trace) + [Bar(Share(done, total)), Began(weight)]
    {
      hide Share, BarsRise, BarsUnder, Begun;
      done := done + current;
      current := weight;
      ghost var was := ctrl.trace;
      ShareAdds(done, 0, total);
      BarAppended(was, Share(done, total));
      BegunAppend(was, Bar(Share(done, total)));
      ctrl.Emit(Bar(Share(done, total)));
      ghost var next := ctrl.trace;
      BegunAppend(next, Began(weight));
      OtherAppended(next, Began(weight), Share(done, total));
      ctrl.Emit(Began(weight));
      ShareOrdered(done, done + weight, total);
      BarsUnderMore(ctrl.trace, Share(done, total), Share(done + weight, total));
      assert ctrl.trace == was + [Bar(Share(done, total)), Began(weight)];
    }

    /** An event that is neither a step nor a bar movement. */
    method Note(ctrl: Ctrl, e: Event)
      requires Ok(ctrl) && !e.Bar? && !e.Began?
      modifies ctrl
      ensures Ok(ctrl) && (old(AtStart(ctrl)) ==> AtStart(ctrl))
      ensures ctrl.trace == old(ctrl.trace) + [e]
    {
      ghost var was := ctrl.trace;
      hide Share, BarsRise, Begun;
      BegunAppend(was, e);
      OtherAppended(was, e, Share(done + current, total));
      ctrl.Emit(e);
    }

    /** Where a transfer stands after `read` bytes: the callback's bar positions and the
        ones in the trace stay within what has been read. */
    ghost predicate Moving(ctrl: Ctrl, callback: ProgressCallback, size: nat, read: nat)
      reads this, ctrl, callback
    {
      && Ok(ctrl)
      && callback.total == size && callback.base == Share(done, total) && callback.span == Share(current, total)
      && callback.meter.total == size
      && callback.meter.base == Share(done, total) && callback.meter.span == Share(current, total)
      && (size == 0 ==> callback.meter.bars == [])
      && (size > 0 ==>
            && BarsWithin(callback.meter, read)
            && BarsUnder(ctrl.trace, BarAt(Share(done, total), Share(current, total), Clamp(read, size), size)))
    }

    /** One chunk of a transfer. */
    method Round(ctrl: Ctrl, callback: ProgressCallback, size: nat, read: nat, chunk: nat)
      requires Moving(ctrl, callback, size, read) && callback.Valid() && RisingTo(callback.calls, read)
      requires chunk > 0
      modifies ctrl, callback
      ensures Moving(ctrl, callback, size, read + chunk) && callback.Valid() && RisingTo(callback.calls, read + chunk)
      ensures callback.meter.bars == old(callback.meter.bars) ==> ctrl.trace == old(ctrl.trace)
      ensures callback.meter.bars != old(callback.meter.bars) ==>
                callback.meter.bars != []
                && ctrl.trace == old(ctrl.trace) + [Bar(callback.meter.bars[|callback.meter.bars| - 1])]
    {
      ShareAdds(done, current, total);
      ShareAdds(current, 0, total);
      hide Share, Pct, BarsRise, Begun, BarAt, RisingTo, ProgressCallback.Valid;
      RisesFurther(callback.calls, read, read + chunk);
      ghost var meter := callback.meter;
      TickMoves(meter, read + chunk);
      hide Tick;
      callback.Call(read + chunk);
      if size > 0 {
        ghost var limit := BarAt(Share(done, total), Share(current, total), Clamp(read + chunk, size), size);
        BarsMove(meter, read, read + chunk);
        BarsMoved(ctrl.trace, meter.base, meter.span, read, read + chunk, size);
        BarWithinStep(Share(done, total), Share(current, total), Clamp(read + chunk, size), size);
        ghost var next := callback.meter.bars;
        if callback.meter.bars != [] && callback.moved {
          assert next[|next| - 1] == limit;
          MoveBar(ctrl, callback.meter.bars[|callback.meter.bars| - 1]);
        }
      }
    }

    /** A transfer of the current step with its progress callback attached, in chunks of
        any size; a read that returns nothing is not reported. The bar moves within the
        step's slice and is left within one hundredth of it of where the bytes put it, at
        its end if the published size is reached, and 100% is logged once then. */
    method Transfer(ctrl: Ctrl, size: nat, chunks: seq<nat>) returns (lines: seq<Line>)
      requires AtStart(ctrl)
      modifies ctrl
      ensures Ok(ctrl)
      ensures old(ctrl.trace) <= ctrl.trace
      ensures forall k :: |old(ctrl.trace)| <= k < |ctrl.trace| ==> ctrl.trace[k].Bar?
      ensures size > 0 ==> Hundreds(lines) == if Total(chunks) >= size then 1 else 0
      ensures size > 0 && Total(chunks) > 0 ==>
                && |ctrl.trace| > |old(ctrl.trace)|
                && var at := ctrl.trace[|ctrl.trace| - 1].at;
                   && BarAt(Share(done, total), Share(current, total), Clamp(Total(chunks), size), size) - at
                      <= Share(current, total) / 100.0
                   && (Total(chunks) >= size ==> at == Share(done, total) + Share(current, total))
    {
      ShareAdds(current, 0, total);
      var callback := new ProgressCallback(size, Share(done, total), Share(current, total));
      if size > 0 {
        BarStarts(Share(done, total), Share(current, total), size);
      }
      NoCalls();
      assert callback.span >= 0.0;
      StartsMoving(ctrl, callback, size);
      hide Moving, Share, RisingTo, ProgressCallback.Valid, ProgressCallback.Reported, BarAt, Hundreds, Clamp, Ok, AtStart;
      var read := Feed(ctrl, callback, size, chunks);
      StillOk(ctrl, callback, size, read);
      callback.Completed(read);
      BarLanded(ctrl, callback, old(ctrl.trace), size, read);
      LinesCounted(callback, size, read);
      lines := callback.meter.lines;
    }

    /** The chunks of a transfer, one by one. */
    method Feed(ctrl: Ctrl, callback: ProgressCallback, size: nat, chunks: seq<nat>) returns (read: nat)
      requires Moving(ctrl, callback, size, 0) && callback.Valid() && callback.calls == []
      requires callback.meter.bars == []
      modifies ctrl, callback
      ensures Moving(ctrl, callback, size, read) && callback.Valid() && RisingTo(callback.calls, read)
      ensures read == Total(chunks)
      ensures old(ctrl.trace) <= ctrl.trace && LastBar(old(ctrl.trace), ctrl.trace, callback.meter.bars)
      ensures forall k :: |old(ctrl.trace)| <= k < |ctrl.trace| ==> ctrl.trace[k].Bar?
    {
      NoCalls();
      hide Moving, Share, RisingTo, ProgressCallback.Valid;
      read := 0;
      assert chunks[..|chunks|] == chunks;
      for k := 0 to |chunks|
        invariant Moving(ctrl, callback, size, read)
        invariant callback.Valid() && RisingTo(callback.calls, read)
        invariant read == Total(chunks[..k])
        invariant old(ctrl.trace) <= ctrl.trace && LastBar(old(ctrl.trace), ctrl.trace, callback.meter.bars)
        invariant forall j :: |old(ctrl.trace)| <= j < |ctrl.trace| ==> ctrl.trace[j].Bar?
      {
        assert chunks[..k + 1][..k] == chunks[..k];
        if chunks[k] > 0 {
          Round(ctrl, callback, size, read, chunks[k]);
          read := read + chunks[k];
        }
      }
    }

    lemma LinesCounted(callback: ProgressCallback, size: nat, read: nat)
      requires callback.total == size && callback.Reported(read) && callback.span >= 0.0
      ensures size > 0 ==> Hundreds(callback.meter.lines) == if read >= size then 1 else 0
    {
    }

    lemma BarLanded(ctrl: Ctrl, callback: ProgressCallback, before: seq<Event>, size: nat, read: nat)
      requires Moving(ctrl, callback, size, read) && callback.Reported(read) && callback.span >= 0.0
      requires LastBar(before, ctrl.trace, callback.meter.bars)
      ensures size > 0 && read > 0 ==>
                && |ctrl.trace| > |before| && ctrl.trace[|ctrl.trace| - 1].Bar?
                && var at := ctrl.trace[|ctrl.trace| - 1].at;
                   && BarAt(Share(done, total), Share(current, total), Clamp(read, size), size) - at
                      <= Share(current, total) / 100.0
                   && (read >= size ==> at == Share(done, total) + Share(current, total))
    {
      hide Share, BarAt, BarsRise, Begun, BarsUnder, BarsWithin, Hundreds;
    }

    /** The last bar position reported is the last event. */
    ghost predicate LastBar(before: seq<Event>, after: seq<Event>, bars: seq<real>) {
      bars != [] ==> |after| > |before| && after[|after| - 1] == Bar(bars[|bars| - 1])
    }

    lemma StartsMoving(ctrl: Ctrl, callback: ProgressCallback, size: nat)
      requires AtStart(ctrl) && callback.meter == NewMeter(size, Share(done, total), Share(current, total))
      requires callback.total == size && callback.base == Share(done, total) && callback.span == Share(current, total)
      requires size > 0 ==> BarAt(Share(done, total), Share(current, total), 0, size) == Share(done, total)
      ensures Moving(ctrl, callback, size, 0)
    {
    }

    lemma StillOk(ctrl: Ctrl, callback: ProgressCallback, size: nat, read: nat)
      requires Moving(ctrl, callback, size, read)
      ensures Ok(ctrl)
    {
    }

    method MoveBar(ctrl: Ctrl, at: real)
      requires Ok(ctrl) && BarsUnder(ctrl.trace, at) && 0.0 <= at <= Share(done + current, total)
      modifies ctrl
      ensures Ok(ctrl) && ctrl.trace == old(ctrl.trace) + [Bar(at)] && BarsUnder(ctrl.trace, at)
    {
      hide Share, Begun, BarsRise;
      ghost var was := ctrl.trace;
      BegunAppend(was, Bar(at));
      BarAppended(was, at);
      BarsUnderMore(was + [Bar(at)], at, Share(done + current, total));
      ctrl.Emit(Bar(at));
    }
  }

  lemma BarStarts(base: real, span: real, size: nat)
    requires size > 0
    ensures BarAt(base, span, 0, size) == base
  {
  }

  lemma BarWithinStep(base: real, span: real, n: nat, size: nat)
    requires size > 0 && span >= 0.0 && n <= size
    ensures base <= BarAt(base, span, n, size) <= base + span
  {
    BarOrdered(base, span, n, size, size);
    assert size as real / size as real == 1.0;
    BarOrdered(base, span, 0, n, size);
  }

  lemma BarsMoved(trace: seq<Event>, base: real, span: real, from: nat, to: nat, size: nat)
    requires size > 0 && span >= 0.0 && from <= to
    requires BarsUnder(trace, BarAt(base, span, Clamp(from, size), size))
    ensures BarsUnder(trace, BarAt(base, span, Clamp(to, size), size))
  {
    BarOrdered(base, span, Clamp(from, size), Clamp(to, size), size);
  }
}
