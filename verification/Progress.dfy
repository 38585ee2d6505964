/** The throttled progress callback of a transfer (src/core/install.rs:242-305).
    Bar positions are exact fractions. */
module Progress {
  import opened Arithmetic

  /** Bytes between two progress lines. */
  const LOG_STEP: nat := 10 * 1024 * 1024

  /** Which stretch of the transfer the last line was logged for; the end is a bucket
      of its own. */
  datatype Bucket = Nothing | At(index: nat) | End

  datatype Line = Percent(pct: nat, read: nat) | Received(read: nat)

  datatype Meter = Meter(
    total: nat,
    base: real,
    span: real,
    lastPct: int,
    lastBucket: Bucket,
    bars: seq<real>,
    lines: seq<Line>)

  function NewMeter(total: nat, base: real, span: real): Meter {
    Meter(total, base, span, -1, Nothing, [], [])
  }

  function Clamp(read: nat, total: nat): nat {
    if read < total then read else total
  }

  function Share(part: nat, total: nat): real
    requires total > 0
  {
    part as real / total as real
  }

  function Pct(read: nat, total: nat): nat
    requires total > 0
  {
    read * 100 / total
  }

  function BucketOf(read: nat, total: nat): Bucket {
    if total > 0 && read == total then End else At(read / LOG_STEP)
  }

  /** The bar position after `n` of `total` bytes of the step. */
  function BarAt(base: real, span: real, n: nat, total: nat): real
    requires total > 0
  {
    base + span * Share(n, total)
  }

  function Report(m: Meter, bucket: Bucket, line: Line): Meter {
    if bucket == m.lastBucket then m else m.(lastBucket := bucket, lines := m.lines + [line])
  }

  /** One call of the closure with the running total. */
  function Tick(m: Meter, read: nat): Meter {
    if m.total > 0 then
      var n := Clamp(read, m.total);
      var pct := Pct(n, m.total);
      var moved :=
        if pct == m.lastPct then m
        else m.(lastPct := pct, bars := m.bars + [BarAt(m.base, m.span, n, m.total)]);
      Report(moved, BucketOf(n, m.total), Percent(pct, n))
    else Report(m, At(read / LOG_STEP), Received(read))
  }

  class ProgressCallback {
    const total: nat
    const base: real
    const span: real
    var meter: Meter
    /** Whether the last call moved the bar. */
    var moved: bool
    ghost var calls: seq<nat>

    /** The meter stands where the calls so far have brought it. */
    ghost predicate Valid()
      reads this
    {
      meter == Ticks(NewMeter(total, base, span), calls)
    }

    constructor (total: nat, base: real, span: real)
      ensures this.total == total && this.base == base && this.span == span
      ensures Valid() && meter == NewMeter(total, base, span) && calls == []
    {
      this.total, this.base, this.span := total, base, span;
      meter := NewMeter(total, base, span);
      moved := false;
      calls := [];
    }

    /** What a transfer that came to `length` bytes has reported. */
    ghost predicate Reported(length: nat)
      reads this
    {
      total > 0 && span >= 0.0 ==>
        && meter.total == total
        && BarsWithin(meter, length)
        && (length > 0 ==> BarClose(meter, length))
        && Hundreds(meter.lines) == (if length >= total then 1 else 0)
    }

    lemma Completed(length: nat)
      requires Valid() && RisingTo(calls, length)
      ensures Reported(length)
    {
      if total > 0 && span >= 0.0 {
        TransferReport(total, base, span, calls);
      }
    }

    method Call(read: nat)
      requires Valid()
      modifies this
      ensures Valid()
      ensures meter == Tick(old(meter), read) && calls == old(calls) + [read]
      ensures moved <==> meter.bars != old(meter).bars
    {
      TicksAppend(NewMeter(total, base, span), calls, read);
      hide BarAt, Pct, Ticks;
      moved := false;
      if meter.total > 0 {
        var n := Clamp(read, meter.total);
        var pct := Pct(n, meter.total);
        if pct != meter.lastPct {
          moved := true;
          meter := meter.(lastPct := pct,
                          bars := meter.bars + [BarAt(meter.base, meter.span, n, meter.total)]);
        }
        var bucket := BucketOf(n, meter.total);
        if bucket != meter.lastBucket {
          meter := meter.(lastBucket := bucket, lines := meter.lines + [Percent(pct, n)]);
        }
      } else {
        var bucket := At(read / LOG_STEP);
        if bucket != meter.lastBucket {
          meter := meter.(lastBucket := bucket, lines := meter.lines + [Received(read)]);
        }
      }
      calls := calls + [read];
    }
  }

  // --- a whole transfer ---------------------------------------------------------

  function Ticks(m: Meter, totals: seq<nat>): Meter {
    if totals == [] then m else Tick(Ticks(m, totals[..|totals| - 1]), totals[|totals| - 1])
  }

  lemma TicksAppend(m: Meter, totals: seq<nat>, read: nat)
    ensures Ticks(m, totals + [read]) == Tick(Ticks(m, totals), read)
  {
    assert (totals + [read])[..|totals|] == totals;
  }

  /** A tick moves the bar to where the bytes put it or not at all, and keeps the rest. */
  lemma TickMoves(m: Meter, read: nat)
    ensures var t := Tick(m, read);
            && t.total == m.total && t.base == m.base && t.span == m.span
            && (m.total == 0 ==> t.bars == m.bars)
            && (m.total > 0 ==>
                  t.bars == m.bars || t.bars == m.bars + [BarAt(m.base, m.span, Clamp(read, m.total), m.total)])
  {
    hide BarAt, Pct;
  }

  /** Strictly rising running totals that end at `last`. */
  ghost predicate RisingTo(calls: seq<nat>, last: nat) {
    && (forall i, j :: 0 <= i < j < |calls| ==> calls[i] < calls[j])
    && (forall i :: 0 <= i < |calls| ==> 0 < calls[i] <= last)
    && (last > 0 ==> calls != [] && calls[|calls| - 1] == last)
  }

  lemma RisesFurther(calls: seq<nat>, last: nat, next: nat)
    requires RisingTo(calls, last) && last < next
    ensures RisingTo(calls + [next], next)
  {
  }

  lemma NoCalls()
    ensures RisingTo([], 0)
  {
  }

  predicate Rising(totals: seq<nat>) {
    forall i, j :: 0 <= i < j < |totals| ==> totals[i] <= totals[j]
  }

  /** How many lines say 100%. */
  function Hundreds(lines: seq<Line>): nat {
    if lines == [] then 0
    else Hundreds(lines[..|lines| - 1]) + match lines[|lines| - 1]
                                          case Percent(pct, _) => (if pct == 100 then 1 else 0)
                                          case Received(_) => 0
  }

  lemma HundredsAppend(lines: seq<Line>, line: Line)
    ensures Hundreds(lines + [line]) == Hundreds(lines) + if line.Percent? && line.pct == 100 then 1 else 0
  {
    assert (lines + [line])[..|lines|] == lines;
  }

  lemma PctIsHundred(read: nat, total: nat)
    requires total > 0 && read <= total
    ensures Pct(read, total) == 100 <==> read == total
  {
    FloorAtLeast(read * 100, total, 100);
    FloorAtLeast(read * 100, total, 101);
  }

  lemma ShareOrdered(a: nat, b: nat, total: nat)
    requires total > 0 && a <= b <= total
    ensures 0.0 <= Share(a, total) <= Share(b, total) <= 1.0
  {
    var t := total as real;
    assert (b as real - a as real) / t >= 0.0;
    assert b as real / t - a as real / t == (b as real - a as real) / t;
    assert (t - b as real) / t >= 0.0;
  }

  lemma SpanOrdered(span: real, a: real, b: real)
    requires span >= 0.0 && a <= b
    ensures span * a <= span * b
  {
    assert span * (b - a) >= 0.0;
  }

  /** Bar positions so far: rising, inside the step's slice, and at most where the
      bytes counted so far put them. */
  ghost predicate BarsWithin(m: Meter, read: nat)
    requires m.total > 0
  {
    && (forall i :: 0 <= i < |m.bars| ==>
          m.base <= m.bars[i] <= BarAt(m.base, m.span, Clamp(read, m.total), m.total))
    && (forall i, j :: 0 <= i < j < |m.bars| ==> m.bars[i] <= m.bars[j])
  }

  /** The bar trails the bytes by less than a hundredth of the slice, and has come to its
      end with the last of them. */
  ghost predicate BarClose(m: Meter, read: nat)
    requires m.total > 0
  {
    && m.bars != []
    && BarAt(m.base, m.span, Clamp(read, m.total), m.total) - m.bars[|m.bars| - 1] <= m.span / 100.0
    && (read >= m.total ==> m.bars[|m.bars| - 1] == m.base + m.span)
  }

  lemma BarsMove(m: Meter, from: nat, to: nat)
    requires m.total > 0 && m.span >= 0.0 && from <= to && BarsWithin(m, from)
    ensures BarsWithin(Tick(m, to), to)
  {
    var a, b := Clamp(from, m.total), Clamp(to, m.total);
    BarOrdered(m.base, m.span, a, b, m.total);
    hide BarAt, Pct;
    var next := BarAt(m.base, m.span, b, m.total);
    assert forall i :: 0 <= i < |m.bars| ==> m.base <= m.bars[i] <= next;
    var bars := Tick(m, to).bars;
    assert bars == m.bars || bars == m.bars + [next];
  }

  lemma BarOrdered(base: real, span: real, a: nat, b: nat, total: nat)
    requires total > 0 && span >= 0.0 && a <= b <= total
    ensures base <= BarAt(base, span, a, total) <= BarAt(base, span, b, total)
  {
    ShareOrdered(a, b, total);
    SpanOrdered(span, Share(a, total), Share(b, total));
    SpanOrdered(span, 0.0, Share(a, total));
  }

  /** The bar stands where some earlier total of the same percentage put it. */
  ghost predicate BarStands(m: Meter, n: nat, last: nat)
    requires m.total > 0
  {
    && m.bars != [] && last <= n <= m.total
    && m.lastPct == Pct(last, m.total) == Pct(n, m.total)
    && m.bars[|m.bars| - 1] == BarAt(m.base, m.span, last, m.total)
  }

  /** Where the bar stands after any rising running totals, none yet included. */
  lemma {:induction false} BarKeepsUp(total: nat, base: real, span: real, totals: seq<nat>) returns (last: nat)
    requires total > 0 && Rising(totals)
    ensures var m := Ticks(NewMeter(total, base, span), totals);
            && m.total == total && m.base == base && m.span == span
            && (totals == [] ==> m.lastPct == -1)
            && (totals != [] ==> BarStands(m, Clamp(totals[|totals| - 1], total), last))
  {
    last := 0;
    if totals != [] {
      var init := totals[..|totals| - 1];
      var n := Clamp(totals[|totals| - 1], total);
      last := BarKeepsUp(total, base, span, init);
      hide Pct, BarAt;
      if Pct(n, total) != Ticks(NewMeter(total, base, span), init).lastPct {
        last := n;
      }
    }
  }

  /** Two totals of one percentage are less than a hundredth of the whole apart. */
  lemma SamePercent(last: nat, n: nat, total: nat)
    requires total > 0 && last <= n <= total && Pct(last, total) == Pct(n, total)
    ensures 100 * (n - last) <= total
    ensures n == total ==> last == total
  {
    PctIsHundred(last, total);
    PctIsHundred(n, total);
    var p := Pct(n, total);
    FloorAtLeast(n * 100, total, p + 1);
    FloorAtLeast(last * 100, total, p);
    hide Pct;
    assert (p + 1) * total == p * total + total;
  }

  lemma WithinOnePercent(base: real, span: real, last: nat, n: nat, total: nat)
    requires total > 0 && span >= 0.0 && last <= n <= total && Pct(last, total) == Pct(n, total)
    ensures BarAt(base, span, n, total) - BarAt(base, span, last, total) <= span / 100.0
    ensures n == total ==> BarAt(base, span, last, total) == base + span
  {
    SamePercent(last, n, total);
    hide Pct;
    var t := total as real;
    assert Share(n, total) - Share(last, total) == (n as real - last as real) / t;
    HundredthOf(n - last, total);
    SpanOrdered(span, (n as real - last as real) / t, 0.01);
    assert t / t == 1.0;
  }

  lemma StandsClose(m: Meter, read: nat, last: nat)
    requires m.total > 0 && m.span >= 0.0 && BarStands(m, Clamp(read, m.total), last)
    ensures BarClose(m, read)
  {
    hide Pct, BarAt;
    WithinOnePercent(m.base, m.span, last, Clamp(read, m.total), m.total);
  }

  lemma HundredthOf(d: nat, total: nat)
    requires total > 0 && 100 * d <= total
    ensures d as real / total as real <= 0.01
  {
    assert 100.0 * d as real <= total as real;
    assert (total as real - 100.0 * d as real) / total as real >= 0.0;
  }

  /** The bar keeps to the slice and under the bytes, and the 100% line is counted. */
  lemma {:induction false} ReportSoFar(total: nat, base: real, span: real, totals: seq<nat>)
    requires total > 0 && span >= 0.0 && Rising(totals)
    ensures var m := Ticks(NewMeter(total, base, span), totals);
            && m.total == total && m.base == base && m.span == span
            && BarsWithin(m, if totals == [] then 0 else totals[|totals| - 1])
            && Hundreds(m.lines) == (if totals != [] && totals[|totals| - 1] >= total then 1 else 0)
            && (totals != [] ==> m.lastBucket == BucketOf(Clamp(totals[|totals| - 1], total), total))
  {
    if totals != [] {
      var init := totals[..|totals| - 1];
      var last := totals[|totals| - 1];
      ReportSoFar(total, base, span, init);
      var before := Ticks(NewMeter(total, base, span), init);
      BarsMove(before, if init == [] then 0 else init[|init| - 1], last);
      PctIsHundred(Clamp(last, total), total);
      HundredsAppend(before.lines, Percent(Pct(Clamp(last, total), total), Clamp(last, total)));
      hide Pct, BarAt, BarsWithin, Hundreds;
    }
  }

  /** For any rising running totals: the bar rises inside the step's slice, within one
      hundredth of it of where the bytes put it, and stands at its end once they are all
      there; the 100% line is logged once if the total is reached and never otherwise. */
  lemma TransferReport(total: nat, base: real, span: real, totals: seq<nat>)
    requires total > 0 && span >= 0.0 && Rising(totals)
    ensures var m := Ticks(NewMeter(total, base, span), totals);
            && m.total == total && m.base == base && m.span == span
            && BarsWithin(m, if totals == [] then 0 else totals[|totals| - 1])
            && (totals != [] ==> BarClose(m, totals[|totals| - 1]))
            && Hundreds(m.lines) == (if totals != [] && totals[|totals| - 1] >= total then 1 else 0)
  {
    ReportSoFar(total, base, span, totals);
    var last := BarKeepsUp(total, base, span, totals);
    hide *;
    if totals != [] {
      StandsClose(Ticks(NewMeter(total, base, span), totals), totals[|totals| - 1], last);
    }
  }

  /** With no published size the bar is left alone, and a line is logged only when the
      transfer enters another stretch. */
  lemma {:induction false} UnknownSizeReport(base: real, span: real, totals: seq<nat>)
    ensures var m := Ticks(NewMeter(0, base, span), totals);
            && m.total == 0 && m.bars == []
            && (forall i :: 0 <= i < |m.lines| ==> m.lines[i].Received?)
            && (m.lastBucket == Nothing <==> totals == [])
            && (totals != [] ==>
                  && m.lastBucket == At(totals[|totals| - 1] / 10_485_760)
                  && m.lines != []
                  && m.lines[|m.lines| - 1].read / 10_485_760 == totals[|totals| - 1] / 10_485_760)
            && (forall i :: 0 <= i < |m.lines| - 1 ==> m.lines[i].read / 10_485_760 != m.lines[i + 1].read / 10_485_760)
  {
    if totals != [] {
      UnknownSizeReport(base, span, totals[..|totals| - 1]);
    }
  }
}
