/** What `apply` sends a device, byte by byte where it matters and in which order
    (src/core/provision.rs:1299-1347). */
module CommandOrder {
  import opened Bytes
  import opened Ufs
  import opened SchemeModel
  import opened Planning
  import opened PlanFacts
  import opened Comparison
  import opened Reprovision
  import opened ReprovisionFacts

  function ClearCommands(clear: seq<(nat, Desc)>): (r: seq<Command>)
    ensures |r| == |clear|
  {
    seq(|clear|, i requires 0 <= i < |clear| => WriteConfig(clear[i].0, clear[i].1.bytes))
  }

  /** Every command of an attempt in which nothing fails. */
  function Script(plan: Plan, needsWrite: bool): seq<Command> {
    (if needsWrite then ClearCommands(plan.clear) + [WriteConfig(0, plan.descriptor.bytes)] else [])
    + [WriteBootLunEn(plan.bootLunEn), SetDeviceInit]
  }

  ghost predicate Sendable(plan: Plan) {
    && 0 < |plan.descriptor.bytes| <= 255
    && forall k :: 0 <= k < |plan.clear| ==> 0 < |plan.clear[k].1.bytes| <= 255
  }

  lemma {:induction false} ClearsSent(d: Device, plan: Plan, i: nat, w: World)
    requires i <= |plan.clear| && Sendable(plan)
    ensures var (error, after) := ClearsOf(d, plan.clear, i, w);
            && d.commands <= after.commands <= d.commands + ClearCommands(plan.clear)[i..]
            && (error.None? ==> after.commands == d.commands + ClearCommands(plan.clear)[i..])
    decreases |plan.clear| - i
  {
    var all := ClearCommands(plan.clear);
    if i < |plan.clear| {
      assert all[i..] == [all[i]] + all[i + 1..];
      var next := WriteOf(d, plan.clear[i].0, plan.clear[i].1.bytes, w).1;
      assert next.commands == d.commands + [all[i]];
      ClearsSent(next, plan, i + 1, w);
      assert next.commands + all[i + 1..] == d.commands + all[i..];
    }
  }

  /** However an attempt fails, it has sent the beginning of that script, and all of it
      when it does not. */
  lemma SentIsPrefix(d: Device, plan: Plan, needsWrite: bool, w: World)
    requires Sendable(plan)
    ensures var (error, after) := WriteAll(d, plan, needsWrite, w);
            && d.commands <= after.commands <= d.commands + Script(plan, needsWrite)
            && (error.None? ==> after.commands == d.commands + Script(plan, needsWrite))
  {
    var clears := ClearCommands(plan.clear);
    var last := [WriteBootLunEn(plan.bootLunEn), SetDeviceInit];
    ClearsSent(d, plan, 0, w);
    hide ClearsOf, ClearCommands;
    if needsWrite {
      var (error, cleared) := ClearsOf(d, plan.clear, 0, w);
      var write := [WriteConfig(0, plan.descriptor.bytes)];
      assert clears[0..] == clears;
      assert d.commands + Script(plan, true) == d.commands + clears + write + last;
      if error.None? {
        var written := WriteOf(cleared, 0, plan.descriptor.bytes, w).1;
        assert written.commands == d.commands + clears + write;
        SwitchSent(written, plan.bootLunEn, w);
      }
    } else {
      assert Script(plan, false) == last;
      SwitchSent(d, plan.bootLunEn, w);
    }
  }

  lemma SwitchSent(d: Device, value: u8, w: World)
    ensures var (error, after) := SwitchOf(d, value, w);
            var both := d.commands + [WriteBootLunEn(value), SetDeviceInit];
            && d.commands <= after.commands <= both && (error.None? ==> after.commands == both)
  {
    assert d.commands + [WriteBootLunEn(value)] + [SetDeviceInit] == d.commands + [WriteBootLunEn(value), SetDeviceInit];
  }

  /** A clearing descriptor is empty but for its length, its type and the mark that more
      descriptors follow. */
  lemma ClearBytes(dev: DeviceDescriptor)
    requires dev.Valid()
    ensures ClearDesc(dev).bytes == [dev.ConfigDescLen() % 0x100, 0x01, 0x01] + Zeros(dev.ConfigDescLen() - 3)
  {
  }

  /** The planned descriptor is a configuration descriptor that nothing follows. */
  lemma PlannedIsLast(spec: Spec, dev: DeviceDescriptor, geo: GeometryDescriptor)
    requires Planned(spec, dev, geo)
    ensures var b := PlanOf(spec, dev, geo).value.descriptor.bytes;
            |b| >= 0x90 && b[0] == dev.ConfigDescLen() % 0x100 && b[1] == 0x01 && b[2] == 0x00
  {
    PlanLayout(spec, dev, geo);
    HeaderBytes(spec, dev, WbOf(spec, dev, geo));
    hide PlanOf, HeaderDesc, PlanWriteBooster;
  }

  /** One configuration write as it must be: index 0 carries the plan and says that
      nothing follows, any other clears its LUs and says that more does. */
  ghost predicate WellMarked(c: Command) {
    c.WriteConfig? ==>
      && |c.bytes| > 2 && c.bytes[1] == 0x01
      && (if c.index == 0 then c.bytes[2] == 0x00
          else c.index <= 3 && c.bytes[2] == 0x01 && forall k :: 3 <= k < |c.bytes| ==> c.bytes[k] == 0)
  }

  /** The place of a command in the order: clearing, the plan, the attribute, the
      initialisation. */
  function Rank(c: Command): nat {
    match c
    case WriteConfig(index, _) => if index == 0 then 1 else 0
    case WriteBootLunEn(_) => 2
    case SetDeviceInit => 3
  }

  ghost predicate InOrder(sent: seq<Command>) {
    && (forall i :: 0 <= i < |sent| ==> WellMarked(sent[i]))
    && (forall i, j :: 0 <= i < j < |sent| ==> Rank(sent[i]) <= Rank(sent[j]) && (Rank(sent[i]) > 0 ==> Rank(sent[i]) < Rank(sent[j])))
  }

  lemma ScriptInOrder(plan: Plan, needsWrite: bool)
    requires WellMarked(WriteConfig(0, plan.descriptor.bytes))
    requires forall k :: 0 <= k < |plan.clear| ==>
               plan.clear[k].0 != 0 && WellMarked(WriteConfig(plan.clear[k].0, plan.clear[k].1.bytes))
    ensures InOrder(Script(plan, needsWrite))
  {
    assert WellMarked(WriteBootLunEn(plan.bootLunEn)) && WellMarked(SetDeviceInit);
    hide WellMarked;
    var s := Script(plan, needsWrite);
    var n := if needsWrite then |plan.clear| else 0;
    assert forall i :: 0 <= i < n ==> s[i] == WriteConfig(plan.clear[i].0, plan.clear[i].1.bytes);
    assert needsWrite ==> s[n] == WriteConfig(0, plan.descriptor.bytes);
    assert |s| == n + if needsWrite then 3 else 2;
    assert s[|s| - 2] == WriteBootLunEn(plan.bootLunEn) && s[|s| - 1] == SetDeviceInit;
  }

  lemma ProbedClears(d: Device, spec: Spec)
    requires Legal(d, spec) && ProbeOf(d, spec).Success?
    ensures var plan := ProbeOf(d, spec).value.plan;
            && Sendable(plan) && plan.bootLunEn == spec.active
            && plan.descriptor == PlanOf(spec, d.dev, d.geo).value.descriptor
            && WellMarked(WriteConfig(0, plan.descriptor.bytes))
            && |plan.clear| == |ExtraEnabled(d)|
            && forall k :: 0 <= k < |plan.clear| ==>
                 && plan.clear[k].0 == ExtraEnabled(d)[k] && plan.clear[k].0 != 0
                 && WellMarked(WriteConfig(plan.clear[k].0, plan.clear[k].1.bytes))
  {
    ProbedLengths(d, spec);
    ProbedPlan(d, spec);
    PlannedIsLast(spec, d.dev, d.geo);
    ExtraIsAboveZero(d, 4);
    hide PlanOf, ProbeOf, HoldsLus, ExtraBelow, ClearDesc;
    ClearIsMarked(d.dev);
  }

  lemma ClearIsMarked(dev: DeviceDescriptor)
    requires dev.Valid()
    ensures forall index: nat :: 0 < index <= 3 ==> WellMarked(WriteConfig(index, ClearDesc(dev).bytes))
  {
    ClearBytes(dev);
    hide ClearDesc;
  }

  /** Nothing was left out: every LU above 7 cleared and the plan written, if a write was
      called for, and the device initialised. */
  ghost predicate SentAll(sent: seq<Command>, needsWrite: bool, extra: seq<nat>) {
    && |sent| >= 2 && sent[|sent| - 2].WriteBootLunEn? && sent[|sent| - 1] == SetDeviceInit
    && (needsWrite ==>
          && (exists i :: 0 <= i < |sent| && sent[i].WriteConfig? && sent[i].index == 0)
          && forall k :: 0 <= k < |extra| ==> exists i :: 0 <= i < |sent| && sent[i].WriteConfig? && sent[i].index == extra[k])
  }

  lemma ScriptSendsAll(plan: Plan, needsWrite: bool, extra: seq<nat>)
    requires |plan.clear| == |extra| && forall k :: 0 <= k < |extra| ==> plan.clear[k].0 == extra[k]
    ensures SentAll(Script(plan, needsWrite), needsWrite, extra)
  {
    var s := Script(plan, needsWrite);
    if needsWrite {
      var n := |plan.clear|;
      assert s[n] == WriteConfig(0, plan.descriptor.bytes);
      assert forall k :: 0 <= k < n ==> s[k] == WriteConfig(extra[k], plan.clear[k].1.bytes);
    }
  }

  /** What an attempt sends, however it fails: the beginning of the script, or nothing,
      and all of it when it succeeds having sent anything. */
  lemma AttemptSends(d: Device, spec: Spec, w: World) returns (sent: seq<Command>)
    requires Legal(d, spec) && ProbeOf(d, spec).Success? && Sendable(ProbeOf(d, spec).value.plan)
    ensures var (r, after) := ApplyOf(d, spec, w);
            var status := ProbeOf(d, spec).value;
            && after.commands == d.commands + sent
            && sent <= Script(status.plan, NeedsWrite(status.mismatches))
            && (r.Success? ==> sent == [] || sent == Script(status.plan, NeedsWrite(status.mismatches)))
  {
    var status := ProbeOf(d, spec).value;
    var needsWrite := NeedsWrite(status.mismatches);
    Attempt(d, spec, w);
    hide ApplyOf, ProbeOf, NeedsWrite, WriteAll, Provisioned, Script, Sendable, HasCritical, Legal;
    sent := [];
    if Proceeds(d, status, w) {
      SentIsPrefix(d, status.plan, needsWrite, w);
      sent := WriteAll(d, status.plan, needsWrite, w).1.commands[|d.commands|..];
      SuffixOf(d.commands, sent, Script(status.plan, needsWrite));
    } else {
      assert d.commands + [] == d.commands;
    }
  }

  lemma SuffixOf(before: seq<Command>, sent: seq<Command>, script: seq<Command>)
    ensures before + sent <= before + script ==> sent <= script
    ensures before + sent == before + script ==> sent == script
  {
    assert (before + sent)[|before|..] == sent && (before + script)[|before|..] == script;
  }

  lemma InOrderPrefix(sent: seq<Command>, script: seq<Command>)
    requires sent <= script && InOrder(script)
    ensures InOrder(sent)
  {
    hide WellMarked, Rank;
  }

  lemma ScriptSays(plan: Plan, needsWrite: bool, sent: seq<Command>)
    requires sent <= Script(plan, needsWrite)
    requires forall k :: 0 <= k < |plan.clear| ==> plan.clear[k].0 != 0
    ensures forall i :: 0 <= i < |sent| && sent[i].WriteBootLunEn? ==> sent[i].value == plan.bootLunEn
    ensures forall i :: 0 <= i < |sent| && sent[i].WriteConfig? && sent[i].index == 0 ==>
              sent[i].bytes == plan.descriptor.bytes
  {
  }

  /** Whatever fails, the commands an attempt sends come in order: every descriptor that
      clears LUs above 7 first, marked as followed by more, then the plan, marked as the
      last, then the attribute, then the initialisation, which makes the device act. An
      attempt that succeeds has left none of them out. */
  lemma CommandsInOrder(d: Device, spec: Spec, w: World) returns (sent: seq<Command>)
    requires Legal(d, spec) && ProbeOf(d, spec).Success?
    ensures var (r, after) := ApplyOf(d, spec, w);
            && after.commands == d.commands + sent
            && InOrder(sent)
            && (forall i :: 0 <= i < |sent| && sent[i].WriteBootLunEn? ==> sent[i].value == spec.active)
            && PlanOf(spec, d.dev, d.geo).Success?
            && (forall i :: 0 <= i < |sent| && sent[i].WriteConfig? && sent[i].index == 0 ==>
                  sent[i].bytes == PlanOf(spec, d.dev, d.geo).value.descriptor.bytes)
            && (r.Success? ==> sent == [] || SentAll(sent, NeedsWrite(ProbeOf(d, spec).value.mismatches), ExtraEnabled(d)))
  {
    var plan := ProbeOf(d, spec).value.plan;
    var needsWrite := NeedsWrite(ProbeOf(d, spec).value.mismatches);
    ProbedPlan(d, spec);
    ProbedClears(d, spec);
    hide ApplyOf, ProbeOf, NeedsWrite, PlanOf, InOrder, Script, SentAll, ExtraEnabled, Sendable, Legal, WellMarked;
    sent := AttemptSends(d, spec, w);
    ScriptInOrder(plan, needsWrite);
    InOrderPrefix(sent, Script(plan, needsWrite));
    ScriptSays(plan, needsWrite, sent);
    ScriptSendsAll(plan, needsWrite, ExtraEnabled(d));
  }
}
