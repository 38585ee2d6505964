/** The controller's take-once prompt and its lazy loads (src/core/controller.rs:
    512-546, 926-1051) as interleavings of the sections that hold the lock. */
module Prompts {
  import opened Wrappers

  /** A raised prompt; `id` counts the prompts ever raised. */
  datatype Prompt = Prompt(id: nat, target: string)

  /** A thread between taking the prompt under the lock and acting on it. */
  datatype Thread = Free | Holding(prompt: Prompt)

  /** One call of `start_reprovision`, and the prompt it answers, if it answers one. */
  datatype Start = Start(target: string, answers: Option<nat>)

  datatype State = State(
    prompt: Option<Prompt>,
    raised: seq<string>,
    threads: map<nat, Thread>,
    taken: seq<Prompt>,
    starts: seq<Start>)

  /** The atomic sections: a worker publishing a probe result, either frontend taking
      the prompt to confirm or dismiss it, a confirming thread going on to start, and a
      worker told to reprovision without asking. */
  datatype Action =
    | Raise(target: string)
    | Confirm(thread: nat)
    | Dismiss
    | Proceed(thread: nat)
    | StartUnasked(target: string)

  function ThreadOf(s: State, t: nat): Thread {
    if t in s.threads then s.threads[t] else Free
  }

  /** `take_prompt`: remove the pending prompt, if there is one. */
  function Take(s: State): State {
    match s.prompt
    case None => s
    case Some(p) => s.(prompt := None, taken := s.taken + [p])
  }

  function Step(s: State, a: Action): State {
    match a
    case Raise(target) =>
      s.(prompt := Some(Prompt(|s.raised|, target)), raised := s.raised + [target])
    case Confirm(t) =>
      if ThreadOf(s, t) != Free || s.prompt.None? then s
      else Take(s).(threads := s.threads[t := Holding(s.prompt.value)])
    case Dismiss => Take(s)
    case Proceed(t) =>
      (match ThreadOf(s, t)
       case Free => s
       case Holding(p) => s.(threads := s.threads[t := Free], starts := s.starts + [Start(p.target, Some(p.id))]))
    case StartUnasked(target) => s.(starts := s.starts + [Start(target, None)])
  }

  const INITIAL: State := State(None, [], map[], [], [])

  function Run(actions: seq<Action>): State {
    if actions == [] then INITIAL else Step(Run(actions[..|actions| - 1]), actions[|actions| - 1])
  }

  // --- each prompt is consumed at most once -------------------------------------

  ghost predicate Genuine(s: State, p: Prompt) {
    p.id < |s.raised| && s.raised[p.id] == p.target
  }

  ghost predicate WasTaken(s: State, id: nat) {
    exists i :: 0 <= i < |s.taken| && s.taken[i].id == id
  }

  ghost predicate Answered(s: State, id: nat) {
    exists i :: 0 <= i < |s.starts| && s.starts[i].answers == Some(id)
  }

  ghost predicate PendingFresh(s: State) {
    s.prompt.Some? ==> Genuine(s, s.prompt.value) && !WasTaken(s, s.prompt.value.id)
  }

  ghost predicate TakenOnce(s: State) {
    && (forall i :: 0 <= i < |s.taken| ==> Genuine(s, s.taken[i]))
    && (forall i, j :: 0 <= i < j < |s.taken| ==> s.taken[i].id != s.taken[j].id)
  }

  ghost predicate HeldOnce(s: State) {
    && (forall t :: t in s.threads && s.threads[t].Holding? ==>
          Genuine(s, s.threads[t].prompt) && WasTaken(s, s.threads[t].prompt.id)
          && !Answered(s, s.threads[t].prompt.id))
    && (forall t, u :: t in s.threads && u in s.threads && t != u && s.threads[t].Holding? && s.threads[u].Holding? ==>
          s.threads[t].prompt.id != s.threads[u].prompt.id)
  }

  ghost predicate StartsGenuine(s: State) {
    && (forall i :: 0 <= i < |s.starts| && s.starts[i].answers.Some? ==>
          Genuine(s, Prompt(s.starts[i].answers.value, s.starts[i].target)) && WasTaken(s, s.starts[i].answers.value))
    && (forall i, j :: 0 <= i < j < |s.starts| && s.starts[i].answers.Some? ==> s.starts[i].answers != s.starts[j].answers)
  }

  ghost predicate Inv(s: State) {
    PendingFresh(s) && TakenOnce(s) && HeldOnce(s) && StartsGenuine(s)
  }

  lemma TakenGrows(s: State, n: State)
    requires s.taken <= n.taken
    ensures forall id :: WasTaken(s, id) ==> WasTaken(n, id)
  {
    forall id: nat | WasTaken(s, id)
      ensures WasTaken(n, id)
    {
      var i :| 0 <= i < |s.taken| && s.taken[i].id == id;
      assert n.taken[i].id == id;
    }
  }

  lemma TakeKeeps(s: State)
    requires Inv(s)
    ensures Inv(Take(s))
    ensures s.prompt.Some? ==> WasTaken(Take(s), s.prompt.value.id)
  {
    var n := Take(s);
    TakenGrows(s, n);
    if s.prompt.Some? {
      assert n.taken[|s.taken|].id == s.prompt.value.id;
      assert forall i :: 0 <= i < |s.taken| ==> n.taken[i] == s.taken[i];
      assert forall i :: 0 <= i < |s.taken| ==> s.taken[i].id != s.prompt.value.id;
    }
  }

  lemma RaiseKeeps(s: State, target: string)
    requires Inv(s)
    ensures Inv(Step(s, Raise(target)))
  {
    var n := Step(s, Raise(target));
    assert forall p :: Genuine(s, p) ==> Genuine(n, p);
    assert forall id :: Answered(n, id) <==> Answered(s, id);
    assert forall id :: WasTaken(n, id) <==> WasTaken(s, id);
    forall i | 0 <= i < |s.taken|
      ensures s.taken[i].id != |s.raised|
    {
      assert Genuine(s, s.taken[i]);
    }
  }

  lemma UnansweredUntilTaken(s: State, id: nat)
    requires Inv(s) && !WasTaken(s, id)
    ensures !Answered(s, id)
    ensures forall t :: t in s.threads && s.threads[t].Holding? ==> s.threads[t].prompt.id != id
  {
  }

  lemma ConfirmKeeps(s: State, t: nat)
    requires Inv(s) && ThreadOf(s, t) == Free && s.prompt.Some?
    ensures Inv(Step(s, Confirm(t)))
  {
    var p := s.prompt.value;
    var mid := Take(s);
    var n := Step(s, Confirm(t));
    TakeKeeps(s);
    UnansweredUntilTaken(s, p.id);
    assert forall q :: Genuine(n, q) <==> Genuine(s, q);
    assert forall id :: Answered(n, id) <==> Answered(s, id);
    assert forall id :: WasTaken(n, id) <==> WasTaken(mid, id);
    assert forall u :: u in n.threads && u != t ==> n.threads[u] == s.threads[u];
    assert HeldOnce(mid) && HeldOnce(n);
  }

  lemma ProceedKeeps(s: State, t: nat)
    requires Inv(s) && ThreadOf(s, t).Holding?
    ensures Inv(Step(s, Proceed(t)))
  {
    var p := ThreadOf(s, t).prompt;
    var n := Step(s, Proceed(t));
    assert forall q :: Genuine(n, q) <==> Genuine(s, q);
    assert forall id :: WasTaken(n, id) <==> WasTaken(s, id);
    forall id: nat | id != p.id && Answered(n, id)
      ensures Answered(s, id)
    {
      var i :| 0 <= i < |n.starts| && n.starts[i].answers == Some(id);
      assert s.starts[i].answers == Some(id);
    }
    assert forall i :: 0 <= i < |s.starts| ==> n.starts[i] == s.starts[i];
    assert HeldOnce(n);
    assert StartsGenuine(n);
  }

  lemma UnaskedKeeps(s: State, target: string)
    requires Inv(s)
    ensures Inv(Step(s, StartUnasked(target)))
  {
    var n := Step(s, StartUnasked(target));
    assert forall q :: Genuine(n, q) <==> Genuine(s, q);
    assert forall id :: WasTaken(n, id) <==> WasTaken(s, id);
    forall id: nat | Answered(n, id)
      ensures Answered(s, id)
    {
      var i :| 0 <= i < |n.starts| && n.starts[i].answers == Some(id);
      assert s.starts[i].answers == Some(id);
    }
    assert forall i :: 0 <= i < |s.starts| ==> n.starts[i] == s.starts[i];
  }

  lemma {:induction false} RunKeeps(actions: seq<Action>)
    ensures Inv(Run(actions))
  {
    hide Inv, Take;
    if actions == [] {
      InitialOk();
    } else {
      var before := Run(actions[..|actions| - 1]);
      var a := actions[|actions| - 1];
      RunKeeps(actions[..|actions| - 1]);
      match a
      case Raise(target) => RaiseKeeps(before, target);
      case Confirm(t) =>
        if ThreadOf(before, t) == Free && before.prompt.Some? {
          ConfirmKeeps(before, t);
        }
      case Dismiss => TakeKeeps(before);
      case Proceed(t) =>
        if ThreadOf(before, t).Holding? {
          ProceedKeeps(before, t);
        }
      case StartUnasked(target) => UnaskedKeeps(before, target);
    }
  }

  lemma InitialOk()
    ensures Inv(INITIAL)
  {
  }

  /** However two frontends and the workers interleave, no prompt is taken twice, no
      two reprovision calls answer the same prompt, and each call answering a prompt
      carries the target that prompt was raised for. */
  lemma PromptsConsumedOnce(actions: seq<Action>)
    ensures var s := Run(actions);
            && (forall i, j :: 0 <= i < j < |s.taken| ==> s.taken[i].id != s.taken[j].id)
            && (forall i, j :: 0 <= i < j < |s.starts| && s.starts[i].answers.Some? ==>
                  s.starts[i].answers != s.starts[j].answers)
            && (forall i :: 0 <= i < |s.starts| && s.starts[i].answers.Some? ==>
                  && s.starts[i].answers.value < |s.raised|
                  && s.raised[s.starts[i].answers.value] == s.starts[i].target
                  && exists k :: 0 <= k < |s.taken| && s.taken[k] == Prompt(s.starts[i].answers.value, s.starts[i].target))
  {
    RunKeeps(actions);
    var s := Run(actions);
    forall i | 0 <= i < |s.starts| && s.starts[i].answers.Some?
      ensures exists k :: 0 <= k < |s.taken| && s.taken[k] == Prompt(s.starts[i].answers.value, s.starts[i].target)
    {
      assert WasTaken(s, s.starts[i].answers.value);
      var k :| 0 <= k < |s.taken| && s.taken[k].id == s.starts[i].answers.value;
      assert Genuine(s, s.taken[k]) && Genuine(s, Prompt(s.starts[i].answers.value, s.starts[i].target));
      assert s.taken[k] == Prompt(s.starts[i].answers.value, s.starts[i].target);
    }
  }

  /** A history is its beginning and one more action. */
  lemma RunOne(actions: seq<Action>, a: Action)
    ensures Run(actions + [a]) == Step(Run(actions), a)
  {
    assert (actions + [a])[..|actions|] == actions;
  }

  /** Taken, in nobody's hands and not pending: out of reach. */
  ghost predicate Gone(s: State, id: nat) {
    && id < |s.raised| && !Answered(s, id)
    && (s.prompt.Some? ==> s.prompt.value.id != id)
    && (forall t :: t in s.threads && s.threads[t].Holding? ==> s.threads[t].prompt.id != id)
  }

  lemma StaysGone(s: State, a: Action, id: nat)
    requires Gone(s, id)
    ensures Gone(Step(s, a), id)
  {
    var n := Step(s, a);
    assert forall i :: |s.starts| <= i < |n.starts| ==> n.starts[i].answers != Some(id);
  }

  lemma {:induction false} NeverBack(before: seq<Action>, after: seq<Action>, id: nat)
    requires Gone(Run(before), id)
    ensures Gone(Run(before + after), id)
  {
    hide Gone, Step;
    if after == [] {
      assert before + after == before;
    } else {
      var n := |after| - 1;
      NeverBack(before, after[..n], id);
      StaysGone(Run(before + after[..n]), after[n], id);
      RunOne(before + after[..n], after[n]);
      assert before + after[..n] + [after[n]] == before + after;
    }
  }

  /** Dismissing leaves no prompt pending and starts nothing, and the prompt dismissed is
      never answered, whatever happens afterwards. */
  lemma DismissedIsNeverAnswered(before: seq<Action>, after: seq<Action>)
    ensures Run(before + [Dismiss]).prompt == None && Run(before + [Dismiss]).starts == Run(before).starts
    ensures Run(before).prompt.Some? ==>
              !Answered(Run(before + [Dismiss] + after), Run(before).prompt.value.id)
  {
    RunOne(before, Dismiss);
    if Run(before).prompt.Some? {
      var s, id := Run(before), Run(before).prompt.value.id;
      RunKeeps(before);
      UnansweredUntilTaken(s, id);
      assert Gone(Run(before + [Dismiss]), id);
      NeverBack(before + [Dismiss], after, id);
    }
  }

  lemma {:induction false} StillHolding(before: seq<Action>, t: nat, between: seq<Action>, p: Prompt)
    requires ThreadOf(Run(before), t) == Holding(p) && Proceed(t) !in between
    ensures ThreadOf(Run(before + between), t) == Holding(p)
  {
    if between == [] {
      assert before + between == before;
    } else {
      var n := |between| - 1;
      StillHolding(before, t, between[..n], p);
      RunOne(before + between[..n], between[n]);
      assert before + between[..n] + [between[n]] == before + between;
      assert between[n] in between;
    }
  }

  /** A prompt confirmed by a free thread is answered, with its own target, as soon as
      that thread goes on, whatever the others did in between. */
  lemma ConfirmedIsAnswered(before: seq<Action>, t: nat, between: seq<Action>)
    requires Run(before).prompt.Some? && ThreadOf(Run(before), t) == Free && Proceed(t) !in between
    ensures var p := Run(before).prompt.value;
            var held := before + [Confirm(t)] + between;
            && Run(before + [Confirm(t)]).prompt == None
            && Run(held + [Proceed(t)]).starts == Run(held).starts + [Start(p.target, Some(p.id))]
  {
    RunOne(before, Confirm(t));
    StillHolding(before + [Confirm(t)], t, between, Run(before).prompt.value);
    RunOne(before + [Confirm(t)] + between, Proceed(t));
  }

  // --- lazy loads ---------------------------------------------------------------------

  datatype LoadEvent = Dispatched(request: string) | Cleared

  datatype Loads = Loads(inflight: set<string>, log: seq<LoadEvent>)

  datatype LoadAction = EnsureLoaded(request: string) | ClearInflight

  function LoadStep(s: Loads, a: LoadAction): Loads {
    match a
    case EnsureLoaded(r) =>
      if r in s.inflight then s else Loads(s.inflight + {r}, s.log + [Dispatched(r)])
    case ClearInflight => Loads({}, s.log + [Cleared])
  }

  function LoadRun(actions: seq<LoadAction>): Loads {
    if actions == [] then Loads({}, []) else LoadStep(LoadRun(actions[..|actions| - 1]), actions[|actions| - 1])
  }

  ghost predicate ClearedBetween(log: seq<LoadEvent>, i: nat, j: nat)
    requires i <= j <= |log|
  {
    exists k :: i < k < j && log[k] == Cleared
  }

  /** A request is in flight exactly when it was dispatched since the last clear. */
  ghost predicate LoadsOk(s: Loads) {
    && (forall r :: r in s.inflight <==>
          exists i :: 0 <= i < |s.log| && s.log[i] == Dispatched(r) && !ClearedBetween(s.log, i, |s.log|))
    && (forall i, j :: 0 <= i < j < |s.log| && s.log[i] == s.log[j] && s.log[i].Dispatched? ==> ClearedBetween(s.log, i, j))
  }

  lemma ClearedExtends(log: seq<LoadEvent>, e: LoadEvent, i: nat, j: nat)
    requires i < j <= |log|
    ensures ClearedBetween(log + [e], i, j) <==> ClearedBetween(log, i, j)
    ensures ClearedBetween(log + [e], i, |log| + 1) <==> ClearedBetween(log, i, |log|) || e == Cleared
  {
    var t := log + [e];
    assert t[|log|] == e;
    if ClearedBetween(log, i, j) {
      var k :| i < k < j && log[k] == Cleared;
      assert t[k] == Cleared;
    }
    if ClearedBetween(log, i, |log|) {
      var k :| i < k < |log| && log[k] == Cleared;
      assert t[k] == Cleared;
    }
  }

  lemma LoadKeeps(s: Loads, a: LoadAction)
    requires LoadsOk(s)
    ensures LoadsOk(LoadStep(s, a))
  {
    var n := LoadStep(s, a);
    if n != s {
      var e := n.log[|s.log|];
      assert n.log == s.log + [e];
      forall i, j | 0 <= i < j <= |s.log|
        ensures ClearedBetween(n.log, i, j) <==> ClearedBetween(s.log, i, j)
        ensures ClearedBetween(n.log, i, |n.log|) <==> ClearedBetween(s.log, i, |s.log|) || e == Cleared
      {
        ClearedExtends(s.log, e, i, j);
      }
      assert !ClearedBetween(n.log, |s.log|, |n.log|);
      hide ClearedBetween;
      forall r
        ensures r in n.inflight <==>
                exists i :: 0 <= i < |n.log| && n.log[i] == Dispatched(r) && !ClearedBetween(n.log, i, |n.log|)
      {
        LoadedNow(s, n, e, r);
      }
    }
  }

  lemma LoadedNow(s: Loads, n: Loads, e: LoadEvent, r: string)
    requires LoadsOk(s) && n.log == s.log + [e]
    requires forall i :: 0 <= i < |s.log| ==>
               (ClearedBetween(n.log, i, |n.log|) <==> ClearedBetween(s.log, i, |s.log|) || e == Cleared)
    requires !ClearedBetween(n.log, |s.log|, |n.log|)
    requires n.inflight == if e == Cleared then {} else s.inflight + {e.request}
    ensures r in n.inflight <==>
            exists i :: 0 <= i < |n.log| && n.log[i] == Dispatched(r) && !ClearedBetween(n.log, i, |n.log|)
  {
    hide ClearedBetween;
    if r in s.inflight && e != Cleared {
      var i :| 0 <= i < |s.log| && s.log[i] == Dispatched(r) && !ClearedBetween(s.log, i, |s.log|);
      assert n.log[i] == Dispatched(r) && !ClearedBetween(n.log, i, |n.log|);
    }
    if e == Dispatched(r) {
      assert n.log[|s.log|] == Dispatched(r);
    }
    if i :| 0 <= i < |n.log| && n.log[i] == Dispatched(r) && !ClearedBetween(n.log, i, |n.log|) {
      if i < |s.log| {
        assert s.log[i] == Dispatched(r) && !ClearedBetween(s.log, i, |s.log|);
      }
    }
  }

  lemma {:induction false} LoadRunOk(actions: seq<LoadAction>)
    ensures LoadsOk(LoadRun(actions))
  {
    hide LoadsOk, LoadStep;
    if actions == [] {
      NoLoadsOk();
    } else {
      LoadRunOk(actions[..|actions| - 1]);
      LoadKeeps(LoadRun(actions[..|actions| - 1]), actions[|actions| - 1]);
    }
  }

  lemma NoLoadsOk()
    ensures LoadsOk(Loads({}, []))
  {
  }

  /** Between two dispatches of the same request the in-flight set was cleared. */
  lemma DispatchedOncePerClear(actions: seq<LoadAction>, i: nat, j: nat)
    requires i < j < |LoadRun(actions).log|
    requires LoadRun(actions).log[i] == LoadRun(actions).log[j] && LoadRun(actions).log[i].Dispatched?
    ensures exists k :: i < k < j && LoadRun(actions).log[k] == Cleared
  {
    LoadRunOk(actions);
    assert ClearedBetween(LoadRun(actions).log, i, j);
  }

  /** A request asked for has been dispatched, and nothing was cleared since. */
  lemma AskedIsDispatched(actions: seq<LoadAction>, request: string)
    ensures var log := LoadRun(actions + [EnsureLoaded(request)]).log;
            exists i :: 0 <= i < |log| && log[i] == Dispatched(request) && forall k :: i < k < |log| ==> log[k] != Cleared
  {
    var s := LoadRun(actions + [EnsureLoaded(request)]);
    assert (actions + [EnsureLoaded(request)])[..|actions|] == actions;
    LoadRunOk(actions + [EnsureLoaded(request)]);
    assert request in s.inflight;
    var i :| 0 <= i < |s.log| && s.log[i] == Dispatched(request) && !ClearedBetween(s.log, i, |s.log|);
    assert forall k :: i < k < |s.log| ==> s.log[k] != Cleared;
  }

  // --- the controller's locked fields --------------------------------------------------

  /** The fields behind the lock; each method is one locked section. */
  class Controller {
    var state: State
    var loads: Loads
    var notified: nat

    constructor ()
      ensures state == INITIAL && loads == Loads({}, []) && notified == 0
    {
      state, loads, notified := INITIAL, Loads({}, []), 0;
    }

    /** `take_prompt`: whichever caller gets here first has it, and every frontend is
        told. */
    method TakePrompt() returns (taken: Option<Prompt>)
      modifies this
      ensures taken == old(state.prompt) && state == Take(old(state)) && loads == old(loads)
      ensures notified == old(notified) + if taken.Some? then 1 else 0
    {
      taken := state.prompt;
      if taken.Some? {
        state := state.(prompt := None, taken := state.taken + [taken.value]);
        notified := notified + 1;
      }
    }

    /** The publishing section of `probe_ufs` and `request_reprovision`. */
    method RaisePrompt(target: string)
      modifies this
      ensures state == Step(old(state), Raise(target)) && loads == old(loads)
      ensures state.prompt == Some(Prompt(|old(state).raised|, target))
      ensures notified == old(notified) + 1
    {
      state := state.(prompt := Some(Prompt(|state.raised|, target)), raised := state.raised + [target]);
      notified := notified + 1;
    }

    /** The locked part of `ensure_loaded`: only the caller that inserts dispatches. */
    method EnsureLoadedSection(request: string) returns (dispatch: bool)
      modifies this
      ensures dispatch <==> request !in old(loads.inflight)
      ensures loads == LoadStep(old(loads), EnsureLoaded(request)) && state == old(state) && notified == old(notified)
    {
      dispatch := request !in loads.inflight;
      if dispatch {
        loads := Loads(loads.inflight + {request}, loads.log + [Dispatched(request)]);
      }
    }

    method ClearInflightSection()
      modifies this
      ensures loads == LoadStep(old(loads), ClearInflight) && state == old(state) && notified == old(notified)
    {
      loads := Loads({}, loads.log + [Cleared]);
    }
  }
}
