/**
  * The in-memory limiter with racing calls: every call looks its counter up, loads it and adds to it in separate steps,
  * and the refund loop subtracts and deletes in separate steps. One key.
  */
module MemoryRaces {
  import opened MemoryBuckets
  import opened Options

  type CallId = nat

  /** A call holds on to the counter object it looked up, even after that object was deleted from the map. */
  datatype Stage = Looked(counter: nat) | Passed(counter: nat) | Returned(limited: bool)

  /** All counter objects the key has had, which one the map holds, and which one the refund loop is about to delete. */
  datatype State = State(
    counters: seq<int>, current: Option<nat>, pending: Option<nat>, calls: map<CallId, Stage>,
    admitted: nat, refunds: nat)

  const START := State([], None, None, map[], 0, 0)

  datatype Step = Look(id: CallId) | Load(id: CallId) | Add(id: CallId) | Refund | Delete

  predicate Enabled(s: State, step: Step) {
    match step
    case Look(id) => id !in s.calls && (s.current.Some? ==> s.current.value < |s.counters|)
    case Load(id) => id in s.calls && s.calls[id].Looked? && s.calls[id].counter < |s.counters|
    case Add(id) => id in s.calls && s.calls[id].Passed? && s.calls[id].counter < |s.counters|
    case Refund => s.pending.None? && s.current.Some? && s.current.value < |s.counters|
    case Delete => s.pending.Some?
  }

  function Go(s: State, id: CallId, stage: Stage): State {
    s.(calls := s.calls[id := stage])
  }

  function Apply(l: Limits, s: State, step: Step): State
    requires Enabled(s, step)
  {
    match step
    case Look(id) =>
      if s.current.Some? then Go(s, id, Looked(s.current.value))
      else Go(s, id, Looked(|s.counters|)).(counters := s.counters + [0], current := Some(|s.counters|))
    case Load(id) =>
      var o := s.calls[id].counter;
      Go(s, id, if s.counters[o] < l.maxTokens then Passed(o) else Returned(true))
    case Add(id) =>
      var o := s.calls[id].counter;
      Go(s, id, Returned(false)).(counters := s.counters[o := s.counters[o] + 1], admitted := s.admitted + 1)
    case Refund =>
      var o := s.current.value;
      var left := s.counters[o] - l.tokensPerInterval;
      s.(counters := s.counters[o := left], refunds := s.refunds + 1, pending := if left <= 0 then Some(o) else None)
    case Delete => s.(current := None, pending := None)
  }

  ghost predicate Behaviour(l: Limits, states: seq<State>, steps: seq<Step>) {
    && |states| == |steps| + 1
    && states[0] == START
    && forall i | 0 <= i < |steps| :: Enabled(states[i], steps[i]) && states[i + 1] == Apply(l, states[i], steps[i])
  }

  /** The calls that have begun and not returned. */
  function InCall(s: State): set<CallId> {
    set id | id in s.calls && !s.calls[id].Returned?
  }

  /** The calls between their load of this counter and their addition to it. */
  function PassedOn(s: State, o: nat): set<CallId> {
    set id | id in s.calls && s.calls[id] == Passed(o)
  }

  ghost predicate AtMostAtOnce(states: seq<State>, c: nat) {
    forall i | 0 <= i < |states| :: |InCall(states[i])| <= c
  }

  // ---------- no counter overshoots by more than the calls that race ----------

  /** With c calls at once a counter ends at most c - 1 above the maximum. */
  function Top(l: Limits, c: nat): nat {
    if l.maxTokens + c < 1 then 0 else l.maxTokens + c - 1
  }

  /** What a counter will stand at when everybody who passed has added. */
  ghost predicate NoCounterAbove(s: State, top: int) {
    forall o | 0 <= o < |s.counters| :: s.counters[o] + |PassedOn(s, o)| <= top
  }

  ghost predicate WellFormed(s: State) {
    && (s.current.Some? ==> s.current.value < |s.counters|)
    && forall id | id in s.calls && !s.calls[id].Returned? :: s.calls[id].counter < |s.counters|
  }

  /** Who has passed changes for one call at most. */
  lemma WhoPasses(l: Limits, s: State, step: Step, o: nat)
    requires Enabled(s, step)
    ensures var s' := Apply(l, s, step);
            PassedOn(s', o)
            == match step
               case Load(id) => if s'.calls[id] == Passed(o) then PassedOn(s, o) + {id} else PassedOn(s, o)
               case Add(id) => PassedOn(s, o) - {id}
               case _ => PassedOn(s, o)
  {}

  lemma LoadStaysBelow(l: Limits, s: State, id: CallId, c: nat)
    requires Enabled(s, Load(id)) && |InCall(s)| <= c
    requires s.counters[s.calls[id].counter] < l.maxTokens
    ensures s.counters[s.calls[id].counter] + |PassedOn(s, s.calls[id].counter)| + 1 <= Top(l, c)
  {
    var passed := PassedOn(s, s.calls[id].counter);
    assert passed + {id} <= InCall(s);
    SubsetIsSmaller(passed + {id}, InCall(s));
  }

  lemma NoSuchCounterNoPass(s: State, o: nat)
    ensures WellFormed(s) && o >= |s.counters| ==> PassedOn(s, o) == {}
  {}

  lemma StepKeepsWellFormed(l: Limits, s: State, step: Step)
    requires WellFormed(s) && Enabled(s, step)
    ensures WellFormed(Apply(l, s, step))
  {}

  lemma StepStaysBelow(l: Limits, s: State, step: Step, c: nat)
    requires WellFormed(s) && NoCounterAbove(s, Top(l, c)) && Enabled(s, step) && |InCall(s)| <= c
    ensures NoCounterAbove(Apply(l, s, step), Top(l, c))
  {
    hide InCall, WellFormed;
    var s' := Apply(l, s, step);
    forall o | 0 <= o < |s'.counters|
      ensures s'.counters[o] + |PassedOn(s', o)| <= Top(l, c)
    {
      OneCounterStaysBelow(l, s, step, c, o);
    }
  }

  lemma OneCounterStaysBelow(l: Limits, s: State, step: Step, c: nat, o: nat)
    requires WellFormed(s) && NoCounterAbove(s, Top(l, c)) && Enabled(s, step) && |InCall(s)| <= c
    requires o < |Apply(l, s, step).counters|
    ensures Apply(l, s, step).counters[o] + |PassedOn(Apply(l, s, step), o)| <= Top(l, c)
  {
    hide InCall, WellFormed, PassedOn;
    WhoPasses(l, s, step, o);
    match step
    case Look(_) =>
      NoSuchCounterNoPass(s, o);
    case Load(id) =>
      if s.counters[s.calls[id].counter] < l.maxTokens {
        LoadStaysBelow(l, s, id, c);
      }
    case Add(id) =>
      if s.calls[id].counter == o {
        assert id in PassedOn(s, o) by { PassedCounts(s, id, o); }
      }
    case _ =>
  }

  lemma PassedCounts(s: State, id: CallId, o: nat)
    ensures id in PassedOn(s, o) <==> id in s.calls && s.calls[id] == Passed(o)
  {}

  lemma {:induction false} RunStaysBelow(l: Limits, states: seq<State>, steps: seq<Step>, c: nat, i: nat)
    requires Behaviour(l, states, steps) && AtMostAtOnce(states, c) && i < |states|
    ensures WellFormed(states[i]) && NoCounterAbove(states[i], Top(l, c))
  {
    hide Enabled, Apply, InCall, Top, NoCounterAbove;
    if i == 0 {
      NothingYet(Top(l, c));
    } else {
      RunStaysBelow(l, states, steps, c, i - 1);
      StepKeepsWellFormed(l, states[i - 1], steps[i - 1]);
      StepStaysBelow(l, states[i - 1], steps[i - 1], c);
    }
  }

  lemma NothingYet(top: int)
    ensures WellFormed(START) && NoCounterAbove(START, top)
  {}

  // ---------- what was admitted ----------

  function SumOf(counters: seq<int>): int {
    if counters == [] then 0 else SumOf(counters[..|counters| - 1]) + counters[|counters| - 1]
  }

  lemma {:induction false} SumChanges(counters: seq<int>, o: nat, value: int)
    requires o < |counters|
    ensures SumOf(counters[o := value]) == SumOf(counters) + value - counters[o]
  {
    var init := counters[..|counters| - 1];
    var changed := counters[o := value];
    if o == |counters| - 1 {
      assert changed[..|counters| - 1] == init;
    } else {
      assert changed[..|counters| - 1] == init[o := value];
      SumChanges(init, o, value);
    }
  }

  lemma SumOneMore(counters: seq<int>, value: int)
    ensures SumOf(counters + [value]) == SumOf(counters) + value
  {
    assert (counters + [value])[..|counters|] == counters;
  }

  /** Over all counter objects, deleted ones included, what stands is what was admitted less what was refunded. */
  ghost predicate Balanced(l: Limits, s: State) {
    SumOf(s.counters) == s.admitted - Refunded(l, s)
  }

  function Refunded(l: Limits, s: State): nat {
    s.refunds * l.tokensPerInterval
  }

  lemma StepBalances(l: Limits, s: State, step: Step)
    requires Balanced(l, s) && Enabled(s, step)
    ensures Balanced(l, Apply(l, s, step))
  {
    hide SumOf;
    match step
    case Look(_) => SumOneMore(s.counters, 0);
    case Add(id) => SumChanges(s.counters, s.calls[id].counter, s.counters[s.calls[id].counter] + 1);
    case Refund =>
      SumChanges(s.counters, s.current.value, s.counters[s.current.value] - l.tokensPerInterval);
      OneMoreRefund(s.refunds, l.tokensPerInterval);
    case _ =>
  }

  lemma {:induction false} RunBalances(l: Limits, states: seq<State>, steps: seq<Step>, i: nat)
    requires Behaviour(l, states, steps) && i < |states|
    ensures Balanced(l, states[i])
  {
    hide Enabled, Apply;
    if i > 0 {
      RunBalances(l, states, steps, i - 1);
      StepBalances(l, states[i - 1], steps[i - 1]);
    }
  }

  /** How many counter objects stand above zero. */
  function InUse(counters: seq<int>): nat {
    if counters == [] then 0
    else InUse(counters[..|counters| - 1]) + if counters[|counters| - 1] > 0 then 1 else 0
  }

  function Times(k: nat, top: nat): nat {
    k * top
  }

  lemma OneMoreTime(k: nat, top: nat)
    ensures Times(k + 1, top) == Times(k, top) + top
  {}

  lemma {:induction false} SumIsBounded(counters: seq<int>, top: nat)
    requires forall o | 0 <= o < |counters| :: counters[o] <= top
    ensures SumOf(counters) <= Times(InUse(counters), top)
  {
    hide Times;
    if counters != [] {
      SumIsBounded(counters[..|counters| - 1], top);
      OneMoreTime(InUse(counters[..|counters| - 1]), top);
    }
  }

  lemma CountersAreBelow(s: State, top: int)
    requires NoCounterAbove(s, top)
    ensures forall o | 0 <= o < |s.counters| :: s.counters[o] <= top
  {
    hide PassedOn;
  }

  /**
    * With at most c calls at once, racing each other and the refund loop in any way, what a key gets through is at most
    * maxTokens + c - 1 for every counter object that still stands above zero, plus everything refunded.
    */
  lemma RacingBound(l: Limits, states: seq<State>, steps: seq<Step>, c: nat, i: nat)
    requires Behaviour(l, states, steps) && AtMostAtOnce(states, c) && i < |states|
    ensures states[i].admitted <= Times(InUse(states[i].counters), Top(l, c)) + Refunded(l, states[i])
  {
    hide Enabled, Apply, Top, Times, Refunded, NoCounterAbove, WellFormed, AtMostAtOnce;
    RunStaysBelow(l, states, steps, c, i);
    RunBalances(l, states, steps, i);
    CountersAreBelow(states[i], Top(l, c));
    SumIsBounded(states[i].counters, Top(l, c));
  }

  /** No counter was deleted from under a call that added to it and left it above zero. */
  ghost predicate NothingForgotten(s: State) {
    forall o | 0 <= o < |s.counters| && s.current != Some(o) :: s.counters[o] <= 0
  }

  lemma {:induction false} OneInUse(counters: seq<int>, current: Option<nat>)
    requires forall o | 0 <= o < |counters| && current != Some(o) :: counters[o] <= 0
    ensures InUse(counters) <= if current.Some? && current.value < |counters| then 1 else 0
  {
    if counters != [] {
      OneInUse(counters[..|counters| - 1], current);
    }
  }

  /** While nothing is forgotten the overshoot of c racing calls is at most c - 1, over any number of refunds. */
  lemma OvershootBound(l: Limits, states: seq<State>, steps: seq<Step>, c: nat, i: nat)
    requires Behaviour(l, states, steps) && AtMostAtOnce(states, c) && i < |states| && NothingForgotten(states[i])
    ensures states[i].admitted
         <= (if l.maxTokens + c < 1 then 0 else l.maxTokens + c - 1) + states[i].refunds * l.tokensPerInterval
  {
    hide Enabled, Apply, AtMostAtOnce, InUse;
    RacingBound(l, states, steps, c, i);
    OneInUse(states[i].counters, states[i].current);
    OneMoreTime(0, Top(l, c));
  }

  // ---------- calls and refunds that nothing interrupts ----------

  /** What the map says the key has spent. */
  function SpentNow(s: State): int
    requires WellFormed(s)
  {
    if s.current.Some? then s.counters[s.current.value] else 0
  }

  /** A call from its lookup to its answer. */
  ghost function Call(l: Limits, s: State, id: CallId): State
    requires WellFormed(s) && id !in s.calls
  {
    var loaded := Apply(l, Apply(l, s, Look(id)), Load(id));
    if loaded.calls[id].Passed? then Apply(l, loaded, Add(id)) else loaded
  }

  /** Alone, a call does what the sequential limiter does. */
  lemma CallAloneIsSequential(l: Limits, s: State, id: CallId)
    requires WellFormed(s) && id !in s.calls
    ensures var s' := Call(l, s, id);
            && WellFormed(s') && id in s'.calls && s'.calls[id] == Returned(!Admits(SpentNow(s), l))
            && SpentNow(s') == AfterHit(SpentNow(s), l)
            && s'.admitted == s.admitted + (if Admits(SpentNow(s), l) then 1 else 0)
            && forall k | k in s.calls :: k in s'.calls && s'.calls[k] == s.calls[k]
  {}

  /** So does a turn of the refund loop: it subtracts, and deletes the counter if that brought it to zero or below. */
  lemma RefundAloneIsSequential(l: Limits, s: State)
    requires WellFormed(s) && s.current.Some? && s.pending.None?
    ensures var subtracted := Apply(l, s, Step.Refund);
            var s' := if subtracted.pending.Some? then Apply(l, subtracted, Delete) else subtracted;
            && WellFormed(s') && s'.pending.None? && s'.calls == s.calls
            && SpentNow(s') == AfterRefund(SpentNow(s), l)
            && (s'.current.None? <==> SpentNow(s) <= l.tokensPerInterval)
  {}

  // ---------- counters come and go ----------

  function Deletions(steps: seq<Step>): nat {
    if steps == [] then 0 else Deletions(steps[..|steps| - 1]) + if steps[|steps| - 1].Delete? then 1 else 0
  }

  ghost predicate PendingIsCurrent(s: State) {
    s.pending.Some? ==> s.pending == s.current
  }

  /** The map starts a counter afresh only after it has deleted one, however many calls race to look it up. */
  lemma {:induction false} OneCounterPerDeletion(l: Limits, states: seq<State>, steps: seq<Step>, i: nat)
    requires Behaviour(l, states, steps) && i < |states|
    ensures |states[i].counters| == Deletions(steps[..i]) + if states[i].current.Some? then 1 else 0
    ensures PendingIsCurrent(states[i])
  {
    if i > 0 {
      OneCounterPerDeletion(l, states, steps, i - 1);
      assert steps[..i][..i - 1] == steps[..i - 1];
      assert Enabled(states[i - 1], steps[i - 1]) && states[i] == Apply(l, states[i - 1], steps[i - 1]);
    }
  }

  /** And it deletes a counter only after a refund brought that counter to zero or below. */
  lemma {:induction false} OnlySpentCountersGo(l: Limits, states: seq<State>, steps: seq<Step>, n: nat)
    returns (m: nat)
    requires Behaviour(l, states, steps) && n < |states| && states[n].pending.Some?
    ensures m < n && steps[m].Refund? && states[m].current == states[n].pending == states[n].current
    ensures var o := states[n].pending.value; o < |states[m + 1].counters| && states[m + 1].counters[o] <= 0
    ensures forall j | m < j < n :: !steps[j].Refund? && !steps[j].Delete?
  {
    OneCounterPerDeletion(l, states, steps, n);
    assert n > 0;
    assert Enabled(states[n - 1], steps[n - 1]) && states[n] == Apply(l, states[n - 1], steps[n - 1]);
    if steps[n - 1].Refund? {
      m := n - 1;
    } else {
      m := OnlySpentCountersGo(l, states, steps, n - 1);
    }
  }
}
