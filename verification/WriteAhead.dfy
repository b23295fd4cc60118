/**
  * The write-ahead queue: writers push to the back, any number of drainers pop from the front and save, and an
  * entry that could not be saved goes to the back again until its retries are used up.
  */
module WriteAhead {

  /** MaxRetries and EventTTL. Nothing stops an operator from configuring zero retries, or fewer. */
  datatype Config = Config(maxRetries: int, ttl: int)

  /** A queued event. The number tells one write from another; only the rest is in the stored record. */
  datatype Entry = Entry(number: nat, timestamp: int, retries: nat)

  datatype Reason = Expired(at: int) | Exhausted

  datatype Drop = Drop(entry: Entry, reason: Reason)

  datatype State = State(
    written: nat, queue: seq<Entry>, busy: seq<Entry>, saved: seq<Entry>, dropped: seq<Drop>, lost: seq<Entry>,
    attempts: seq<nat>, now: int)

  const EMPTY := State(0, [], [], [], [], [], [], 0)

  /** Busy entries are those between a pop and its outcome, one for each drainer at work. */
  datatype Step =
    | Tick(later: int)
    | Write
    | Pop(shutdown: bool)
    | PopReplyLost
    | SaveOk(i: nat)
    | SaveFails(i: nat, pushOk: bool)
    | SaveFailsAtShutdown(i: nat)

  predicate Enabled(s: State, step: Step) {
    match step
    case Tick(later) => s.now <= later
    case Write => true
    case Pop(_) => s.queue != []
    case PopReplyLost => s.queue != []
    case SaveOk(i) => i < |s.busy|
    case SaveFails(i, _) => i < |s.busy|
    case SaveFailsAtShutdown(i) => i < |s.busy|
  }

  function Without(es: seq<Entry>, i: nat): seq<Entry>
    requires i < |es|
  {
    es[..i] + es[i + 1..]
  }

  /** One more save attempt for this write. */
  function Attempt(attempts: seq<nat>, number: nat): seq<nat> {
    if number < |attempts| then attempts[number := attempts[number] + 1] else attempts
  }

  /** Too old, and not shutting down: the drainer discards it instead of saving it. */
  predicate TooOld(c: Config, e: Entry, now: int) {
    now - e.timestamp > c.ttl
  }

  function Apply(c: Config, s: State, step: Step): State
    requires Enabled(s, step)
  {
    match step
    case Tick(later) => s.(now := later)
    case Write =>
      s.(written := s.written + 1, queue := s.queue + [Entry(s.written, s.now, 0)], attempts := s.attempts + [0])
    case Pop(shutdown) =>
      var e, rest := s.queue[0], s.(queue := s.queue[1..]);
      if !shutdown && TooOld(c, e, s.now) then rest.(dropped := s.dropped + [Drop(e, Expired(s.now))])
      else rest.(busy := s.busy + [e])
    case PopReplyLost => s.(queue := s.queue[1..], lost := s.lost + [s.queue[0]])
    case SaveOk(i) =>
      var e := s.busy[i];
      s.(busy := Without(s.busy, i), attempts := Attempt(s.attempts, e.number), saved := s.saved + [e])
    case SaveFails(i, pushOk) =>
      var e := s.busy[i].(retries := s.busy[i].retries + 1);
      var next := s.(busy := Without(s.busy, i), attempts := Attempt(s.attempts, e.number));
      if e.retries >= c.maxRetries then next.(dropped := s.dropped + [Drop(e, Exhausted)])
      else if pushOk then next.(queue := s.queue + [e])
      else next.(lost := s.lost + [e])
    case SaveFailsAtShutdown(i) =>
      var e := s.busy[i];
      s.(busy := Without(s.busy, i), attempts := Attempt(s.attempts, e.number), lost := s.lost + [e])
  }

  ghost predicate Behaviour(c: Config, states: seq<State>, steps: seq<Step>) {
    && |states| == |steps| + 1
    && states[0] == EMPTY.(now := states[0].now)
    && forall i | 0 <= i < |steps| :: Enabled(states[i], steps[i]) && states[i + 1] == Apply(c, states[i], steps[i])
  }

  // ---------- conservation ----------

  function Numbers(es: seq<Entry>): multiset<nat> {
    if es == [] then multiset{} else Numbers(es[..|es| - 1]) + multiset{es[|es| - 1].number}
  }

  function DroppedEntries(ds: seq<Drop>): seq<Entry> {
    seq(|ds|, i requires 0 <= i < |ds| => ds[i].entry)
  }

  function DropNumbers(ds: seq<Drop>): multiset<nat> {
    Numbers(DroppedEntries(ds))
  }

  lemma {:induction false} NumbersAppend(a: seq<Entry>, b: seq<Entry>)
    ensures Numbers(a + b) == Numbers(a) + Numbers(b)
  {
    if b == [] {
      assert a + b == a;
    } else {
      assert (a + b)[..|a + b| - 1] == a + b[..|b| - 1];
      NumbersAppend(a, b[..|b| - 1]);
    }
  }

  lemma NumbersOneMore(es: seq<Entry>, e: Entry)
    ensures Numbers(es + [e]) == Numbers(es) + multiset{e.number}
  {
    assert (es + [e])[..|es|] == es;
  }

  lemma DropNumbersOneMore(ds: seq<Drop>, d: Drop)
    ensures DropNumbers(ds + [d]) == DropNumbers(ds) + multiset{d.entry.number}
  {
    assert DroppedEntries(ds + [d]) == DroppedEntries(ds) + [d.entry];
    NumbersOneMore(DroppedEntries(ds), d.entry);
  }

  lemma NumbersWithout(es: seq<Entry>, i: nat)
    requires i < |es|
    ensures Numbers(es) == Numbers(Without(es, i)) + multiset{es[i].number}
  {
    hide Numbers;
    var a, b := es[..i], es[i + 1..];
    assert es == (a + [es[i]]) + b;
    NumbersAppend(a + [es[i]], b);
    NumbersOneMore(a, es[i]);
    NumbersAppend(a, b);
  }

  lemma NumbersTail(es: seq<Entry>)
    requires es != []
    ensures Numbers(es) == Numbers(es[1..]) + multiset{es[0].number}
  {
    NumbersWithout(es, 0);
    assert Without(es, 0) == es[1..];
  }

  /** In how many places a write is found: queued, with a drainer, saved, dropped or lost. */
  function Places(s: State, n: nat): nat {
    Numbers(s.queue)[n] + Numbers(s.busy)[n] + Numbers(s.saved)[n] + DropNumbers(s.dropped)[n] + Numbers(s.lost)[n]
  }

  /** None is in two places, none has gone missing, and nothing appears that was not written. */
  ghost predicate Conserved(s: State) {
    forall n: nat :: Places(s, n) == if n < s.written then 1 else 0
  }

  lemma StepMovesOneEvent(c: Config, s: State, step: Step, n: nat)
    requires Enabled(s, step)
    ensures Places(Apply(c, s, step), n) == Places(s, n) + if step.Write? && n == s.written then 1 else 0
  {
    hide Numbers, DropNumbers, Without, TooOld;
    match step
    case Tick(_) =>
    case Write => NumbersOneMore(s.queue, Entry(s.written, s.now, 0));
    case Pop(_) =>
      NumbersTail(s.queue);
      NumbersOneMore(s.busy, s.queue[0]);
      DropNumbersOneMore(s.dropped, Drop(s.queue[0], Expired(s.now)));
    case PopReplyLost =>
      NumbersTail(s.queue);
      NumbersOneMore(s.lost, s.queue[0]);
    case SaveOk(i) =>
      NumbersWithout(s.busy, i);
      NumbersOneMore(s.saved, s.busy[i]);
    case SaveFails(i, _) =>
      var e := s.busy[i].(retries := s.busy[i].retries + 1);
      NumbersWithout(s.busy, i);
      DropNumbersOneMore(s.dropped, Drop(e, Exhausted));
      NumbersOneMore(s.queue, e);
      NumbersOneMore(s.lost, e);
    case SaveFailsAtShutdown(i) =>
      NumbersWithout(s.busy, i);
      NumbersOneMore(s.lost, s.busy[i]);
  }

  lemma StepConserves(c: Config, s: State, step: Step)
    requires Conserved(s) && Enabled(s, step)
    ensures Conserved(Apply(c, s, step))
  {
    hide Numbers, DropNumbers, Places;
    forall n: nat
      ensures Places(Apply(c, s, step), n) == if n < Apply(c, s, step).written then 1 else 0
    {
      StepMovesOneEvent(c, s, step, n);
    }
  }

  /**
    * Conservation: at every moment each of the writes so far is in exactly one place - queued, with a drainer,
    * saved, dropped, or lost to Redis or to the shutdown.
    */
  lemma {:induction false} NothingVanishes(c: Config, states: seq<State>, steps: seq<Step>, k: nat)
    requires Behaviour(c, states, steps) && k < |states|
    ensures Conserved(states[k])
  {
    hide Enabled, Apply;
    if k == 0 {
    } else {
      NothingVanishes(c, states, steps, k - 1);
      StepConserves(c, states[k - 1], steps[k - 1]);
    }
  }

  lemma {:induction false} NumbersCount(es: seq<Entry>)
    ensures |Numbers(es)| == |es|
  {
    if es != [] {
      NumbersCount(es[..|es| - 1]);
    }
  }

  lemma {:induction false} OnceEachCounts(all: multiset<nat>, n: nat)
    requires forall k: nat :: all[k] == if k < n then 1 else 0
    ensures |all| == n
  {
    if n == 0 {
      assert all == multiset{};
    } else {
      var fewer := all - multiset{n - 1};
      OnceEachCounts(fewer, n - 1);
      assert all == fewer + multiset{n - 1};
    }
  }

  /** The figures the statistics report add up. */
  lemma CountsBalance(c: Config, states: seq<State>, steps: seq<Step>, k: nat)
    requires Behaviour(c, states, steps) && k < |states|
    ensures var s := states[k];
            s.written == |s.queue| + |s.busy| + |s.saved| + |s.dropped| + |s.lost|
  {
    hide Enabled, Apply;
    var s := states[k];
    NothingVanishes(c, states, steps, k);
    var all := Numbers(s.queue) + Numbers(s.busy) + Numbers(s.saved) + DropNumbers(s.dropped) + Numbers(s.lost);
    forall n: nat
      ensures all[n] == if n < s.written then 1 else 0
    {
      assert all[n] == Places(s, n);
    }
    OnceEachCounts(all, s.written);
    NumbersCount(s.queue);
    NumbersCount(s.busy);
    NumbersCount(s.saved);
    NumbersCount(DroppedEntries(s.dropped));
    NumbersCount(s.lost);
  }

  // ---------- saved means saved, and a failed save is retried ----------

  function SaveSteps(steps: seq<Step>): nat {
    if steps == [] then 0 else SaveSteps(steps[..|steps| - 1]) + if steps[|steps| - 1].SaveOk? then 1 else 0
  }

  /** What was drained was saved: over every run the saved entries are exactly as many as the saves that worked. */
  lemma {:induction false} SavedIsSaved(c: Config, states: seq<State>, steps: seq<Step>, k: nat)
    requires Behaviour(c, states, steps) && k < |states|
    ensures |states[k].saved| == SaveSteps(steps[..k])
  {
    if k > 0 {
      SavedIsSaved(c, states, steps, k - 1);
      assert steps[..k][..k - 1] == steps[..k - 1];
      assert states[k] == Apply(c, states[k - 1], steps[k - 1]);
    }
  }

  /**
    * A save that fails with attempts left and a working push puts the write at the back, one retry older; if that push
    * fails too the write is lost, and without attempts left it is dropped. It is saved in no case.
    */
  lemma FailedSaveIsRetried(c: Config, states: seq<State>, steps: seq<Step>, n: nat, i: nat)
    requires Behaviour(c, states, steps) && n < |steps| && steps[n].SaveFails? && steps[n].i == i < |states[n].busy|
    ensures var s, s' := states[n], states[n + 1];
            var e := Entry(s.busy[i].number, s.busy[i].timestamp, s.busy[i].retries + 1);
            && s'.busy == s.busy[..i] + s.busy[i + 1..] && s'.saved == s.saved
            && s'.queue == (if e.retries < c.maxRetries && steps[n].pushOk then s.queue + [e] else s.queue)
            && s'.lost == (if e.retries < c.maxRetries && !steps[n].pushOk then s.lost + [e] else s.lost)
            && s'.dropped == (if e.retries < c.maxRetries then s.dropped else s.dropped + [Drop(e, Exhausted)])
  {
    assert states[n + 1] == Apply(c, states[n], steps[n]);
  }

  /** A pop hands the front entry to a drainer, or discards it exactly when it is too old and no shutdown is on. */
  lemma PopDecides(c: Config, states: seq<State>, steps: seq<Step>, n: nat)
    requires Behaviour(c, states, steps) && n < |steps| && steps[n].Pop? && states[n].queue != []
    ensures var s, s', e := states[n], states[n + 1], states[n].queue[0];
            && s'.queue == s.queue[1..] && s'.saved == s.saved && s'.lost == s.lost
            && if s.now - e.timestamp > c.ttl && !steps[n].shutdown
               then s'.dropped == s.dropped + [Drop(e, Expired(s.now))] && s'.busy == s.busy
               else s'.dropped == s.dropped && s'.busy == s.busy + [e]
  {
    assert states[n + 1] == Apply(c, states[n], steps[n]);
  }

  /** A step that costs nothing: no reply is lost, no save fails for good, and nothing popped is too old. */
  predicate Harmless(c: Config, s: State, step: Step)
    requires Enabled(s, step)
  {
    match step
    case Pop(shutdown) => shutdown || s.now - s.queue[0].timestamp <= c.ttl
    case PopReplyLost => false
    case SaveFails(i, pushOk) => pushOk && s.busy[i].retries + 1 < c.maxRetries
    case SaveFailsAtShutdown(_) => false
    case _ => true
  }

  lemma {:induction false} NothingIsLostMeanwhile(c: Config, states: seq<State>, steps: seq<Step>, m: nat, n: nat)
    requires Behaviour(c, states, steps) && m <= n < |states|
    requires forall j | m <= j < n :: Enabled(states[j], steps[j]) && Harmless(c, states[j], steps[j])
    ensures states[n].dropped == states[m].dropped && states[n].lost == states[m].lost
    decreases n - m
  {
    if m < n {
      NothingIsLostMeanwhile(c, states, steps, m, n - 1);
      assert states[n] == Apply(c, states[n - 1], steps[n - 1]);
    }
  }

  /**
    * An outage costs nothing once it is over: if from m to n saves failed only while retries were left, and the queue
    * is empty at n, every write made by then is saved, but for those that had been given up before m.
    */
  lemma OutageEndsWell(c: Config, states: seq<State>, steps: seq<Step>, m: nat, n: nat, x: nat)
    requires Behaviour(c, states, steps) && m <= n < |states|
    requires forall j | m <= j < n :: Enabled(states[j], steps[j]) && Harmless(c, states[j], steps[j])
    requires states[n].queue == [] && states[n].busy == [] && x < states[n].written
    ensures x in Numbers(states[n].saved)
            <==> x !in DropNumbers(states[m].dropped) && x !in Numbers(states[m].lost)
  {
    hide Enabled, Apply, Harmless;
    NothingIsLostMeanwhile(c, states, steps, m, n);
    NothingVanishes(c, states, steps, n);
    assert Places(states[n], x) == 1;
    assert Numbers([]) == multiset{};
  }

  // ---------- how often an event is tried, and when it is given up ----------

  /** The most save attempts an event gets: MaxRetries, but never fewer than one. */
  function Limit(c: Config): (n: nat)
    ensures n >= 1 && n >= c.maxRetries && (n == 1 || n == c.maxRetries)
  {
    if c.maxRetries > 1 then c.maxRetries else 1
  }

  predicate PendingOk(c: Config, attempts: seq<nat>, e: Entry) {
    e.number < |attempts| && attempts[e.number] == e.retries < Limit(c)
  }

  predicate SavedOk(c: Config, attempts: seq<nat>, e: Entry) {
    e.number < |attempts| && attempts[e.number] == e.retries + 1 <= Limit(c)
  }

  /** Given up for one of two reasons only: past its time to live, or every allowed attempt failed. */
  predicate DroppedOk(c: Config, attempts: seq<nat>, d: Drop) {
    && d.entry.number < |attempts|
    && attempts[d.entry.number] == d.entry.retries
    && match d.reason
       case Expired(at) => at - d.entry.timestamp > c.ttl && d.entry.retries < Limit(c)
       case Exhausted => d.entry.retries == Limit(c)
  }

  predicate LostOk(c: Config, attempts: seq<nat>, e: Entry) {
    e.number < |attempts| && attempts[e.number] <= Limit(c)
  }

  ghost predicate AllPending(c: Config, attempts: seq<nat>, es: seq<Entry>) {
    forall i | 0 <= i < |es| :: PendingOk(c, attempts, es[i])
  }

  ghost predicate AllSaved(c: Config, attempts: seq<nat>, es: seq<Entry>) {
    forall i | 0 <= i < |es| :: SavedOk(c, attempts, es[i])
  }

  ghost predicate AllDropped(c: Config, attempts: seq<nat>, ds: seq<Drop>) {
    forall i | 0 <= i < |ds| :: DroppedOk(c, attempts, ds[i])
  }

  ghost predicate AllLost(c: Config, attempts: seq<nat>, es: seq<Entry>) {
    forall i | 0 <= i < |es| :: LostOk(c, attempts, es[i])
  }

  ghost predicate AttemptsInv(c: Config, s: State) {
    && |s.attempts| == s.written
    && AllPending(c, s.attempts, s.queue)
    && AllPending(c, s.attempts, s.busy)
    && AllSaved(c, s.attempts, s.saved)
    && AllDropped(c, s.attempts, s.dropped)
    && AllLost(c, s.attempts, s.lost)
  }

  lemma {:induction false} IndexIsCounted(es: seq<Entry>, i: nat)
    requires i < |es|
    ensures es[i].number in Numbers(es)
  {
    if i < |es| - 1 {
      IndexIsCounted(es[..|es| - 1], i);
    }
  }

  /** An attempt to save one event leaves the books of every list that does not hold it as they were. */
  lemma AttemptElsewhere(c: Config, attempts: seq<nat>, n: nat, es: seq<Entry>)
    requires n !in Numbers(es)
    ensures AllPending(c, attempts, es) ==> AllPending(c, Attempt(attempts, n), es)
    ensures AllSaved(c, attempts, es) ==> AllSaved(c, Attempt(attempts, n), es)
    ensures AllLost(c, attempts, es) ==> AllLost(c, Attempt(attempts, n), es)
  {
    hide Numbers, Limit;
    forall i | 0 <= i < |es|
      ensures es[i].number != n
    {
      IndexIsCounted(es, i);
    }
  }

  lemma AttemptElsewhereDropped(c: Config, attempts: seq<nat>, n: nat, ds: seq<Drop>)
    requires n !in DropNumbers(ds) && AllDropped(c, attempts, ds)
    ensures AllDropped(c, Attempt(attempts, n), ds)
  {
    hide Numbers, Limit;
    forall i | 0 <= i < |ds|
      ensures ds[i].entry.number != n
    {
      IndexIsCounted(DroppedEntries(ds), i);
    }
  }

  /** What a drainer holds is nowhere else. */
  lemma BusyIsNowhereElse(s: State, i: nat)
    requires Conserved(s) && i < |s.busy|
    ensures var n := s.busy[i].number;
            && n !in Numbers(s.queue) && n !in Numbers(Without(s.busy, i)) && n !in Numbers(s.saved)
            && n !in DropNumbers(s.dropped) && n !in Numbers(s.lost)
  {
    hide Numbers, DropNumbers, Without;
    NumbersWithout(s.busy, i);
    assert Places(s, s.busy[i].number) <= 1;
  }

  lemma AttemptKeepsTheRest(c: Config, s: State, i: nat)
    requires Conserved(s) && AttemptsInv(c, s) && i < |s.busy|
    ensures var attempts := Attempt(s.attempts, s.busy[i].number);
            && |attempts| == s.written
            && AllPending(c, attempts, s.queue)
            && AllPending(c, attempts, Without(s.busy, i))
            && AllSaved(c, attempts, s.saved)
            && AllDropped(c, attempts, s.dropped)
            && AllLost(c, attempts, s.lost)
            && s.busy[i].number < |attempts| && attempts[s.busy[i].number] == s.busy[i].retries + 1 <= Limit(c)
  {
    hide Numbers, DropNumbers, Limit, Conserved;
    var n, rest := s.busy[i].number, Without(s.busy, i);
    BusyIsNowhereElse(s, i);
    assert PendingOk(c, s.attempts, s.busy[i]);
    forall j | 0 <= j < |rest|
      ensures PendingOk(c, s.attempts, rest[j])
    {
      assert rest[j] == if j < i then s.busy[j] else s.busy[j + 1];
    }
    AttemptElsewhere(c, s.attempts, n, s.queue);
    AttemptElsewhere(c, s.attempts, n, rest);
    AttemptElsewhere(c, s.attempts, n, s.saved);
    AttemptElsewhere(c, s.attempts, n, s.lost);
    AttemptElsewhereDropped(c, s.attempts, n, s.dropped);
  }

  lemma StepKeepsAttempts(c: Config, s: State, step: Step)
    requires Conserved(s) && AttemptsInv(c, s) && Enabled(s, step)
    ensures AttemptsInv(c, Apply(c, s, step))
  {
    hide Conserved, Without, Attempt;
    if step.SaveOk? || step.SaveFails? || step.SaveFailsAtShutdown? {
      AttemptKeepsTheRest(c, s, step.i);
    } else if step.Pop? || step.PopReplyLost? {
      assert PendingOk(c, s.attempts, s.queue[0]);
    }
  }

  lemma {:induction false} RunKeepsAttempts(c: Config, states: seq<State>, steps: seq<Step>, k: nat)
    requires Behaviour(c, states, steps) && k < |states|
    ensures AttemptsInv(c, states[k])
  {
    hide Enabled, Apply, Conserved;
    if k != 0 {
      RunKeepsAttempts(c, states, steps, k - 1);
      NothingVanishes(c, states, steps, k - 1);
      StepKeepsAttempts(c, states[k - 1], steps[k - 1]);
    }
  }

  lemma InSomePlace(s: State, n: nat)
    requires Conserved(s) && n < s.written
    ensures || n in Numbers(s.queue) || n in Numbers(s.busy) || n in Numbers(s.saved)
            || n in DropNumbers(s.dropped) || n in Numbers(s.lost)
  {
    hide Numbers, DropNumbers;
    assert Places(s, n) == 1;
  }

  lemma {:induction false} CountedHasIndex(es: seq<Entry>, n: nat) returns (i: nat)
    requires n in Numbers(es)
    ensures i < |es| && es[i].number == n
  {
    if es[|es| - 1].number == n {
      i := |es| - 1;
    } else {
      i := CountedHasIndex(es[..|es| - 1], n);
    }
  }

  /** No event is tried more often than MaxRetries says, except that one attempt is always made. */
  lemma AttemptsAreBounded(c: Config, states: seq<State>, steps: seq<Step>, k: nat, n: nat)
    requires Behaviour(c, states, steps) && k < |states| && n < states[k].written
    ensures n < |states[k].attempts| && states[k].attempts[n] <= Limit(c)
  {
    hide Enabled, Apply, Numbers, Conserved, Limit;
    var s := states[k];
    NothingVanishes(c, states, steps, k);
    RunKeepsAttempts(c, states, steps, k);
    InSomePlace(s, n);
    if n in Numbers(s.queue) {
      var i := CountedHasIndex(s.queue, n);
    } else if n in Numbers(s.busy) {
      var i := CountedHasIndex(s.busy, n);
    } else if n in Numbers(s.saved) {
      var i := CountedHasIndex(s.saved, n);
    } else if n in DropNumbers(s.dropped) {
      var i := CountedHasIndex(DroppedEntries(s.dropped), n);
    } else {
      var i := CountedHasIndex(s.lost, n);
    }
  }

  /** What "at most MaxRetries attempts" would mean over all runs. */
  ghost predicate NeverMoreThanMaxRetries(c: Config) {
    forall states: seq<State>, steps: seq<Step>, k: nat, n: nat
      | Behaviour(c, states, steps) && k < |states| && n < |states[k].attempts| ::
      states[k].attempts[n] <= c.maxRetries
  }

  /** The limit is kept exactly when at least one attempt is allowed: with MaxRetries 0 an event is still tried once. */
  lemma MaxRetriesHoldsIff(c: Config)
    ensures NeverMoreThanMaxRetries(c) <==> c.maxRetries >= 1
  {
    hide Enabled, Apply, Limit;
    if c.maxRetries >= 1 {
      forall states: seq<State>, steps: seq<Step>, k: nat, n: nat
        | Behaviour(c, states, steps) && k < |states| && n < |states[k].attempts|
        ensures states[k].attempts[n] <= c.maxRetries
      {
        RunKeepsAttempts(c, states, steps, k);
        AttemptsAreBounded(c, states, steps, k, n);
      }
    } else {
      OneAttemptAnyway(c);
    }
  }

  lemma OneAttemptAnyway(c: Config)
    requires c.maxRetries < 1
    ensures !NeverMoreThanMaxRetries(c)
  {
    hide Attempt;
    var s1 := Apply(c, EMPTY, Write);
    assert s1.queue == [Entry(0, 0, 0)] && s1.attempts == [0];
    var s2 := Apply(c, s1, Pop(true));
    assert s2.busy == [Entry(0, 0, 0)];
    var s3 := Apply(c, s2, SaveFailsAtShutdown(0));
    var steps := [Write, Pop(true), SaveFailsAtShutdown(0)];
    var states := [EMPTY, s1, s2, s3];
    assert Behaviour(c, states, steps);
    OneIsCounted();
    assert s3.attempts == Attempt(s2.attempts, 0);
    assert states[3].attempts[0] == 1;
  }

  lemma OneIsCounted()
    ensures Attempt([0], 0) == [1]
  {}

  /** Nothing is given up early: whatever was dropped had outlived the TTL, or had failed as often as it may. */
  lemma NothingIsDroppedEarly(c: Config, states: seq<State>, steps: seq<Step>, k: nat, i: nat)
    requires Behaviour(c, states, steps) && k < |states| && i < |states[k].dropped|
    ensures var d := states[k].dropped[i];
            match d.reason
            case Expired(at) => at - d.entry.timestamp > c.ttl
            case Exhausted => d.entry.number < |states[k].attempts| && states[k].attempts[d.entry.number] == Limit(c)
  {
    hide Enabled, Apply, Limit;
    RunKeepsAttempts(c, states, steps, k);
    assert DroppedOk(c, states[k].attempts, states[k].dropped[i]);
  }

  // ---------- a queue with no new writes empties ----------

  /** What is left to do for one entry: a pop and an outcome for each attempt it may still get. */
  function Work(c: Config, e: Entry): int {
    2 * (Limit(c) - e.retries)
  }

  function TotalWork(c: Config, es: seq<Entry>): int {
    if es == [] then 0 else TotalWork(c, es[..|es| - 1]) + Work(c, es[|es| - 1])
  }

  /** An entry in hand has already been popped. */
  function WorkLeft(c: Config, s: State): int {
    TotalWork(c, s.queue) + TotalWork(c, s.busy) - |s.busy|
  }

  lemma {:induction false} TotalWorkAppend(c: Config, a: seq<Entry>, b: seq<Entry>)
    ensures TotalWork(c, a + b) == TotalWork(c, a) + TotalWork(c, b)
  {
    if b == [] {
      assert a + b == a;
    } else {
      assert (a + b)[..|a + b| - 1] == a + b[..|b| - 1];
      TotalWorkAppend(c, a, b[..|b| - 1]);
    }
  }

  lemma TotalWorkOneMore(c: Config, es: seq<Entry>, e: Entry)
    ensures TotalWork(c, es + [e]) == TotalWork(c, es) + Work(c, e)
  {
    assert (es + [e])[..|es|] == es;
  }

  lemma TotalWorkWithout(c: Config, es: seq<Entry>, i: nat)
    requires i < |es|
    ensures TotalWork(c, es) == TotalWork(c, Without(es, i)) + Work(c, es[i])
  {
    var a, b := es[..i], es[i + 1..];
    assert es == (a + [es[i]]) + b;
    TotalWorkAppend(c, a + [es[i]], b);
    TotalWorkOneMore(c, a, es[i]);
    TotalWorkAppend(c, a, b);
  }

  lemma {:induction false} TotalWorkIsNatural(c: Config, attempts: seq<nat>, es: seq<Entry>)
    requires AllPending(c, attempts, es)
    ensures TotalWork(c, es) >= 2 * |es|
  {
    if es != [] {
      assert PendingOk(c, attempts, es[|es| - 1]);
      TotalWorkIsNatural(c, attempts, es[..|es| - 1]);
    }
  }

  predicate Drains(step: Step) {
    !step.Tick? && !step.Write?
  }

  /** A write brings a bounded amount of work, and every step of a drainer uses some of it up. */
  lemma StepUsesWork(c: Config, s: State, step: Step)
    requires AttemptsInv(c, s) && Enabled(s, step)
    ensures Drains(step) ==> WorkLeft(c, Apply(c, s, step)) < WorkLeft(c, s)
    ensures step.Write? ==> WorkLeft(c, Apply(c, s, step)) == WorkLeft(c, s) + 2 * Limit(c)
    ensures step.Tick? ==> WorkLeft(c, Apply(c, s, step)) == WorkLeft(c, s)
  {
    hide TotalWork, Limit, AllSaved, AllDropped, AllLost, Attempt, TooOld;
    match step
    case Tick(_) =>
    case Write => TotalWorkOneMore(c, s.queue, Entry(s.written, s.now, 0));
    case Pop(_) =>
      assert PendingOk(c, s.attempts, s.queue[0]);
      TotalWorkWithout(c, s.queue, 0);
      assert Without(s.queue, 0) == s.queue[1..];
      TotalWorkOneMore(c, s.busy, s.queue[0]);
    case PopReplyLost =>
      assert PendingOk(c, s.attempts, s.queue[0]);
      TotalWorkWithout(c, s.queue, 0);
      assert Without(s.queue, 0) == s.queue[1..];
    case SaveOk(i) => TotalWorkWithout(c, s.busy, i); assert PendingOk(c, s.attempts, s.busy[i]);
    case SaveFails(i, _) =>
      assert PendingOk(c, s.attempts, s.busy[i]);
      TotalWorkWithout(c, s.busy, i);
      TotalWorkOneMore(c, s.queue, s.busy[i].(retries := s.busy[i].retries + 1));
    case SaveFailsAtShutdown(i) => TotalWorkWithout(c, s.busy, i); assert PendingOk(c, s.attempts, s.busy[i]);
  }

  /** Two steps for each attempt each write may get. */
  function Budget(c: Config, writes: nat): nat {
    2 * Limit(c) * writes
  }

  lemma BudgetOneMore(c: Config, writes: nat)
    ensures Budget(c, writes + 1) == Budget(c, writes) + 2 * Limit(c)
  {}

  function DrainSteps(steps: seq<Step>): (n: nat)
    ensures (forall step | step in steps :: Drains(step)) ==> n == |steps|
  {
    if steps == [] then 0 else DrainSteps(steps[..|steps| - 1]) + if Drains(steps[|steps| - 1]) then 1 else 0
  }

  /** Draining ends: however the steps interleave, n writes cause at most 2 * Limit * n steps of all drainers. */
  lemma DrainingEnds(c: Config, states: seq<State>, steps: seq<Step>)
    requires Behaviour(c, states, steps)
    ensures DrainSteps(steps) <= Budget(c, states[|steps|].written)
  {
    hide Enabled, Apply, Limit, WorkLeft, Budget;
    var s := states[|steps|];
    WorkIsPaidFor(c, states, steps);
    RunKeepsAttempts(c, states, steps, |steps|);
    WorkNeverNegative(c, s);
  }

  /** Drainers can go on exactly while something is queued or in hand: when their steps have run out, both are empty. */
  lemma DrainersStopIff(s: State)
    ensures (exists step :: Drains(step) && Enabled(s, step)) <==> s.queue != [] || s.busy != []
  {
    if s.queue != [] {
      assert Drains(Pop(false)) && Enabled(s, Pop(false));
    } else if s.busy != [] {
      assert Drains(SaveOk(0)) && Enabled(s, SaveOk(0));
    }
  }

  lemma WorkNeverNegative(c: Config, s: State)
    requires AttemptsInv(c, s)
    ensures WorkLeft(c, s) >= |s.queue| + |s.busy|
  {
    hide Limit, TotalWork, AllPending;
    TotalWorkIsNatural(c, s.attempts, s.queue);
    TotalWorkIsNatural(c, s.attempts, s.busy);
  }

  lemma NothingToDo(c: Config, now: int)
    ensures WorkLeft(c, EMPTY.(now := now)) == 0
  {}

  /** A step of a drainer is paid for by the work it uses up; what a write adds is in the budget. */
  lemma StepPays(c: Config, s: State, step: Step)
    requires AttemptsInv(c, s) && Enabled(s, step)
    ensures var s' := Apply(c, s, step);
            (if Drains(step) then 1 else 0) + WorkLeft(c, s') - WorkLeft(c, s)
            <= Budget(c, s'.written) - Budget(c, s.written)
  {
    hide Limit, TotalWork, AttemptsInv, WorkLeft, Budget;
    StepUsesWork(c, s, step);
    BudgetOneMore(c, s.written);
  }

  lemma {:induction false} WorkIsPaidFor(c: Config, states: seq<State>, steps: seq<Step>)
    requires Behaviour(c, states, steps)
    ensures DrainSteps(steps) + WorkLeft(c, states[|steps|]) <= Budget(c, states[|steps|].written)
    decreases |steps|
  {
    hide Enabled, Apply, Drains, Limit, TotalWork, AttemptsInv, WorkLeft, Budget;
    if steps == [] {
      NothingToDo(c, states[0].now);
    } else {
      var n := |steps| - 1;
      assert Behaviour(c, states[..n + 1], steps[..n]);
      WorkIsPaidFor(c, states[..n + 1], steps[..n]);
      assert states[..n + 1][n] == states[n];
      RunKeepsAttempts(c, states, steps, n);
      StepPays(c, states[n], steps[n]);
    }
  }

  // ---------- order ----------

  /** Saved, then in hand, then waiting: with one drainer this line only ever loses entries or grows at its end. */
  function Line(s: State): seq<Entry> {
    s.saved + s.busy + s.queue
  }

  /** Entries that never failed stand in the order they were written. */
  ghost predicate InWriteOrder(es: seq<Entry>) {
    forall i, j | 0 <= i < j < |es| && es[i].retries == 0 && es[j].retries == 0 :: es[i].number < es[j].number
  }

  ghost predicate AllBefore(es: seq<Entry>, n: nat) {
    forall i | 0 <= i < |es| :: es[i].number < n
  }

  /** Never more than that many drainers at work at once. */
  ghost predicate Drainers(states: seq<State>, d: nat) {
    forall i | 0 <= i < |states| :: |states[i].busy| <= d
  }

  lemma OrderSurvivesRemoval(es: seq<Entry>, i: nat, n: nat)
    requires InWriteOrder(es) && AllBefore(es, n) && i < |es|
    ensures InWriteOrder(Without(es, i)) && AllBefore(Without(es, i), n)
  {}

  lemma OrderSurvivesRetry(es: seq<Entry>, e: Entry, n: nat)
    requires InWriteOrder(es) && AllBefore(es, n) && e.retries > 0 && e.number < n
    ensures InWriteOrder(es + [e]) && AllBefore(es + [e], n)
  {}

  ghost predicate Ordered(s: State) {
    |s.busy| <= 1 && InWriteOrder(Line(s)) && AllBefore(Line(s), s.written)
  }

  lemma WriteKeepsOrder(c: Config, s: State)
    requires Ordered(s)
    ensures Ordered(Apply(c, s, Write))
  {
    hide InWriteOrder, AllBefore;
    assert Line(Apply(c, s, Write)) == Line(s) + [Entry(s.written, s.now, 0)];
    OrderSurvivesWrite(Line(s), s.written, s.now);
  }

  lemma PopKeepsOrder(c: Config, s: State, step: Step)
    requires Ordered(s) && Enabled(s, step) && (step.Pop? || step.PopReplyLost?) && |Apply(c, s, step).busy| <= 1
    ensures Ordered(Apply(c, s, step))
  {
    hide InWriteOrder, AllBefore, TooOld;
    var s', at := Apply(c, s, step), |s.saved| + |s.busy|;
    if |s'.busy| > |s.busy| {
      assert Line(s') == Line(s);
    } else {
      assert Line(s') == Without(Line(s), at);
      OrderSurvivesRemoval(Line(s), at, s.written);
    }
  }

  lemma OutcomeKeepsOrder(c: Config, s: State, step: Step)
    requires Ordered(s) && Enabled(s, step) && (step.SaveOk? || step.SaveFails? || step.SaveFailsAtShutdown?)
    ensures Ordered(Apply(c, s, step))
  {
    hide InWriteOrder, AllBefore, Attempt;
    var s', at := Apply(c, s, step), |s.saved|;
    var e := s.busy[0].(retries := s.busy[0].retries + 1);
    assert s'.busy == [];
    assert Line(s)[at] == s.busy[0];
    if |s'.saved| > |s.saved| {
      assert Line(s') == Line(s);
    } else if |s'.queue| > |s.queue| {
      RemainingLine(s);
      assert Line(s') == Without(Line(s), at) + [e];
      BeforeAt(Line(s), s.written, at);
      OrderSurvivesRemoval(Line(s), at, s.written);
      OrderSurvivesRetry(Without(Line(s), at), e, s.written);
    } else {
      RemainingLine(s);
      OrderSurvivesRemoval(Line(s), at, s.written);
    }
  }

  /** The line without the entry in hand. */
  lemma RemainingLine(s: State)
    requires |s.busy| == 1
    ensures Without(Line(s), |s.saved|) == s.saved + s.queue
    ensures s.saved + [] + s.queue == s.saved + s.queue
  {}

  lemma StepKeepsOrder(c: Config, s: State, step: Step)
    requires Ordered(s) && Enabled(s, step) && |Apply(c, s, step).busy| <= 1
    ensures Ordered(Apply(c, s, step))
  {
    hide InWriteOrder, AllBefore;
    match step
    case Tick(_) =>
    case Write => WriteKeepsOrder(c, s);
    case Pop(_) => PopKeepsOrder(c, s, step);
    case PopReplyLost => PopKeepsOrder(c, s, step);
    case _ => OutcomeKeepsOrder(c, s, step);
  }

  lemma BeforeAt(es: seq<Entry>, n: nat, i: nat)
    requires AllBefore(es, n) && i < |es|
    ensures es[i].number < n
  {}

  lemma OrderSurvivesWrite(es: seq<Entry>, n: nat, now: int)
    requires InWriteOrder(es) && AllBefore(es, n)
    ensures InWriteOrder(es + [Entry(n, now, 0)]) && AllBefore(es + [Entry(n, now, 0)], n + 1)
  {}

  lemma {:induction false} RunKeepsOrder(c: Config, states: seq<State>, steps: seq<Step>, k: nat)
    requires Behaviour(c, states, steps) && Drainers(states, 1) && k < |states|
    ensures Ordered(states[k])
  {
    hide Enabled, Apply, Ordered;
    if k == 0 {
      EmptyLine(states[0].now);
    } else {
      RunKeepsOrder(c, states, steps, k - 1);
      assert |states[k].busy| <= 1;
      StepKeepsOrder(c, states[k - 1], steps[k - 1]);
    }
  }

  lemma EmptyLine(now: int)
    ensures Ordered(EMPTY.(now := now))
  {}

  /** With one drainer, events saved at their first attempt are saved in the order they were written. */
  lemma FirstAttemptsKeepWriteOrder(c: Config, states: seq<State>, steps: seq<Step>, k: nat, i: nat, j: nat)
    requires Behaviour(c, states, steps) && Drainers(states, 1) && k < |states|
    requires i < j < |states[k].saved|
    requires states[k].saved[i].retries == 0 && states[k].saved[j].retries == 0
    ensures states[k].saved[i].number < states[k].saved[j].number
  {
    hide Enabled, Apply;
    RunKeepsOrder(c, states, steps, k);
    assert Line(states[k])[i] == states[k].saved[i] && Line(states[k])[j] == states[k].saved[j];
  }

  /** With two drainers they need not be: the second write is saved first in this run. */
  lemma TwoDrainersReorder(c: Config) returns (states: seq<State>, steps: seq<Step>)
    ensures Behaviour(c, states, steps) && Drainers(states, 2)
    ensures var saved := states[|steps|].saved;
            |saved| == 2 && saved[0].retries == 0 && saved[1].retries == 0 && saved[1].number < saved[0].number
  {
    hide Attempt;
    var s1 := Apply(c, EMPTY, Write);
    var s2 := Apply(c, s1, Write);
    var s3 := Apply(c, s2, Pop(true));
    var s4 := Apply(c, s3, Pop(true));
    var s5 := Apply(c, s4, SaveOk(1));
    var s6 := Apply(c, s5, SaveOk(0));
    steps := [Write, Write, Pop(true), Pop(true), SaveOk(1), SaveOk(0)];
    states := [EMPTY, s1, s2, s3, s4, s5, s6];
  }

  /** In every run with at most d drainers at once, events saved at their first attempt are saved in write order. */
  ghost predicate KeepsWriteOrder(c: Config, d: nat) {
    forall states: seq<State>, steps: seq<Step>, k: nat, i: nat, j: nat
      | Behaviour(c, states, steps) && Drainers(states, d) && k < |states| && i < j < |states[k].saved|
        && states[k].saved[i].retries == 0 && states[k].saved[j].retries == 0 ::
      states[k].saved[i].number < states[k].saved[j].number
  }

  /** First attempts keep the write order, over all runs, exactly when no two drainers ever work at once. */
  lemma KeepsWriteOrderIff(c: Config, d: nat)
    ensures KeepsWriteOrder(c, d) <==> d <= 1
  {
    hide Enabled, Apply;
    if d <= 1 {
      forall states: seq<State>, steps: seq<Step>, k: nat, i: nat, j: nat
        | Behaviour(c, states, steps) && Drainers(states, d) && k < |states| && i < j < |states[k].saved|
          && states[k].saved[i].retries == 0 && states[k].saved[j].retries == 0
        ensures states[k].saved[i].number < states[k].saved[j].number
      {
        assert Drainers(states, 1);
        FirstAttemptsKeepWriteOrder(c, states, steps, k, i, j);
      }
    } else {
      var states, steps := TwoDrainersReorder(c);
      assert Drainers(states, d);
      assert states[|steps|].saved[1].number < states[|steps|].saved[0].number;
    }
  }
}
