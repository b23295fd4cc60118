/**
  * The claim protocol as interleaved steps: any number of TryClaim calls on any replica share one claims table.
  * Each SQL statement is one step at the table's clock. A call whose INSERT times out or errors is told so,
  * and its INSERT may still commit at any later time.
  */
module ArbiterProtocol {
  import opened Options
  import opened ArbiterClaims

  type CallId = nat

  datatype Verdict = Won | ErrLost(winner: EventId) | StoreError

  datatype Stage = Inserting | ReadingHolder | Returned(verdict: Verdict)

  datatype Call = Call(claim: Claim, stage: Stage)

  /** `log` records the INSERTs that ran, oldest first; `abandoned` the calls whose INSERT may still run. */
  datatype State = State(
    rows: map<TaskId, Row>, now: int, calls: map<CallId, Call>, abandoned: set<CallId>, log: seq<Arrival>)

  datatype Step =
    | Tick(later: int)
    | Start(id: CallId, claim: Claim)
    | Insert(id: CallId)
    | Abandon(id: CallId)
    | LateInsert(id: CallId)
    | ReadHolder(id: CallId)
    | ReadFails(id: CallId)

  function RowOf(s: State, task: TaskId): Option<Row> {
    if task in s.rows then Some(s.rows[task]) else None
  }

  function Holder(s: State, task: TaskId): Option<EventId> {
    if task in s.rows then Some(s.rows[task].eventId) else None
  }

  /** The table after the INSERT of c, and the log entry it leaves. */
  function RunInsert(s: State, c: Claim, window: int): State {
    var row := Upsert(RowOf(s, c.taskId), c, s.now, window).value;
    s.(rows := s.rows[c.taskId := row], log := s.log + [Arrival(c, s.now)])
  }

  function SetStage(s: State, id: CallId, stage: Stage): State
    requires id in s.calls
  {
    s.(calls := s.calls[id := s.calls[id].(stage := stage)])
  }

  /** What the caller does with the INSERT's answer. */
  function AfterInsert(c: Claim, returned: Option<EventId>): Stage {
    match returned
    case None => ReadingHolder
    case Some(holder) => if holder != c.eventId then Returned(ErrLost(holder)) else Returned(Won)
  }

  function ReturnedId(s: State, c: Claim, window: int): Option<EventId> {
    if Fires(RowOf(s, c.taskId), c, s.now, window) then Holder(RunInsert(s, c, window), c.taskId) else None
  }

  ghost predicate Enabled(s: State, step: Step) {
    match step
    case Tick(later) => s.now <= later
    case Start(id, _) => id !in s.calls
    case Insert(id) => id in s.calls && s.calls[id].stage.Inserting?
    case Abandon(id) => id in s.calls && s.calls[id].stage.Inserting?
    case LateInsert(id) => id in s.abandoned && id in s.calls
    case ReadHolder(id) => id in s.calls && s.calls[id].stage.ReadingHolder?
    case ReadFails(id) => id in s.calls && s.calls[id].stage.ReadingHolder?
  }

  function Apply(s: State, step: Step, window: int): State
    requires Enabled(s, step)
  {
    match step
    case Tick(later) => s.(now := later)
    case Start(id, c) => s.(calls := s.calls[id := Call(c, Inserting)])
    case Insert(id) =>
      var c := s.calls[id].claim;
      SetStage(RunInsert(s, c, window), id, AfterInsert(c, ReturnedId(s, c, window)))
    case Abandon(id) => SetStage(s, id, Returned(StoreError)).(abandoned := s.abandoned + {id})
    case LateInsert(id) => RunInsert(s, s.calls[id].claim, window).(abandoned := s.abandoned - {id})
    case ReadHolder(id) =>
      (match Holder(s, s.calls[id].claim.taskId)
       case Some(winner) => SetStage(s, id, Returned(ErrLost(winner)))
       case None => SetStage(s, id, Returned(StoreError)))
    case ReadFails(id) => SetStage(s, id, Returned(StoreError))
  }

  function Start0(now: int): State {
    State(map[], now, map[], {}, [])
  }

  /** states[i] becomes states[i + 1] by steps[i], from an empty table. */
  ghost predicate Behaviour(states: seq<State>, steps: seq<Step>, window: int) {
    && |states| == |steps| + 1
    && (exists now :: states[0] == Start0(now))
    && forall i | 0 <= i < |steps| ::
         Enabled(states[i], steps[i]) && states[i + 1] == Apply(states[i], steps[i], window)
  }

  // ---------- what a losing claim can count on ----------

  /** The claim cannot become the holder any more: a lower id is, or another id is for good. */
  predicate ShutOut(row: Option<Row>, id: EventId, now: int, window: int) {
    && row.Some?
    && row.value.eventId != id
    && (row.value.eventId < id || row.value.claimedAt <= now - window)
  }

  /** A call that got no row back found the claim's own id in the table, or is shut out. */
  predicate Beaten(row: Option<Row>, id: EventId, now: int, window: int) {
    row.Some? && (row.value.eventId == id || ShutOut(row, id, now, window))
  }

  ghost predicate CallInv(s: State, id: CallId, window: int)
    requires id in s.calls
  {
    var c := s.calls[id].claim;
    match s.calls[id].stage
    case ReadingHolder => Beaten(RowOf(s, c.taskId), c.eventId, s.now, window)
    case Returned(ErrLost(w)) => w == c.eventId || ShutOut(RowOf(s, c.taskId), c.eventId, s.now, window)
    case _ => true
  }

  ghost predicate CallsInv(s: State, window: int) {
    && (forall id | id in s.calls :: CallInv(s, id, window))
    && (forall id | id in s.abandoned :: id in s.calls && s.calls[id].stage == Returned(StoreError))
  }

  /** The table holds, task by task, what the recorded arrivals make of an empty table. */
  ghost predicate TableInv(s: State, window: int) {
    && InOrder(s.log)
    && (forall a | a in s.log :: a.at <= s.now)
    && (forall t :: RowOf(s, t) == Current(Holders(Select(s.log, t), window)))
  }

  ghost predicate Inv(s: State, window: int) {
    CallsInv(s, window) && TableInv(s, window)
  }

  /** The arrivals for one task id. */
  function Select(log: seq<Arrival>, task: TaskId): seq<Arrival> {
    if log == [] then []
    else
      var init := Select(log[..|log| - 1], task);
      if log[|log| - 1].claim.taskId == task then init + [log[|log| - 1]] else init
  }

  lemma LogStaysInOrder(log: seq<Arrival>, last: Arrival)
    requires InOrder(log) && forall a | a in log :: a.at <= last.at
    ensures InOrder(log + [last])
  {
    forall i, j | 0 <= i < j < |log + [last]| ensures (log + [last])[i].at <= (log + [last])[j].at {
      assert log[i] in log;
    }
  }

  lemma SelectOneMore(log: seq<Arrival>, last: Arrival, task: TaskId)
    ensures Select(log + [last], task)
            == if last.claim.taskId == task then Select(log, task) + [last] else Select(log, task)
  {
    assert (log + [last])[..|log|] == log;
  }

  lemma HoldersOneMore(arrivals: seq<Arrival>, last: Arrival, window: int)
    ensures var before := Holders(arrivals, window);
            Holders(arrivals + [last], window)
            == if Fires(Current(before), last.claim, last.at, window)
               then before + [Row(last.claim.eventId, last.claim.claimant, last.at)] else before
  {
    assert (arrivals + [last])[..|arrivals|] == arrivals;
  }

  lemma InsertRow(s: State, c: Claim, window: int, task: TaskId)
    requires RowOf(s, task) == Current(Holders(Select(s.log, task), window))
    ensures var s' := RunInsert(s, c, window);
            RowOf(s', task) == Current(Holders(Select(s'.log, task), window))
  {
    hide Select, Holders;
    var last := Arrival(c, s.now);
    SelectOneMore(s.log, last, task);
    HoldersOneMore(Select(s.log, task), last, window);
  }

  lemma InsertKeepsTable(s: State, c: Claim, window: int)
    requires TableInv(s, window)
    ensures TableInv(RunInsert(s, c, window), window)
  {
    hide Holders, Select, InOrder;
    LogStaysInOrder(s.log, Arrival(c, s.now));
    forall t
      ensures RowOf(RunInsert(s, c, window), t) == Current(Holders(Select(RunInsert(s, c, window).log, t), window))
    {
      InsertRow(s, c, window, t);
    }
  }

  lemma SameTable(s: State, s': State, window: int)
    requires TableInv(s, window) && s'.rows == s.rows && s'.log == s.log && s.now <= s'.now
    ensures TableInv(s', window)
  {
    hide Holders, Select, InOrder;
    assert forall t :: RowOf(s', t) == RowOf(s, t);
  }

  lemma StepKeepsTable(s: State, step: Step, window: int)
    requires TableInv(s, window) && Enabled(s, step)
    ensures TableInv(Apply(s, step, window), window)
  {
    hide TableInv;
    var s' := Apply(s, step, window);
    match step
    case Insert(id) =>
      InsertKeepsTable(s, s.calls[id].claim, window);
      SameTable(RunInsert(s, s.calls[id].claim, window), s', window);
    case LateInsert(id) =>
      InsertKeepsTable(s, s.calls[id].claim, window);
      SameTable(RunInsert(s, s.calls[id].claim, window), s', window);
    case _ =>
      SameTable(s, s', window);
  }

  lemma InsertKeepsCalls(s: State, c: Claim, window: int)
    requires CallsInv(s, window)
    ensures CallsInv(RunInsert(s, c, window), window)
  {
    forall id | id in s.calls ensures CallInv(RunInsert(s, c, window), id, window) {
      var mine := s.calls[id].claim;
      if mine.taskId == c.taskId && ShutOut(RowOf(s, c.taskId), mine.eventId, s.now, window) {
      }
    }
  }

  lemma StepKeepsCalls(s: State, step: Step, window: int)
    requires CallsInv(s, window) && Enabled(s, step)
    ensures CallsInv(Apply(s, step, window), window)
  {
    match step
    case Insert(id) =>
      InsertKeepsCalls(s, s.calls[id].claim, window);
    case LateInsert(id) =>
      InsertKeepsCalls(s, s.calls[id].claim, window);
    case _ =>
  }

  lemma StepKeepsInv(s: State, step: Step, window: int)
    requires Inv(s, window) && Enabled(s, step)
    ensures Inv(Apply(s, step, window), window)
  {
    hide Enabled, Apply, CallsInv, TableInv;
    StepKeepsCalls(s, step, window);
    StepKeepsTable(s, step, window);
  }

  lemma {:induction false} BehaviourKeepsInv(states: seq<State>, steps: seq<Step>, window: int, i: nat)
    requires Behaviour(states, steps, window) && i < |states|
    ensures Inv(states[i], window)
  {
    if i > 0 {
      BehaviourKeepsInv(states, steps, window, i - 1);
      StepKeepsInv(states[i - 1], steps[i - 1], window);
    }
  }

  // ---------- the table over time ----------

  /** From one state to a later one a row never disappears, and its id never rises. */
  ghost predicate RowsDescend(s: State, s': State) {
    forall t | t in s.rows :: t in s'.rows && s'.rows[t].eventId <= s.rows[t].eventId
      && (s'.rows[t].eventId == s.rows[t].eventId ==> s'.rows[t] == s.rows[t])
  }

  lemma StepDescends(s: State, step: Step, window: int)
    requires Enabled(s, step)
    ensures RowsDescend(s, Apply(s, step, window)) && s.now <= Apply(s, step, window).now
  {}

  lemma {:induction false} HolderOnlyDescends(states: seq<State>, steps: seq<Step>, window: int, i: nat, j: nat)
    requires Behaviour(states, steps, window) && i <= j < |states|
    ensures RowsDescend(states[i], states[j]) && states[i].now <= states[j].now
    decreases j - i
  {
    hide Enabled, Apply;
    if i < j {
      HolderOnlyDescends(states, steps, window, i, j - 1);
      StepDescends(states[j - 1], steps[j - 1], window);
    }
  }

  lemma {:induction false} ShutOutStays(states: seq<State>, steps: seq<Step>, window: int, i: nat, j: nat, c: Claim)
    requires Behaviour(states, steps, window) && i <= j < |states|
    requires ShutOut(RowOf(states[i], c.taskId), c.eventId, states[i].now, window)
    ensures ShutOut(RowOf(states[j], c.taskId), c.eventId, states[j].now, window)
    decreases j - i
  {
    if i < j {
      ShutOutStays(states, steps, window, i, j - 1, c);
      assert Enabled(states[j - 1], steps[j - 1]) && states[j] == Apply(states[j - 1], steps[j - 1], window);
    }
  }

  /** Undisturbed for a full settle window, a holder is final in every continuation. */
  lemma {:induction false} SettledHolderIsFinal(states: seq<State>, steps: seq<Step>, window: int, i: nat, j: nat,
                                                task: TaskId)
    requires Behaviour(states, steps, window) && i <= j < |states|
    requires task in states[i].rows && states[i].rows[task].claimedAt + window <= states[i].now
    ensures task in states[j].rows && states[j].rows[task] == states[i].rows[task]
    decreases j - i
  {
    if i < j {
      SettledHolderIsFinal(states, steps, window, i, j - 1, task);
      HolderOnlyDescends(states, steps, window, i, j - 1);
      assert Enabled(states[j - 1], steps[j - 1]) && states[j] == Apply(states[j - 1], steps[j - 1], window);
    }
  }

  // ---------- what TryClaim's verdicts mean ----------

  /**
    * The fencing guarantee: once TryClaim(c) has returned ErrLost naming another id, c is never the holder
    * again, whatever else runs afterwards, late INSERTs of c's own timed-out calls included.
    */
  lemma LoserNeverHolds(states: seq<State>, steps: seq<Step>, window: int, i: nat, j: nat, id: CallId)
    requires Behaviour(states, steps, window) && i <= j < |states|
    requires id in states[i].calls && states[i].calls[id].stage.Returned? && states[i].calls[id].stage.verdict.ErrLost?
    requires states[i].calls[id].stage.verdict.winner != states[i].calls[id].claim.eventId
    ensures var c := states[i].calls[id].claim;
            Holder(states[j], c.taskId).Some? && Holder(states[j], c.taskId) != Some(c.eventId)
  {
    BehaviourKeepsInv(states, steps, window, i);
    assert CallInv(states[i], id, window);
    ShutOutStays(states, steps, window, i, j, states[i].calls[id].claim);
  }

  /** Won is returned exactly when the INSERT made the claim the holder at that step. */
  lemma WonMeansBecameHolder(s: State, id: CallId, window: int)
    requires Inv(s, window) && Enabled(s, Insert(id))
    ensures var s', c := Apply(s, Insert(id), window), s.calls[id].claim;
            && (s'.calls[id].stage == Returned(Won)
                <==> Holder(s, c.taskId) != Some(c.eventId) && Holder(s', c.taskId) == Some(c.eventId))
            && (s'.calls[id].stage != Returned(Won) ==> s'.calls[id].stage.ReadingHolder? && s'.rows == s.rows)
  {}

  /** ErrLost names whoever was the holder when it was read; naming the claim itself means the claim is the holder. */
  lemma LostNamesTheHolder(s: State, id: CallId, window: int)
    requires Inv(s, window) && Enabled(s, ReadHolder(id))
    ensures var s', c := Apply(s, ReadHolder(id), window), s.calls[id].claim;
            && s'.calls[id].stage.verdict.ErrLost?
            && Holder(s', c.taskId) == Holder(s, c.taskId) == Some(s'.calls[id].stage.verdict.winner)
  {
    assert CallInv(s, id, window);
  }

  lemma {:induction false} ClaimsStay(states: seq<State>, steps: seq<Step>, window: int, i: nat, j: nat, id: CallId)
    requires Behaviour(states, steps, window) && i <= j < |states| && id in states[i].calls
    ensures id in states[j].calls && states[j].calls[id].claim == states[i].calls[id].claim
    decreases j - i
  {
    if i < j {
      ClaimsStay(states, steps, window, i, j - 1, id);
      assert Enabled(states[j - 1], steps[j - 1]) && states[j] == Apply(states[j - 1], steps[j - 1], window);
    }
  }

  /** The claim was the holder at state i and nobody displaced it up to state n. */
  ghost predicate Undisplaced(states: seq<State>, i: nat, n: nat, c: Claim)
    requires i <= n < |states|
  {
    forall k | i <= k <= n :: Holder(states[k], c.taskId) == Some(c.eventId)
  }

  /**
    * A caller told "store error" whose INSERT made its claim the holder after all, and who retries the same event, is
    * refused with an ErrLost: with its own id exactly when nobody displaced it before the retry read the holder, and
    * with the lower id that holds it otherwise.
    */
  lemma RetryLearnsItHoldsIff(states: seq<State>, steps: seq<Step>, window: int, i: nat, m: nat, n: nat, id: CallId)
    requires Behaviour(states, steps, window) && i <= m < n < |steps|
    requires steps[m] == Insert(id) && steps[n] == ReadHolder(id) && id in states[m].calls
    requires var c := states[m].calls[id].claim; Holder(states[i], c.taskId) == Some(c.eventId)
    ensures states[m + 1].rows == states[m].rows
    ensures var c := states[m].calls[id].claim;
            && id in states[n + 1].calls && states[n + 1].calls[id].stage.Returned?
            && var verdict := states[n + 1].calls[id].stage.verdict;
               && verdict.ErrLost? && verdict.winner <= c.eventId
               && Holder(states[n], c.taskId) == Some(verdict.winner)
               && (verdict.winner == c.eventId <==> Undisplaced(states, i, n, c))
  {
    hide Fires;
    var c := states[m].calls[id].claim;
    HolderOnlyDescends(states, steps, window, i, m);
    HolderOnlyDescends(states, steps, window, i, n);
    ClaimsStay(states, steps, window, m, n, id);
    RefusedByItself(states[m], id, window);
    BehaviourKeepsInv(states, steps, window, n);
    LostNamesTheHolder(states[n], id, window);
    forall k | i <= k <= n
      ensures c.taskId in states[k].rows
      ensures states[n].rows[c.taskId].eventId <= states[k].rows[c.taskId].eventId <= c.eventId
    {
      HolderOnlyDescends(states, steps, window, i, k);
      HolderOnlyDescends(states, steps, window, k, n);
    }
  }

  /** An INSERT that meets its own id, or a lower one, changes nothing. */
  lemma RefusedByItself(s: State, id: CallId, window: int)
    requires Enabled(s, Insert(id))
    requires var c := s.calls[id].claim; c.taskId in s.rows && s.rows[c.taskId].eventId <= c.eventId
    ensures Apply(s, Insert(id), window).rows == s.rows
  {}

  /** A call that lost is told its own id exactly when its claim is the holder at the moment of the read. */
  lemma LostToItselfIff(states: seq<State>, steps: seq<Step>, window: int, n: nat, id: CallId)
    requires Behaviour(states, steps, window) && n < |steps|
    requires steps[n] == ReadHolder(id) && id in states[n].calls
    ensures var c := states[n].calls[id].claim;
            && id in states[n + 1].calls
            && (states[n + 1].calls[id].stage == Returned(ErrLost(c.eventId))
                <==> Holder(states[n], c.taskId) == Some(c.eventId))
  {
    BehaviourKeepsInv(states, steps, window, n);
    LostNamesTheHolder(states[n], id, window);
  }

  /** The call has just come to this verdict. */
  predicate Answered(s: State, s': State, id: CallId, verdict: Verdict) {
    && id in s'.calls && s'.calls[id].stage == Returned(verdict)
    && !(id in s.calls && s.calls[id].stage == Returned(verdict))
  }

  /**
    * Every refusal names the truth: in every step of every behaviour a call that comes to ErrLost(w) has read the
    * table, and w is the holder at that moment.
    */
  lemma EveryRefusalNamesTheHolder(states: seq<State>, steps: seq<Step>, window: int, n: nat, id: CallId, w: EventId)
    requires Behaviour(states, steps, window) && n < |steps|
    requires Answered(states[n], states[n + 1], id, ErrLost(w))
    ensures steps[n] == ReadHolder(id) && id in states[n].calls
    ensures var task := states[n + 1].calls[id].claim.taskId;
            Holder(states[n], task) == Holder(states[n + 1], task) == Some(w)
  {
    assert Enabled(states[n], steps[n]) && states[n + 1] == Apply(states[n], steps[n], window);
  }

  /**
    * A call ends in a store error exactly when its INSERT was abandoned or its read of the holder failed: nobody is
    * told to have lost without the holder's id, and nobody who has read the holder is told to retry.
    */
  lemma StoreErrorIff(states: seq<State>, steps: seq<Step>, window: int, n: nat, id: CallId)
    requires Behaviour(states, steps, window) && n < |steps|
    ensures Answered(states[n], states[n + 1], id, StoreError) <==> steps[n] == Abandon(id) || steps[n] == ReadFails(id)
  {
    BehaviourKeepsInv(states, steps, window, n);
    assert Enabled(states[n], steps[n]) && states[n + 1] == Apply(states[n], steps[n], window);
    if steps[n] == ReadHolder(id) {
      LostNamesTheHolder(states[n], id, window);
    }
  }

  /** And once a call has its verdict it keeps it. */
  lemma {:induction false} VerdictsStand(states: seq<State>, steps: seq<Step>, window: int, i: nat, j: nat, id: CallId)
    requires Behaviour(states, steps, window) && i <= j < |states|
    requires id in states[i].calls && states[i].calls[id].stage.Returned?
    ensures id in states[j].calls && states[j].calls[id] == states[i].calls[id]
    decreases j - i
  {
    if i < j {
      VerdictsStand(states, steps, window, i, j - 1, id);
      assert Enabled(states[j - 1], steps[j - 1]) && states[j] == Apply(states[j - 1], steps[j - 1], window);
    }
  }

  function LowClaim(): Claim { Claim("t", 3, "low") }

  function HighClaim(): Claim { Claim("t", 5, "high") }

  /**
    * The retry need not learn that its own event was accepted: this call is abandoned, its INSERT commits late, a lower
    * id displaces it inside the window, and the retry is told the lower id.
    */
  lemma DisplacedRetry(window: int) returns (states: seq<State>, steps: seq<Step>)
    requires window > 0
    ensures Behaviour(states, steps, window) && |steps| == 8
    ensures steps[1] == Abandon(0) && steps[2] == LateInsert(0) && steps[6] == Insert(2) && steps[7] == ReadHolder(2)
    ensures 0 in states[1].calls && 2 in states[6].calls && states[6].calls[2].claim == states[1].calls[0].claim
    ensures Holder(states[3], "t") == Some(5)
    ensures 2 in states[8].calls && states[8].calls[2].stage == Returned(ErrLost(3))
  {
    var s0 := Start0(0);
    var s1 := Apply(s0, Start(0, HighClaim()), window);
    var s2 := Apply(s1, Abandon(0), window);
    var s3 := Apply(s2, LateInsert(0), window);
    var s4 := Apply(s3, Start(1, LowClaim()), window);
    var s5 := Apply(s4, Insert(1), window);
    var s6 := Apply(s5, Start(2, HighClaim()), window);
    var s7 := Apply(s6, Insert(2), window);
    var s8 := Apply(s7, ReadHolder(2), window);
    steps := [Start(0, HighClaim()), Abandon(0), LateInsert(0), Start(1, LowClaim()), Insert(1),
              Start(2, HighClaim()), Insert(2), ReadHolder(2)];
    states := [s0, s1, s2, s3, s4, s5, s6, s7, s8];
  }

  // ---------- which INSERTs run, when, and what each of them decides ----------

  /** The clock is the last tick's. */
  function ClockAfter(start: int, steps: seq<Step>): int {
    if steps == [] then start
    else if steps[|steps| - 1].Tick? then steps[|steps| - 1].later
    else ClockAfter(start, steps[..|steps| - 1])
  }

  predicate RunsInsert(step: Step, id: CallId) {
    step == Insert(id) || step == LateInsert(id)
  }

  function InsertsOf(steps: seq<Step>, id: CallId): nat {
    if steps == [] then 0
    else InsertsOf(steps[..|steps| - 1], id) + if RunsInsert(steps[|steps| - 1], id) then 1 else 0
  }

  /** The INSERT of this call has not run and may still run. */
  predicate MayInsert(s: State, id: CallId) {
    id in s.abandoned || (id in s.calls && s.calls[id].stage.Inserting?)
  }

  ghost predicate AbandonedReturned(s: State) {
    forall id | id in s.abandoned :: id in s.calls && s.calls[id].stage.Returned?
  }

  /** Each call's INSERT runs at most once, abandoned or not, and at the clock of its step. */
  lemma {:induction false} EachInsertRunsOnce(states: seq<State>, steps: seq<Step>, window: int, n: nat, id: CallId)
    requires Behaviour(states, steps, window) && n < |states|
    ensures InsertsOf(steps[..n], id) + (if MayInsert(states[n], id) then 1 else 0) <= 1
    ensures id !in states[n].calls ==> InsertsOf(steps[..n], id) == 0
    ensures AbandonedReturned(states[n]) && states[n].now == ClockAfter(states[0].now, steps[..n])
  {
    if n > 0 {
      EachInsertRunsOnce(states, steps, window, n - 1, id);
      assert steps[..n][..n - 1] == steps[..n - 1];
      assert Enabled(states[n - 1], steps[n - 1]) && states[n] == Apply(states[n - 1], steps[n - 1], window);
    }
  }

  /**
    * What an INSERT decides, late ones included: it takes a task nobody holds, and one whose holder has a higher id and
    * took it less than a window ago; it never touches another task.
    */
  lemma InsertDecides(states: seq<State>, steps: seq<Step>, window: int, n: nat, id: CallId)
    requires Behaviour(states, steps, window) && n < |steps| && RunsInsert(steps[n], id) && id in states[n].calls
    ensures var c, before, after := states[n].calls[id].claim, states[n].rows, states[n + 1].rows;
            && c.taskId in after
            && (if c.taskId !in before
                   || (c.eventId < before[c.taskId].eventId
                       && states[n].now - window < before[c.taskId].claimedAt)
                then after[c.taskId] == Row(c.eventId, c.claimant, states[n].now)
                else after[c.taskId] == before[c.taskId])
            && forall t | t != c.taskId :: (t in after <==> t in before) && (t in before ==> after[t] == before[t])
  {
    assert Enabled(states[n], steps[n]) && states[n + 1] == Apply(states[n], steps[n], window);
  }

  /** And nothing but an INSERT writes the table. */
  lemma OnlyInsertsWrite(states: seq<State>, steps: seq<Step>, window: int, n: nat)
    requires Behaviour(states, steps, window) && n < |steps| && !steps[n].Insert? && !steps[n].LateInsert?
    ensures states[n + 1].rows == states[n].rows
  {
    assert states[n + 1] == Apply(states[n], steps[n], window);
  }

  // ---------- success is returned once ----------

  predicate HasWon(s: State, id: CallId) {
    id in s.calls && s.calls[id].stage == Returned(Won)
  }

  /** A claim that won is still the holder, or a lower id is. */
  ghost predicate WinnersInv(s: State) {
    forall id | HasWon(s, id) ::
      var c := s.calls[id].claim; c.taskId in s.rows && s.rows[c.taskId].eventId <= c.eventId
  }

  predicate SameClaim(s: State, id: CallId, k: CallId)
    requires id in s.calls && k in s.calls
  {
    s.calls[id].claim.taskId == s.calls[k].claim.taskId && s.calls[id].claim.eventId == s.calls[k].claim.eventId
  }

  ghost predicate WonOnce(s: State) {
    forall id, k | HasWon(s, id) && HasWon(s, k) && id != k :: !SameClaim(s, id, k)
  }

  /** Only its own INSERT lets a call win, and only when the holder's id was higher. */
  lemma NewWinner(s: State, step: Step, window: int, id: CallId)
    requires Enabled(s, step) && HasWon(Apply(s, step, window), id)
    ensures id in s.calls && Apply(s, step, window).calls[id].claim == s.calls[id].claim
    ensures HasWon(s, id)
            || (step == Insert(id)
                && var c := s.calls[id].claim;
                   && (c.taskId in s.rows ==> s.rows[c.taskId].eventId > c.eventId)
                   && Holder(Apply(s, step, window), c.taskId) == Some(c.eventId))
  {}

  lemma StepKeepsWonOnce(s: State, step: Step, window: int)
    requires WinnersInv(s) && WonOnce(s) && Enabled(s, step)
    ensures WinnersInv(Apply(s, step, window)) && WonOnce(Apply(s, step, window))
  {
    hide Apply;
    var s' := Apply(s, step, window);
    StepDescends(s, step, window);
    forall id | HasWon(s', id)
      ensures var c := s'.calls[id].claim; c.taskId in s'.rows && s'.rows[c.taskId].eventId <= c.eventId
    {
      NewWinner(s, step, window, id);
    }
    forall id, k | HasWon(s', id) && HasWon(s', k) && id != k
      ensures !SameClaim(s', id, k)
    {
      NewWinner(s, step, window, id);
      NewWinner(s, step, window, k);
    }
  }

  /** In every behaviour at most one call returns success for a claim, however often it is retried on any replica. */
  lemma {:induction false} SuccessIsReturnedOnce(states: seq<State>, steps: seq<Step>, window: int, i: nat)
    requires Behaviour(states, steps, window) && i < |states|
    ensures WonOnce(states[i]) && WinnersInv(states[i])
  {
    if i > 0 {
      SuccessIsReturnedOnce(states, steps, window, i - 1);
      StepKeepsWonOnce(states[i - 1], steps[i - 1], window);
    }
  }

  // ---------- the table is the fold of the arrivals ----------

  lemma {:induction false} SelectKeepsOrder(log: seq<Arrival>, task: TaskId)
    requires InOrder(log)
    ensures InOrder(Select(log, task))
    ensures forall a :: a in Select(log, task) <==> a in log && a.claim.taskId == task
  {
    if log != [] {
      var init, last := log[..|log| - 1], log[|log| - 1];
      SelectKeepsOrder(init, task);
      assert forall a | a in log :: a in init || a == last;
      assert forall a | a in init :: a in log && a.at <= last.at;
    }
  }

  /** In every behaviour, claims that all arrive less than a window after the first leave the Winner as holder. */
  lemma TableAgreesWithWinner(states: seq<State>, steps: seq<Step>, window: int, i: nat, task: TaskId, winner: Claim)
    requires Behaviour(states, steps, window) && i < |states|
    requires var mine := Select(states[i].log, task);
             && mine != []
             && (forall a | a in mine :: a.at < mine[0].at + window)
             && IsWinner(Claims(mine), winner)
    ensures Holder(states[i], task) == Some(winner.eventId)
  {
    BehaviourKeepsInv(states, steps, window, i);
    SelectKeepsOrder(states[i].log, task);
    HolderIsWinner(Select(states[i].log, task), window, winner);
    assert RowOf(states[i], task) == Current(Holders(Select(states[i].log, task), window));
  }
}
