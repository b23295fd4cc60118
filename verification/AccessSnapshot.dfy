/**
  * The access lists held in memory. Writers commit to the database, refreshers reload the four tables one
  * SELECT at a time under a mutex, and readers only ever see the snapshot that was published last.
  */
module AccessSnapshot {
  import opened Options

  /** Pubkeys, event ids and kinds are all just keys of their table. */
  type Key = string
  type RefresherId = nat

  datatype Table = BannedPubkeys | BannedEvents | ExemptPubkeys | AllowedKinds

  const TABLES: nat := 4

  /** The order in which a reload reads the tables. */
  function Position(t: Table): (i: nat)
    ensures i < TABLES
  {
    match t
    case BannedPubkeys => 0
    case BannedEvents => 1
    case ExemptPubkeys => 2
    case AllowedKinds => 3
  }

  /** INSERT ... ON CONFLICT, and DELETE, of one key. */
  datatype Write = Add(table: nat, key: Key) | Remove(table: nat, key: Key)

  /** The rows of a table after a history of committed writes. */
  function Rows(log: seq<Write>, table: nat): set<Key> {
    if log == [] then {}
    else
      var last, before := log[|log| - 1], Rows(log[..|log| - 1], table);
      if last.table != table then before
      else if last.Add? then before + {last.key} else before - {last.key}
  }

  /** One SELECT: the rows it saw, and how many writes had been committed by then. */
  datatype Read = Read(at: nat, rows: set<Key>)

  datatype Stage = Waiting | Loading(got: seq<Read>) | Finished(ok: bool)

  /** A reload in progress. One that follows a local write must come after the first `need` writes. */
  datatype Refresher = Refresher(need: nat, stage: Stage)

  datatype State = State(
    log: seq<Write>, snap: Option<seq<Read>>, lock: Option<RefresherId>, refreshers: map<RefresherId, Refresher>)

  datatype Step =
    | RemoteWrite(write: Write)
    | LocalWrite(id: RefresherId, write: Write)
    | Periodic(id: RefresherId)
    | Acquire(id: RefresherId)
    | ReadNext(id: RefresherId)
    | Fail(id: RefresherId)
    | Publish(id: RefresherId)

  predicate IsLoading(s: State, id: RefresherId) {
    id in s.refreshers && s.refreshers[id].stage.Loading?
  }

  predicate Enabled(s: State, step: Step) {
    match step
    case RemoteWrite(_) => true
    case LocalWrite(id, _) => id !in s.refreshers
    case Periodic(id) => id !in s.refreshers
    case Acquire(id) => id in s.refreshers && s.refreshers[id].stage.Waiting? && s.lock.None?
    case ReadNext(id) => IsLoading(s, id) && |s.refreshers[id].stage.got| < TABLES
    case Fail(id) => IsLoading(s, id) && |s.refreshers[id].stage.got| < TABLES
    case Publish(id) => IsLoading(s, id) && |s.refreshers[id].stage.got| == TABLES
  }

  function Go(s: State, id: RefresherId, stage: Stage): State
    requires id in s.refreshers
  {
    s.(refreshers := s.refreshers[id := s.refreshers[id].(stage := stage)])
  }

  function Apply(s: State, step: Step): State
    requires Enabled(s, step)
  {
    match step
    case RemoteWrite(w) => s.(log := s.log + [w])
    case LocalWrite(id, w) =>
      s.(log := s.log + [w], refreshers := s.refreshers[id := Refresher(|s.log| + 1, Waiting)])
    case Periodic(id) => s.(refreshers := s.refreshers[id := Refresher(0, Waiting)])
    case Acquire(id) => Go(s, id, Loading([])).(lock := Some(id))
    case ReadNext(id) =>
      var got := s.refreshers[id].stage.got;
      Go(s, id, Loading(got + [Read(|s.log|, Rows(s.log, |got|))]))
    case Fail(id) => Go(s, id, Finished(false)).(lock := None)
    case Publish(id) => Go(s, id, Finished(true)).(lock := None, snap := Some(s.refreshers[id].stage.got))
  }

  ghost predicate Behaviour(states: seq<State>, steps: seq<Step>) {
    && |states| == |steps| + 1
    && states[0].snap.None? && states[0].lock.None? && states[0].refreshers == map[]
    && forall i | 0 <= i < |steps| :: Enabled(states[i], steps[i]) && states[i + 1] == Apply(states[i], steps[i])
  }

  // ---------- what every step keeps ----------

  /** Reads of successive tables, each exact at its own moment, none before the first `from` writes. */
  ghost predicate ReadsOk(log: seq<Write>, got: seq<Read>, from: nat) {
    && |got| <= TABLES
    && (forall i | 0 <= i < |got| ::
          from <= got[i].at <= |log| && got[i].rows == Rows(log[..got[i].at], i))
    && forall i, j | 0 <= i < j < |got| :: got[i].at <= got[j].at
  }

  /** How far the published snapshot has certainly seen: the moment of its last read. */
  function SeenBy(snap: Option<seq<Read>>): nat {
    if snap.Some? && |snap.value| == TABLES then snap.value[TABLES - 1].at else 0
  }

  ghost predicate SnapInv(s: State) {
    s.snap.Some? ==> |s.snap.value| == TABLES && ReadsOk(s.log, s.snap.value, 0)
  }

  ghost predicate LockInv(s: State) {
    && (s.lock.Some? ==> s.lock.value in s.refreshers)
    && forall id | id in s.refreshers :: s.refreshers[id].stage.Loading? <==> s.lock == Some(id)
  }

  ghost predicate RefresherOk(log: seq<Write>, snap: Option<seq<Read>>, r: Refresher) {
    && r.need <= |log|
    && match r.stage
       case Waiting => true
       case Loading(got) => ReadsOk(log, got, r.need) && ReadsOk(log, got, SeenBy(snap))
       case Finished(ok) => ok ==> snap.Some? && ReadsOk(log, snap.value, r.need)
  }

  ghost predicate RefreshersInv(s: State) {
    forall id | id in s.refreshers :: RefresherOk(s.log, s.snap, s.refreshers[id])
  }

  ghost predicate Inv(s: State) {
    SnapInv(s) && LockInv(s) && RefreshersInv(s)
  }

  /** A later snapshot starts reading after the earlier one had finished. */
  ghost predicate NoOlder(a: Option<seq<Read>>, b: Option<seq<Read>>) {
    a.Some? ==> b.Some? && (b == a || forall i | 0 <= i < |b.value| :: SeenBy(a) <= b.value[i].at)
  }

  lemma ReadsStayOk(log: seq<Write>, log': seq<Write>, got: seq<Read>, from: nat)
    requires ReadsOk(log, got, from) && log <= log'
    ensures ReadsOk(log', got, from)
  {
    hide Rows;
    forall i | 0 <= i < |got|
      ensures from <= got[i].at <= |log'| && got[i].rows == Rows(log'[..got[i].at], i)
    {
      assert log'[..got[i].at] == log[..got[i].at];
    }
  }

  lemma OneMoreRead(log: seq<Write>, got: seq<Read>, from: nat)
    requires ReadsOk(log, got, from) && |got| < TABLES && from <= |log|
    ensures ReadsOk(log, got + [Read(|log|, Rows(log, |got|))], from)
  {
    hide Rows;
    var got' := got + [Read(|log|, Rows(log, |got|))];
    assert log[..|log|] == log;
    forall i | 0 <= i < |got'|
      ensures from <= got'[i].at <= |log| && got'[i].rows == Rows(log[..got'[i].at], i)
    {
      assert i < |got| ==> got'[i] == got[i];
    }
    forall i, j | 0 <= i < j < |got'|
      ensures got'[i].at <= got'[j].at
    {
      assert got'[i] == got[i] && (j < |got| ==> got'[j] == got[j]);
    }
  }

  lemma StepKeepsSnap(s: State, step: Step)
    requires Inv(s) && Enabled(s, step)
    ensures SnapInv(Apply(s, step)) && s.log <= Apply(s, step).log && NoOlder(s.snap, Apply(s, step).snap)
  {
    hide Rows, ReadsOk;
    var s' := Apply(s, step);
    if s.snap.Some? && (step.LocalWrite? || step.RemoteWrite?) {
      ReadsStayOk(s.log, s'.log, s.snap.value, 0);
    }
    if step.Publish? {
      assert RefresherOk(s.log, s.snap, s.refreshers[step.id]);
      FromBelow(s.log, s'.snap.value, SeenBy(s.snap));
    }
  }

  lemma FromBelow(log: seq<Write>, got: seq<Read>, from: nat)
    requires ReadsOk(log, got, from)
    ensures ReadsOk(log, got, 0)
    ensures forall i | 0 <= i < |got| :: from <= got[i].at
  {
    hide Rows;
  }

  lemma StepKeepsLock(s: State, step: Step)
    requires Inv(s) && Enabled(s, step)
    ensures LockInv(Apply(s, step))
  {
    hide Rows, ReadsOk;
  }

  /** A snapshot that starts where the old one ended serves every refresher the old one served. */
  lemma NewerSnapshotServes(log: seq<Write>, old_: seq<Read>, new_: seq<Read>, need: nat)
    requires ReadsOk(log, old_, need) && |old_| == TABLES
    requires ReadsOk(log, new_, SeenBy(Some(old_)))
    ensures ReadsOk(log, new_, need)
  {
    hide Rows;
  }

  lemma SnapshotSeesNoMoreThanTheLog(s: State)
    requires SnapInv(s)
    ensures SeenBy(s.snap) <= |s.log|
  {
    hide Rows;
  }

  lemma OtherRefresherStaysOk(s: State, step: Step, id: RefresherId)
    requires Inv(s) && Enabled(s, step) && id in s.refreshers
    requires Apply(s, step).refreshers[id] == s.refreshers[id]
    ensures RefresherOk(Apply(s, step).log, Apply(s, step).snap, s.refreshers[id])
  {
    hide Rows, ReadsOk;
    var s', r := Apply(s, step), s.refreshers[id];
    assert RefresherOk(s.log, s.snap, r);
    StepKeepsSnap(s, step);
    match step
    case RemoteWrite(_) => LogGrows(s, s'.log, r);
    case LocalWrite(_, _) => LogGrows(s, s'.log, r);
    case Publish(k) =>
      assert RefresherOk(s.log, s.snap, s.refreshers[k]);
      assert s.lock == Some(k) && !r.stage.Loading?;
      if r.stage.Finished? && r.stage.ok {
        NewerSnapshotServes(s.log, s.snap.value, s'.snap.value, r.need);
      }
    case _ =>
  }

  lemma LogGrows(s: State, log': seq<Write>, r: Refresher)
    requires RefresherOk(s.log, s.snap, r) && s.log <= log'
    ensures RefresherOk(log', s.snap, r)
  {
    hide Rows, ReadsOk;
    match r.stage
    case Loading(got) =>
      ReadsStayOk(s.log, log', got, r.need);
      ReadsStayOk(s.log, log', got, SeenBy(s.snap));
    case Finished(ok) => if ok { ReadsStayOk(s.log, log', s.snap.value, r.need); }
    case Waiting =>
  }

  lemma ActorStaysOk(s: State, step: Step)
    requires Inv(s) && Enabled(s, step) && !step.RemoteWrite?
    ensures var s' := Apply(s, step); RefresherOk(s'.log, s'.snap, s'.refreshers[step.id])
  {
    hide Rows, ReadsOk;
    var id := step.id;
    SnapshotSeesNoMoreThanTheLog(s);
    if id in s.refreshers {
      var r := s.refreshers[id];
      assert RefresherOk(s.log, s.snap, r);
      if step.ReadNext? {
        OneMoreRead(s.log, r.stage.got, r.need);
        OneMoreRead(s.log, r.stage.got, SeenBy(s.snap));
      } else if step.Acquire? {
        NoReadsAreOk(s.log, r.need);
        NoReadsAreOk(s.log, SeenBy(s.snap));
      }
    }
  }

  lemma NoReadsAreOk(log: seq<Write>, from: nat)
    ensures ReadsOk(log, [], from)
  {}

  lemma StepKeepsInv(s: State, step: Step)
    requires Inv(s) && Enabled(s, step)
    ensures Inv(Apply(s, step))
  {
    hide Rows, ReadsOk;
    var s' := Apply(s, step);
    StepKeepsSnap(s, step);
    StepKeepsLock(s, step);
    forall id | id in s'.refreshers
      ensures RefresherOk(s'.log, s'.snap, s'.refreshers[id])
    {
      if !step.RemoteWrite? && id == step.id {
        ActorStaysOk(s, step);
      } else {
        OtherRefresherStaysOk(s, step, id);
      }
    }
  }

  lemma {:induction false} RunKeepsInv(states: seq<State>, steps: seq<Step>, n: nat)
    requires Behaviour(states, steps) && n < |states|
    ensures Inv(states[n])
  {
    hide Enabled, Apply, Rows, ReadsOk;
    if n != 0 {
      RunKeepsInv(states, steps, n - 1);
      StepKeepsInv(states[n - 1], steps[n - 1]);
    }
  }

  // ---------- the published snapshot never goes back ----------

  /** Between any two moments of a run the database only grows and the snapshot only gets newer, in every table. */
  lemma {:induction false} NeverGoesBack(states: seq<State>, steps: seq<Step>, i: nat, j: nat)
    requires Behaviour(states, steps) && i <= j < |states|
    ensures states[i].log <= states[j].log
    ensures NoOlder(states[i].snap, states[j].snap)
  {
    hide Enabled, Apply, Rows, ReadsOk;
    if i < j {
      NeverGoesBack(states, steps, i, j - 1);
      RunKeepsInv(states, steps, j - 1);
      StepKeepsSnap(states[j - 1], steps[j - 1]);
      RunKeepsInv(states, steps, i);
      NoOlderIsTransitive(states[i], states[j - 1], states[j].snap);
    }
  }

  lemma NoOlderIsTransitive(a: State, b: State, c: Option<seq<Read>>)
    requires SnapInv(b)
    requires NoOlder(a.snap, b.snap) && NoOlder(b.snap, c)
    ensures NoOlder(a.snap, c)
  {
    hide Rows;
  }

  /** The tables the snapshot holds are real: each is what the database held at some moment of the run's past. */
  lemma SnapshotsAreReal(states: seq<State>, steps: seq<Step>, k: nat, t: Table)
    requires Behaviour(states, steps) && k < |states| && states[k].snap.Some?
    ensures |states[k].snap.value| == TABLES
    ensures var r := states[k].snap.value[Position(t)];
            r.at <= |states[k].log| && r.rows == Rows(states[k].log[..r.at], Position(t))
  {
    hide Enabled, Apply, Rows;
    RunKeepsInv(states, steps, k);
  }

  // ---------- the history, and what a table holds after it ----------

  /** The writes of a run, in order: those of this process and those of others. */
  function WritesOf(steps: seq<Step>): seq<Write> {
    if steps == [] then []
    else
      var init := WritesOf(steps[..|steps| - 1]);
      match steps[|steps| - 1]
      case RemoteWrite(w) => init + [w]
      case LocalWrite(_, w) => init + [w]
      case _ => init
  }

  lemma {:induction false} HistoryIsTheWrites(states: seq<State>, steps: seq<Step>, k: nat)
    requires Behaviour(states, steps) && k < |states|
    ensures states[k].log == states[0].log + WritesOf(steps[..k])
  {
    if k > 0 {
      HistoryIsTheWrites(states, steps, k - 1);
      assert steps[..k][..k - 1] == steps[..k - 1];
      assert states[k] == Apply(states[k - 1], steps[k - 1]);
    }
  }

  /** Write i added the key to the table, and no later write touched it there. */
  ghost predicate AddsLast(log: seq<Write>, i: nat, table: nat, key: Key) {
    i < |log| && log[i] == Add(table, key) && forall j | i < j < |log| :: log[j].table != table || log[j].key != key
  }

  lemma AddsLastOneMore(log: seq<Write>, i: nat, table: nat, key: Key)
    requires log != []
    ensures var init, last := log[..|log| - 1], log[|log| - 1];
            AddsLast(log, i, table, key)
            <==> if i == |init| then last == Add(table, key)
                 else AddsLast(init, i, table, key) && (last.table != table || last.key != key)
  {
    var init := log[..|log| - 1];
    assert forall j | 0 <= j < |init| :: init[j] == log[j];
  }

  /** A key is in a table exactly when some write added it there and none after that touched it. */
  lemma {:induction false} LastWriteDecides(log: seq<Write>, table: nat, key: Key)
    ensures key in Rows(log, table) <==> exists i: nat :: AddsLast(log, i, table, key)
  {
    hide AddsLast;
    if log == [] {
      NobodyAdds(table, key);
    } else {
      var init, last := log[..|log| - 1], log[|log| - 1];
      LastWriteDecides(init, table, key);
      AddsLastOneMore(log, |init|, table, key);
      if i: nat :| AddsLast(log, i, table, key) {
        AddsLastOneMore(log, i, table, key);
      }
      if i: nat :| AddsLast(init, i, table, key) {
        AddsLastOneMore(log, i, table, key);
        EarlierThanTheLast(init, i, table, key);
      }
    }
  }

  lemma EarlierThanTheLast(log: seq<Write>, i: nat, table: nat, key: Key)
    ensures AddsLast(log, i, table, key) ==> i < |log|
  {}

  lemma NobodyAdds(table: nat, key: Key)
    ensures forall i: nat :: !AddsLast([], i, table, key)
  {}

  // ---------- every reload ends ----------

  /** The steps of its own that a refresher can still take: the lock, four reads, and the last word. */
  function StepsLeft(stage: Stage): int {
    match stage
    case Waiting => 6
    case Loading(got) => 5 - |got|
    case Finished(_) => 0
  }

  predicate IsStepOf(step: Step, id: RefresherId) {
    step == Acquire(id) || step == ReadNext(id) || step == Fail(id) || step == Publish(id)
  }

  function OwnSteps(steps: seq<Step>, id: RefresherId): nat {
    if steps == [] then 0
    else OwnSteps(steps[..|steps| - 1], id) + if IsStepOf(steps[|steps| - 1], id) then 1 else 0
  }

  lemma StepUsesOne(s: State, step: Step, id: RefresherId)
    requires Enabled(s, step) && id in s.refreshers
    ensures var s' := Apply(s, step);
            id in s'.refreshers
            && StepsLeft(s'.refreshers[id].stage)
               <= StepsLeft(s.refreshers[id].stage) - if IsStepOf(step, id) then 1 else 0
  {
    hide Rows;
  }

  lemma BeginsWithSix(s: State, step: Step, id: RefresherId)
    requires Enabled(s, step) && id !in s.refreshers
    ensures !IsStepOf(step, id)
    ensures id in Apply(s, step).refreshers ==> StepsLeft(Apply(s, step).refreshers[id].stage) == 6
  {}

  lemma {:induction false} OwnStepsArePaidFor(states: seq<State>, steps: seq<Step>, k: nat, id: RefresherId)
    requires Behaviour(states, steps) && k < |states|
    ensures if id in states[k].refreshers
            then OwnSteps(steps[..k], id) + StepsLeft(states[k].refreshers[id].stage) <= 6
            else OwnSteps(steps[..k], id) == 0
  {
    hide Enabled, Apply, StepsLeft, IsStepOf;
    if k > 0 {
      OwnStepsArePaidFor(states, steps, k - 1, id);
      assert steps[..k][..k - 1] == steps[..k - 1];
      if id in states[k - 1].refreshers {
        StepUsesOne(states[k - 1], steps[k - 1], id);
      } else {
        BeginsWithSix(states[k - 1], steps[k - 1], id);
      }
    }
  }

  /** No reload takes more than six steps, however it ends and whatever runs beside it. */
  lemma ReloadsTakeSixSteps(states: seq<State>, steps: seq<Step>, k: nat, id: RefresherId)
    requires Behaviour(states, steps) && k < |states|
    ensures OwnSteps(steps[..k], id) <= 6
  {
    hide Enabled, Apply, Rows, IsStepOf;
    OwnStepsArePaidFor(states, steps, k, id);
    RunKeepsInv(states, steps, k);
    if id in states[k].refreshers {
      assert RefresherOk(states[k].log, states[k].snap, states[k].refreshers[id]);
    }
  }

  /** And none waits for nothing: while a reload is not finished, some reload can take a step, failures included. */
  lemma SomeReloadCanGoOn(states: seq<State>, steps: seq<Step>, k: nat)
    requires Behaviour(states, steps) && k < |states|
    ensures (exists id :: id in states[k].refreshers && !states[k].refreshers[id].stage.Finished?)
            <==> exists id, step :: IsStepOf(step, id) && Enabled(states[k], step)
  {
    hide Apply, Rows;
    var s := states[k];
    RunKeepsInv(states, steps, k);
    if id :| id in s.refreshers && !s.refreshers[id].stage.Finished? {
      var next := if s.lock.Some? then s.lock.value else id;
      assert RefresherOk(s.log, s.snap, s.refreshers[next]);
      assert IsStepOf(Acquire(next), next) && IsStepOf(ReadNext(next), next) && IsStepOf(Publish(next), next);
      assert Enabled(s, Acquire(next)) || Enabled(s, ReadNext(next)) || Enabled(s, Publish(next));
    }
  }

  // ---------- what a caller of the store may rely on ----------

  /** The answer of IsPubkeyBanned, IsEventBanned and IsRateLimitExempt. */
  predicate Reported(s: State, table: nat, key: Key)
    requires table < TABLES
  {
    s.snap.Some? && |s.snap.value| == TABLES && key in s.snap.value[table].rows
  }

  predicate Concerns(w: Write, table: nat, key: Key) {
    w.table == table && w.key == key
  }

  /** Nothing touched this key between two lengths of the history. */
  ghost predicate Untouched(log: seq<Write>, from: nat, to: nat, table: nat, key: Key) {
    forall i | from <= i < to && i < |log| :: !Concerns(log[i], table, key)
  }

  lemma {:induction false} UntouchedKeyStays(log: seq<Write>, from: nat, to: nat, table: nat, key: Key)
    requires from <= to <= |log| && Untouched(log, from, to, table, key)
    ensures key in Rows(log[..to], table) <==> key in Rows(log[..from], table)
  {
    if from < to {
      UntouchedKeyStays(log, from, to - 1, table, key);
      var upTo := log[..to];
      assert upTo[..to - 1] == log[..to - 1];
      assert !Concerns(log[to - 1], table, key);
    }
  }

  lemma ReloadedSnapshotIsFresh(states: seq<State>, steps: seq<Step>, id: RefresherId, j: nat, k: nat, table: nat)
    requires Behaviour(states, steps) && j <= k < |states| && table < TABLES
    requires id in states[j].refreshers && states[j].refreshers[id].stage == Finished(true)
    ensures states[k].snap.Some? && |states[k].snap.value| == TABLES
    ensures var r := states[k].snap.value[table];
            states[j].refreshers[id].need <= r.at <= |states[k].log| && r.rows == Rows(states[k].log[..r.at], table)
  {
    hide Enabled, Apply, Rows;
    RunKeepsInv(states, steps, j);
    RunKeepsInv(states, steps, k);
    NeverGoesBack(states, steps, j, k);
    assert RefresherOk(states[j].log, states[j].snap, states[j].refreshers[id]);
  }

  lemma {:induction false} NeedIsKept(states: seq<State>, steps: seq<Step>, i: nat, j: nat)
    requires Behaviour(states, steps) && i < j < |states| && steps[i].LocalWrite?
    ensures steps[i].id in states[j].refreshers && states[j].refreshers[steps[i].id].need == |states[i].log| + 1
    decreases j
  {
    hide Rows;
    if j == i + 1 {
      assert states[i + 1] == Apply(states[i], steps[i]);
    } else {
      NeedIsKept(states, steps, i, j - 1);
      assert states[j] == Apply(states[j - 1], steps[j - 1]);
    }
  }

  /**
    * Read your writes, for ever: once a ban, an unban, or any other write to a list has returned with its
    * reload done, every later read answers by that write until somebody writes that key again.
    */
  lemma LocalWriteIsSeen(states: seq<State>, steps: seq<Step>, i: nat, j: nat, k: nat)
    requires Behaviour(states, steps) && i < j <= k < |states|
    requires steps[i].LocalWrite? && steps[i].write.table < TABLES
    requires steps[i].id in states[j].refreshers && states[j].refreshers[steps[i].id].stage == Finished(true)
    requires Untouched(states[k].log, |states[i].log| + 1, |states[k].log|, steps[i].write.table, steps[i].write.key)
    ensures Reported(states[k], steps[i].write.table, steps[i].write.key) <==> steps[i].write.Add?
  {
    var w, v := steps[i].write, |states[i].log| + 1;
    NeedIsKept(states, steps, i, j);
    ReloadedSnapshotIsFresh(states, steps, steps[i].id, j, k, w.table);
    NeverGoesBack(states, steps, i + 1, k);
    assert states[i + 1] == Apply(states[i], steps[i]);
    assert states[k].log[..v] == states[i].log + [w];
    assert (states[i].log + [w])[..v - 1] == states[i].log;
    UntouchedKeyStays(states[k].log, v, states[k].snap.value[w.table].at, w.table, w.key);
  }

  /**
    * Nobody is unbanned silently: whatever refreshers fail or finish in between, a key that is reported stays
    * reported unless the database committed a write to it after the snapshot that reported it was read.
    */
  lemma NothingChangesSilently(states: seq<State>, steps: seq<Step>, i: nat, k: nat, table: nat, key: Key)
    requires Behaviour(states, steps) && i <= k < |states| && table < TABLES && states[i].snap.Some?
    requires |states[i].snap.value| == TABLES
    requires Untouched(states[k].log, states[i].snap.value[table].at, |states[k].log|, table, key)
    ensures Reported(states[k], table, key) <==> Reported(states[i], table, key)
  {
    hide Enabled, Apply, Rows;
    RunKeepsInv(states, steps, i);
    RunKeepsInv(states, steps, k);
    NeverGoesBack(states, steps, i, k);
    var a, b := states[i].snap.value[table], states[k].snap.value[table];
    assert states[k].log[..a.at] == states[i].log[..a.at];
    UntouchedKeyStays(states[k].log, a.at, b.at, table, key);
  }

  // ---------- one reload nothing interrupts, against the interleaved steps ----------

  /** The refresher's remaining steps, one after the other, with no failure. */
  ghost function Reload(s: State, id: RefresherId): State
    requires IsLoading(s, id) && |s.refreshers[id].stage.got| <= TABLES
    decreases TABLES - |s.refreshers[id].stage.got|
  {
    if |s.refreshers[id].stage.got| == TABLES then Apply(s, Publish(id)) else Reload(Apply(s, ReadNext(id)), id)
  }

  /** Alone, a reload publishes exactly the tables of that moment and frees the lock. */
  lemma {:induction false} ReloadAloneIsExact(s: State, id: RefresherId)
    requires IsLoading(s, id) && |s.refreshers[id].stage.got| <= TABLES
    requires forall i | 0 <= i < |s.refreshers[id].stage.got| ::
               s.refreshers[id].stage.got[i] == Read(|s.log|, Rows(s.log, i))
    ensures var s' := Reload(s, id);
            && s'.lock.None? && s'.log == s.log && s'.snap.Some? && |s'.snap.value| == TABLES
            && forall i | 0 <= i < TABLES :: s'.snap.value[i].rows == Rows(s.log, i)
    decreases TABLES - |s.refreshers[id].stage.got|
  {
    hide Rows;
    if |s.refreshers[id].stage.got| < TABLES {
      ReloadAloneIsExact(Apply(s, ReadNext(id)), id);
    }
  }
}
