/** The write-ahead log object: its drain loops over the Redis list, against the interleaved steps of the queue. */
module WriteAheadLog {
  import opened WriteAhead

  /** How one LPOP went: an entry, an error that left it in the list, or an error after it was taken. */
  datatype Reply = Popped | Refused | ReplyLost

  /** The outside world during one turn of a drain loop: clock, Redis and PostgreSQL. */
  datatype Turn = Turn(at: int, reply: Reply, saveOk: bool, pushOk: bool)

  ghost predicate ClockRuns(now: int, turns: seq<Turn>) {
    && (forall i | 0 <= i < |turns| :: now <= turns[i].at)
    && forall i, j | 0 <= i < j < |turns| :: turns[i].at <= turns[j].at
  }

  function Outcome(t: Turn, shutdown: bool): Step {
    if t.saveOk then SaveOk(0) else if shutdown then SaveFailsAtShutdown(0) else SaveFails(0, t.pushOk)
  }

  /** One turn of drainBatch, or of drainAll, on a queue that is not empty. */
  function OneTurn(c: Config, s: State, t: Turn, shutdown: bool): State
    requires s.queue != [] && s.busy == []
  {
    match t.reply
    case Refused => s.(now := t.at)
    case ReplyLost => Apply(c, s.(now := t.at), PopReplyLost)
    case Popped =>
      var popped := Apply(c, s.(now := t.at), Pop(shutdown));
      if popped.busy == [] then popped else Apply(c, popped, Outcome(t, shutdown))
  }

  lemma OneTurnEndsIdle(c: Config, s: State, t: Turn, shutdown: bool)
    requires s.queue != [] && s.busy == []
    ensures OneTurn(c, s, t, shutdown).busy == [] && OneTurn(c, s, t, shutdown).now == t.at
  {
    hide Attempt, TooOld;
  }

  /** A drain loop: it stops when the queue is empty, at a pop error, or when its turns are used up. */
  ghost function Drained(c: Config, s: State, turns: seq<Turn>, shutdown: bool): (end: State)
    requires s.busy == []
    ensures end.busy == []
    decreases |turns|
  {
    if turns == [] || s.queue == [] then s
    else
      OneTurnEndsIdle(c, s, turns[0], shutdown);
      var next := OneTurn(c, s, turns[0], shutdown);
      if turns[0].reply.Popped? then Drained(c, next, turns[1..], shutdown) else next
  }

  // ---------- the loop is a run of a single drainer ----------

  ghost predicate Path(c: Config, states: seq<State>, steps: seq<Step>, from: State, to: State) {
    && |states| == |steps| + 1 && states[0] == from && states[|steps|] == to
    && (forall i | 0 <= i < |steps| :: Enabled(states[i], steps[i]) && states[i + 1] == Apply(c, states[i], steps[i]))
    && Drainers(states, 1)
  }

  lemma PathOneMore(c: Config, states: seq<State>, steps: seq<Step>, from: State, to: State, step: Step)
    requires Path(c, states, steps, from, to) && Enabled(to, step) && |Apply(c, to, step).busy| <= 1
    ensures Path(c, states + [Apply(c, to, step)], steps + [step], from, Apply(c, to, step))
  {
    hide Enabled, Apply;
  }

  lemma PathThenPath(c: Config, states: seq<State>, steps: seq<Step>, from: State, mid: State,
                     states': seq<State>, steps': seq<Step>, to: State)
    requires Path(c, states, steps, from, mid) && Path(c, states', steps', mid, to)
    ensures Path(c, states + states'[1..], steps + steps', from, to)
  {
    hide Enabled, Apply;
    var all, acts, n := states + states'[1..], steps + steps', |steps|;
    forall i | 0 <= i < |acts|
      ensures Enabled(all[i], acts[i]) && all[i + 1] == Apply(c, all[i], acts[i])
    {
      if i >= n {
        assert acts[i] == steps'[i - n] && all[i] == states'[i - n] && all[i + 1] == states'[i - n + 1];
      }
    }
  }

  lemma OneTurnIsAPath(c: Config, s: State, t: Turn, shutdown: bool) returns (states: seq<State>, steps: seq<Step>)
    requires s.queue != [] && s.busy == [] && s.now <= t.at
    ensures Path(c, states, steps, s, OneTurn(c, s, t, shutdown))
  {
    hide Attempt, TooOld;
    var ticked := Apply(c, s, Tick(t.at));
    states, steps := [s, ticked], [Tick(t.at)];
    if !t.reply.Refused? {
      var pop := if t.reply.Popped? then Pop(shutdown) else PopReplyLost;
      var popped := Apply(c, ticked, pop);
      PathOneMore(c, states, steps, s, ticked, pop);
      states, steps := states + [popped], steps + [pop];
      if popped.busy != [] {
        PathOneMore(c, states, steps, s, popped, Outcome(t, shutdown));
        states, steps := states + [Apply(c, popped, Outcome(t, shutdown))], steps + [Outcome(t, shutdown)];
      }
    }
  }

  /**
    * Whatever a drain loop does to the queue, the interleaved steps with one drainer can do: conservation, the bound
    * on attempts, termination and the order of first attempts all hold of it.
    */
  lemma {:induction false} DrainLoopIsAPath(c: Config, s: State, turns: seq<Turn>, shutdown: bool)
    returns (states: seq<State>, steps: seq<Step>)
    requires s.busy == [] && ClockRuns(s.now, turns)
    ensures Path(c, states, steps, s, Drained(c, s, turns, shutdown))
    decreases |turns|
  {
    hide Enabled, Apply, OneTurn;
    states, steps := [s], [];
    if turns != [] && s.queue != [] {
      states, steps := OneTurnIsAPath(c, s, turns[0], shutdown);
      OneTurnEndsIdle(c, s, turns[0], shutdown);
      var next := OneTurn(c, s, turns[0], shutdown);
      if turns[0].reply.Popped? {
        var states', steps' := DrainLoopIsAPath(c, next, turns[1..], shutdown);
        PathThenPath(c, states, steps, s, next, states', steps', Drained(c, s, turns, shutdown));
        states, steps := states + states'[1..], steps + steps';
      }
    }
  }

  // ---------- an outage that ends in time ----------

  /** Every entry one retry older. */
  function Retried(es: seq<Entry>): seq<Entry> {
    seq(|es|, i requires 0 <= i < |es| => Entry(es[i].number, es[i].timestamp, es[i].retries + 1))
  }

  /** Turns in which everything works, and turns in which Redis works and every save fails. */
  predicate AllWork(turns: seq<Turn>) {
    forall t | t in turns :: t.reply.Popped? && t.saveOk
  }

  predicate AllSavesFail(turns: seq<Turn>) {
    forall t | t in turns :: t.reply.Popped? && !t.saveOk && t.pushOk
  }

  /** No turn finds one of the entries past its time to live. */
  predicate Young(c: Config, es: seq<Entry>, turns: seq<Turn>) {
    forall e, t | e in es && t in turns :: t.at - e.timestamp <= c.ttl
  }

  lemma WorkingTurn(c: Config, s: State, t: Turn, shutdown: bool)
    requires s.busy == [] && s.queue != [] && t.reply.Popped? && t.saveOk
    requires shutdown || t.at - s.queue[0].timestamp <= c.ttl
    ensures var d := OneTurn(c, s, t, shutdown);
            d.queue == s.queue[1..] && d.saved == s.saved + [s.queue[0]]
            && d.busy == [] && d.dropped == s.dropped && d.lost == s.lost
  {
    hide Attempt;
  }

  /** When everything works a drain loop saves the queue from the front, in order, as far as its turns go. */
  lemma {:induction false} WorkingTurnsSave(c: Config, s: State, turns: seq<Turn>, shutdown: bool)
    requires s.busy == [] && |turns| <= |s.queue| && AllWork(turns) && (shutdown || Young(c, s.queue, turns))
    ensures var d, n := Drained(c, s, turns, shutdown), |turns|;
            d.saved == s.saved + s.queue[..n] && d.queue == s.queue[n..] && d.busy == []
            && d.dropped == s.dropped && d.lost == s.lost
    decreases |turns|
  {
    hide OneTurn, Young, AllWork;
    if turns == [] {
      assert s.saved + s.queue[..0] == s.saved;
    } else {
      var t, rest := turns[0], turns[1..];
      LaterTurns(c, s.queue, turns);
      WorkingTurn(c, s, t, shutdown);
      WorkingTurnsSave(c, OneTurn(c, s, t, shutdown), rest, shutdown);
      assert s.queue[..|turns|] == [s.queue[0]] + s.queue[1..][..|rest|];
      assert s.saved + s.queue[..|turns|] == (s.saved + [s.queue[0]]) + s.queue[1..][..|rest|];
    }
  }

  lemma LaterTurns(c: Config, es: seq<Entry>, turns: seq<Turn>)
    requires AllWork(turns) && 0 < |turns| <= |es|
    ensures AllWork(turns[1..]) && turns[0].reply.Popped? && turns[0].saveOk
    ensures Young(c, es, turns) ==> Young(c, es[1..], turns[1..]) && turns[0].at - es[0].timestamp <= c.ttl
  {
    assert turns[0] in turns && es[0] in es;
  }

  lemma FailingTurn(c: Config, s: State, t: Turn)
    requires s.busy == [] && s.queue != [] && t.reply.Popped? && !t.saveOk && t.pushOk
    requires t.at - s.queue[0].timestamp <= c.ttl && s.queue[0].retries + 1 < c.maxRetries
    ensures var d, e := OneTurn(c, s, t, false), s.queue[0];
            d.queue == s.queue[1..] + [Entry(e.number, e.timestamp, e.retries + 1)] && d.saved == s.saved
            && d.busy == [] && d.dropped == s.dropped && d.lost == s.lost
  {
    hide Attempt;
  }

  lemma OneMoreRetried(es: seq<Entry>, e: Entry)
    ensures Retried(es + [e]) == Retried(es) + [Entry(e.number, e.timestamp, e.retries + 1)]
  {}

  /** When saves fail and pushes work, a drain loop only makes entries a retry older and moves them to the back. */
  lemma {:induction false} FailingTurnsKeep(c: Config, s: State, turns: seq<Turn>)
    requires s.busy == [] && |turns| <= |s.queue| && AllSavesFail(turns) && Young(c, s.queue, turns)
    requires forall e | e in s.queue[..|turns|] :: e.retries + 1 < c.maxRetries
    ensures var d, n := Drained(c, s, turns, false), |turns|;
            d.queue == s.queue[n..] + Retried(s.queue[..n]) && d.saved == s.saved && d.busy == []
            && d.dropped == s.dropped && d.lost == s.lost
    decreases |turns|
  {
    hide OneTurn, Retried, Young, AllSavesFail, Drained;
    if turns == [] {
      NothingRetried(s.queue);
      NoTurns(c, s);
    } else {
      var n := |turns|;
      var e, t, kept := s.queue[n - 1], turns[n - 1], Retried(s.queue[..n - 1]);
      ShorterOutage(c, s.queue, turns);
      FirstTurnsFrom(s.queue, n, kept, Entry(e.number, e.timestamp, e.retries + 1));
      FailingTurnsKeep(c, s, turns[..n - 1]);
      DrainedOneMore(c, s, turns, false);
      FailingTurn(c, Drained(c, s, turns[..n - 1], false), t);
      OneMoreRetried(s.queue[..n - 1], e);
    }
  }

  lemma NoTurns(c: Config, s: State)
    requires s.busy == []
    ensures Drained(c, s, [], false) == s
  {}

  /** A queue of which the first n - 1 entries went to the back, before and after the next one does. */
  lemma FirstTurnsFrom(es: seq<Entry>, n: nat, kept: seq<Entry>, older: Entry)
    requires 0 < n <= |es|
    ensures var queue := es[n - 1..] + kept;
            queue != [] && queue[0] == es[n - 1] && queue[1..] + [older] == es[n..] + (kept + [older])
    ensures es[..n] == es[..n - 1] + [es[n - 1]] && es[n - 1] in es[..n] && forall e | e in es[..n - 1] :: e in es[..n]
  {
    assert es[n - 1..] == [es[n - 1]] + es[n..];
    assert es[..n][n - 1] == es[n - 1];
  }

  lemma NothingRetried(es: seq<Entry>)
    ensures es[0..] + Retried(es[..0]) == es
  {}

  lemma ShorterOutage(c: Config, es: seq<Entry>, turns: seq<Turn>)
    requires AllSavesFail(turns) && Young(c, es, turns) && 0 < |turns| <= |es|
    ensures var init, last := turns[..|turns| - 1], turns[|turns| - 1];
            && AllSavesFail(init) && Young(c, es, init) && (forall t | t in turns :: t.reply.Popped?)
            && last.reply.Popped? && !last.saveOk && last.pushOk
            && last.at - es[|turns| - 1].timestamp <= c.ttl
  {
    assert turns[|turns| - 1] in turns && es[|turns| - 1] in es;
  }

  /** The last turn of a loop that nothing stopped. */
  lemma {:induction false} DrainedOneMore(c: Config, s: State, turns: seq<Turn>, shutdown: bool)
    requires s.busy == [] && turns != [] && forall t | t in turns :: t.reply.Popped?
    requires Drained(c, s, turns[..|turns| - 1], shutdown).queue != []
    ensures var before := Drained(c, s, turns[..|turns| - 1], shutdown);
            before.busy == [] && Drained(c, s, turns, shutdown) == OneTurn(c, before, turns[|turns| - 1], shutdown)
    decreases |turns|
  {
    hide OneTurn;
    if |turns| > 1 && s.queue != [] {
      assert turns[0] in turns;
      OneTurnEndsIdle(c, s, turns[0], shutdown);
      var next := OneTurn(c, s, turns[0], shutdown);
      assert turns[..|turns| - 1][1..] == turns[1..][..|turns| - 2];
      DrainedOneMore(c, next, turns[1..], shutdown);
    }
  }

  /** Passes over the whole queue, one after another. */
  ghost function Passes(c: Config, s: State, passes: seq<seq<Turn>>): State
    requires s.busy == []
    decreases |passes|
  {
    if passes == [] then s
    else Passes(c, Drained(c, s, passes[0], false), passes[1..])
  }

  /**
    * An outage of k passes, k less than the attempts every entry has left, loses nothing and keeps the order: the first
    * pass after it saves the whole queue as it stood when the outage began.
    */
  lemma {:induction false} OutageIsSurvived(c: Config, s: State, passes: seq<seq<Turn>>, good: seq<Turn>)
    returns (queue: seq<Entry>)
    requires s.busy == [] && |good| == |s.queue| && AllWork(good) && Young(c, s.queue, good)
    requires forall p | p in passes :: |p| == |s.queue| && AllSavesFail(p) && Young(c, s.queue, p)
    requires forall e | e in s.queue :: e.retries + |passes| < c.maxRetries
    ensures |queue| == |s.queue| && forall i | 0 <= i < |queue| ::
              queue[i].number == s.queue[i].number && queue[i].timestamp == s.queue[i].timestamp
              && queue[i].retries == s.queue[i].retries + |passes|
    ensures var failed := Passes(c, s, passes);
            && failed.busy == [] && failed.queue == queue && failed.saved == s.saved
            && Drained(c, failed, good, false).saved == s.saved + queue
            && Drained(c, failed, good, false).queue == []
    decreases |passes|
  {
    hide OneTurn, Young, AllWork, AllSavesFail, Retried, Drained;
    if passes == [] {
      queue := s.queue;
      WorkingTurnsSave(c, s, good, false);
      assert s.queue[..|good|] == s.queue && s.queue[|good|..] == [];
    } else {
      var p := passes[0];
      assert p in passes;
      FailingTurnsKeep(c, s, p);
      assert s.queue[..|p|] == s.queue && s.queue[|p|..] + Retried(s.queue) == Retried(s.queue);
      var next := Drained(c, s, p, false);
      RetriedFacts(c, s.queue, |passes|);
      RetriedStaysYoung(c, s.queue, good);
      forall q | q in passes[1..]
        ensures |q| == |next.queue| && AllSavesFail(q) && Young(c, next.queue, q)
      {
        assert q in passes;
        RetriedStaysYoung(c, s.queue, q);
      }
      queue := OutageIsSurvived(c, next, passes[1..], good);
    }
  }

  lemma RetriedFacts(c: Config, es: seq<Entry>, k: nat)
    requires k > 0 && forall e | e in es :: e.retries + k < c.maxRetries
    ensures |Retried(es)| == |es| && forall e | e in Retried(es) :: e.retries + (k - 1) < c.maxRetries
    ensures forall i | 0 <= i < |es| :: Retried(es)[i].number == es[i].number
              && Retried(es)[i].timestamp == es[i].timestamp && Retried(es)[i].retries == es[i].retries + 1
  {}

  lemma RetriedStaysYoung(c: Config, es: seq<Entry>, turns: seq<Turn>)
    requires Young(c, es, turns)
    ensures Young(c, Retried(es), turns)
  {
    forall e, t | e in Retried(es) && t in turns
      ensures t.at - e.timestamp <= c.ttl
    {
      var i :| 0 <= i < |es| && Retried(es)[i] == e;
      assert es[i] in es;
    }
  }

  // ---------- the object ----------

  class Wal {
    const config: Config
    const batchSize: nat
    var queue: seq<Entry>
    var saved: seq<Entry>
    var direct: nat
    var statsWritten: nat
    var statsDrained: nat
    var statsFailed: nat
    var stopped: bool
    ghost var model: State

    /** Between calls the object is the model with no drainer at work, and its figures count the model's lists. */
    ghost predicate Valid()
      reads this
    {
      && model.queue == queue && model.saved == saved && model.busy == []
      && statsWritten == model.written
      && statsFailed == |model.dropped|
      && (!stopped ==> statsDrained == |saved|)
    }

    constructor (config: Config, batchSize: nat)
      ensures Valid() && model == EMPTY && this.config == config && this.batchSize == batchSize
      ensures direct == 0 && !stopped
    {
      this.config, this.batchSize := config, batchSize;
      queue, saved, direct := [], [], 0;
      statsWritten, statsDrained, statsFailed, stopped := 0, 0, 0, false;
      model := EMPTY;
    }

    /** A push error falls back to a direct save, which the queue never sees. */
    method Write(now: int, pushOk: bool, directOk: bool) returns (ok: bool)
      requires Valid() && model.now <= now
      modifies this
      ensures Valid() && stopped == old(stopped)
      ensures model == if pushOk then Apply(config, old(model).(now := now), WriteAhead.Write) else old(model)
      ensures direct == old(direct) + if !pushOk && directOk then 1 else 0
      ensures ok <==> pushOk || directOk
    {
      if !pushOk {
        if directOk {
          direct := direct + 1;
        }
        return directOk;
      }
      queue := queue + [Entry(statsWritten, now, 0)];
      statsWritten := statsWritten + 1;
      model := Apply(config, model.(now := now), WriteAhead.Write);
      return true;
    }

    /** The body of the drain loop: false when the loop has to return. */
    method DrainOne(turn: Turn) returns (more: bool)
      requires Valid() && queue != []
      modifies this
      ensures Valid() && stopped == old(stopped) && direct == old(direct)
      ensures model == OneTurn(config, old(model), turn, false)
      ensures more <==> turn.reply.Popped?
      ensures !turn.saveOk ==> saved == old(saved)
      ensures turn.reply.Popped? && turn.at - old(queue)[0].timestamp <= config.ttl ==>
                var entry := old(queue)[0];
                if turn.saveOk then queue == old(queue)[1..] && saved == old(saved) + [entry]
                else if entry.retries + 1 < config.maxRetries && turn.pushOk
                then queue == old(queue)[1..] + [entry.(retries := entry.retries + 1)]
                else queue == old(queue)[1..]
      ensures turn.reply.Popped? && turn.at - old(queue)[0].timestamp > config.ttl ==>
                queue == old(queue)[1..] && saved == old(saved) && statsFailed == old(statsFailed) + 1
    {
      hide Attempt;
      model := OneTurn(config, model, turn, false);
      if turn.reply != Popped {
        if turn.reply == ReplyLost {
          queue := queue[1..];
        }
        return false;
      }
      var entry := queue[0];
      queue := queue[1..];
      if turn.at - entry.timestamp > config.ttl {
        statsFailed := statsFailed + 1;
        return true;
      }
      if !turn.saveOk {
        entry := entry.(retries := entry.retries + 1);
        if entry.retries < config.maxRetries {
          if turn.pushOk {
            queue := queue + [entry];
          }
        } else {
          statsFailed := statsFailed + 1;
        }
        return true;
      }
      saved := saved + [entry];
      statsDrained := statsDrained + 1;
      return true;
    }

    /** Drains up to a batch of entries. */
    method DrainBatch(turns: seq<Turn>)
      requires Valid() && |turns| == batchSize
      modifies this
      ensures Valid() && stopped == old(stopped) && direct == old(direct)
      ensures model == Drained(config, old(model), turns, false)
    {
      hide OneTurn;
      for i := 0 to batchSize
        invariant Valid() && stopped == old(stopped) && direct == old(direct)
        invariant Drained(config, model, turns[i..], false) == Drained(config, old(model), turns, false)
      {
        if queue == [] {
          return;
        }
        assert turns[i..][0] == turns[i] && turns[i..][1..] == turns[i + 1..];
        OneTurnEndsIdle(config, model, turns[i], false);
        var more := DrainOne(turns[i]);
        if !more {
          return;
        }
      }
    }

    /** The body of the shutdown loop: one attempt, whatever the age of the entry. */
    method DrainOneAtShutdown(turn: Turn) returns (more: bool, drained: nat)
      requires Valid() && stopped && queue != []
      modifies this
      ensures Valid() && stopped && direct == old(direct)
      ensures model == OneTurn(config, old(model), turn, true)
      ensures more <==> turn.reply.Popped?
      ensures queue == if turn.reply.Refused? then old(queue) else old(queue)[1..]
      ensures drained == |saved| - |old(saved)|
      ensures saved == if turn.reply.Popped? && turn.saveOk then old(saved) + [old(queue)[0]] else old(saved)
    {
      hide Attempt;
      model := OneTurn(config, model, turn, true);
      if turn.reply != Popped {
        if turn.reply == ReplyLost {
          queue := queue[1..];
        }
        return false, 0;
      }
      var entry := queue[0];
      queue := queue[1..];
      if !turn.saveOk {
        return true, 0;
      }
      saved := saved + [entry];
      return true, 1;
    }

    /** Drains what is left when the worker stops. */
    method DrainAll(turns: seq<Turn>) returns (count: nat)
      requires Valid() && |turns| >= |queue|
      modifies this
      ensures Valid() && stopped && direct == old(direct)
      ensures model == Drained(config, old(model), turns, true)
      ensures count == |saved| - |old(saved)|
      ensures (forall i | 0 <= i < |turns| :: turns[i].reply.Popped?) ==> queue == []
    {
      hide OneTurn;
      count := 0;
      stopped := true;
      var i := 0;
      while queue != []
        invariant 0 <= i <= |turns| && |turns| - i >= |queue|
        invariant Valid() && stopped && direct == old(direct)
        invariant count == |saved| - |old(saved)|
        invariant Drained(config, model, turns[i..], true) == Drained(config, old(model), turns, true)
        decreases |queue|
      {
        assert turns[i..][0] == turns[i] && turns[i..][1..] == turns[i + 1..];
        OneTurnEndsIdle(config, model, turns[i], true);
        var more, drained := DrainOneAtShutdown(turns[i]);
        count := count + drained;
        if !more {
          return;
        }
        i := i + 1;
      }
    }
  }
}
