/** When overlapping webhooks deliver everything a member bought, over all behaviours, and a run that loses a month. */
module GrantDelivery {
  import opened Options
  import opened TierTime
  import opened Payments
  import opened PaymentTables

  // ---------- reads and writes of one member's row ----------

  /** This step reads the member's row for the handler's grant. */
  predicate Reads(s: State, step: Step, pubkey: Pubkey) {
    && step.ReadMember? && step.ok && step.id in s.handlers
    && s.handlers[step.id].stage.Reading? && s.handlers[step.id].stage.payment.pubkey == pubkey
    && pubkey in s.members
  }

  /** This step writes a grant to the member's row. */
  predicate Writes(s: State, step: Step, pubkey: Pubkey) {
    && step.WriteTier? && step.ok && step.id in s.handlers
    && s.handlers[step.id].stage.Writing? && s.handlers[step.id].stage.payment.pubkey == pubkey
    && pubkey in s.members
  }

  function WrittenExpiry(s: State, step: Step, pubkey: Pubkey): int
    requires Writes(s, step, pubkey)
  {
    var st := s.handlers[step.id].stage;
    Granted(st.expires, st.at, Period(st.payment))
  }

  /** The member is there, and its expiry is what all its grants so far add up to. */
  ghost predicate Delivered(s: State, pubkey: Pubkey, start: Option<int>) {
    pubkey in s.members && s.members[pubkey].expires == ExpiryAfter(start, BoughtBy(s.grants, pubkey))
  }

  /** A run in which nothing but grants and sweeps touches the member's row. */
  ghost predicate OnlyGrants(states: seq<State>, steps: seq<Step>, pubkey: Pubkey) {
    && Behaviour(states, steps)
    && pubkey in states[0].members
    && forall i | 0 <= i < |steps| && steps[i].ChangeMember? :: steps[i].pubkey != pubkey
  }

  /**
    * A grant is overtaken: between the moment m at which its handler reads the row and the moment n at which it writes
    * it, another grant is written whose expiry lies after the clock the handler computes with.
    */
  ghost predicate Overtaken(states: seq<State>, steps: seq<Step>, pubkey: Pubkey, m: nat, k: nat, n: nat) {
    && m < k < n < |steps| && |states| == |steps| + 1
    && Reads(states[m], steps[m], pubkey)
    && Writes(states[n], steps[n], pubkey) && steps[n].id == steps[m].id
    && Writes(states[k], steps[k], pubkey)
    && WrittenExpiry(states[k], steps[k], pubkey) > states[n].handlers[steps[n].id].stage.at
  }

  /** The handler has read the row of this member and has not written it yet. */
  predicate Extends(h: Handler, pubkey: Pubkey) {
    (h.stage.Extending? || h.stage.Writing?) && h.stage.payment.pubkey == pubkey
  }

  // ---------- single steps ----------

  /** What a step does to the member's row and to its purchases. */
  lemma StepMember(s: State, step: Step, pubkey: Pubkey)
    requires Enabled(s, step) && pubkey in s.members && (step.ChangeMember? ==> step.pubkey != pubkey)
    ensures pubkey in Apply(s, step).members
    ensures Apply(s, step).members[pubkey].expires
            == if Writes(s, step, pubkey) then Some(WrittenExpiry(s, step, pubkey)) else s.members[pubkey].expires
    ensures BoughtBy(Apply(s, step).grants, pubkey)
            == if Writes(s, step, pubkey)
               then BoughtBy(s.grants, pubkey)
                    + [Purchase(s.handlers[step.id].stage.at, Period(s.handlers[step.id].stage.payment))]
               else BoughtBy(s.grants, pubkey)
  {
    hide Granted, BaseTime;
    if step.WriteTier? && step.ok && s.handlers[step.id].stage.payment.pubkey in s.members {
      WriteIsBought(s, step.id);
      var h := s.handlers[step.id];
      var r := Record(h.hash, h.stage.payment, h.stage.paidSats, h.stage.at);
      assert (s.grants + [r])[..|s.grants|] == s.grants;
    }
  }

  /** Everything bought stays delivered across a step exactly when a write gets its base time right. */
  lemma StepDeliversIff(s: State, step: Step, pubkey: Pubkey, start: Option<int>)
    requires Enabled(s, step) && (step.ChangeMember? ==> step.pubkey != pubkey)
    requires Delivered(s, pubkey, start)
    ensures Delivered(Apply(s, step), pubkey, start)
            <==> (Writes(s, step, pubkey) ==>
                    BaseTime(s.handlers[step.id].stage.expires, s.handlers[step.id].stage.at)
                    == BaseTime(s.members[pubkey].expires, s.handlers[step.id].stage.at))
  {
    hide Apply, Enabled, BoughtBy, ExpiryAfter;
    StepMember(s, step, pubkey);
    if Writes(s, step, pubkey) {
      var st := s.handlers[step.id].stage;
      OneMorePurchase(start, BoughtBy(s.grants, pubkey), Purchase(st.at, Period(st.payment)));
    }
  }

  /** a does not lie after b, where nothing lies before everything. */
  predicate NotAfter(a: Option<int>, b: Option<int>) {
    a.Some? ==> b.Some? && a.value <= b.value
  }

  /** While everything is delivered the expiry only moves ahead; a write whose period is positive moves it. */
  lemma StepRises(s: State, step: Step, pubkey: Pubkey, start: Option<int>)
    requires Enabled(s, step) && (step.ChangeMember? ==> step.pubkey != pubkey)
    requires Delivered(s, pubkey, start) && Delivered(Apply(s, step), pubkey, start)
    ensures NotAfter(s.members[pubkey].expires, Apply(s, step).members[pubkey].expires)
    ensures Writes(s, step, pubkey) && Period(s.handlers[step.id].stage.payment) > 0
            && s.members[pubkey].expires.Some? ==>
              s.members[pubkey].expires.value < WrittenExpiry(s, step, pubkey)
  {
    hide Apply, Enabled, Delivered;
    DeliveredMember(s, pubkey, start);
    DeliveredMember(Apply(s, step), pubkey, start);
    StepMember(s, step, pubkey);
    StepDeliversIff(s, step, pubkey, start);
  }

  lemma DeliveredMember(s: State, pubkey: Pubkey, start: Option<int>)
    ensures Delivered(s, pubkey, start) ==> pubkey in s.members
  {}

  // ---------- periods are positive ----------

  ghost predicate PositivePeriods(s: State) {
    forall h | h in s.payments :: s.payments[h].periodDays > 0
  }

  lemma StepKeepsPeriods(s: State, step: Step)
    requires PositivePeriods(s) && Enabled(s, step)
    ensures PositivePeriods(Apply(s, step))
  {}

  lemma {:induction false} RunKeepsPeriods(states: seq<State>, steps: seq<Step>, i: nat)
    requires Behaviour(states, steps) && i < |states|
    ensures PositivePeriods(states[i])
  {
    hide Enabled, Apply;
    if i > 0 {
      RunKeepsPeriods(states, steps, i - 1);
      StepKeepsPeriods(states[i - 1], steps[i - 1]);
    }
  }

  /** Every grant written is for a period that is not empty. */
  lemma WrittenPeriodIsPositive(states: seq<State>, steps: seq<Step>, i: nat, pubkey: Pubkey)
    requires Behaviour(states, steps) && i < |steps| && Writes(states[i], steps[i], pubkey)
    ensures Period(states[i].handlers[steps[i].id].stage.payment) > 0
  {
    hide Enabled, Apply;
    BehaviourKeepsInv(states, steps, i);
    RunKeepsPeriods(states, steps, i);
    assert HandlerOk(states[i].payments, states[i].handlers[steps[i].id]);
  }

  // ---------- what a handler knows, and since when ----------

  /** A step starts or continues an extension: it begins with a read of the row, which the handler remembers. */
  lemma StepExtends(s: State, step: Step, pubkey: Pubkey, id: HandlerId)
    requires Enabled(s, step) && id in Apply(s, step).handlers && Extends(Apply(s, step).handlers[id], pubkey)
    ensures id in s.handlers
    ensures (Extends(s.handlers[id], pubkey)
             && Apply(s, step).handlers[id].stage.expires == s.handlers[id].stage.expires)
            || (Reads(s, step, pubkey) && step.id == id
                && Apply(s, step).handlers[id].stage.expires == s.members[pubkey].expires)
  {}

  /** Reading the row starts the extension. */
  lemma ReadStarts(s: State, step: Step, pubkey: Pubkey)
    requires Enabled(s, step) && Reads(s, step, pubkey)
    ensures step.id in Apply(s, step).handlers && Extends(Apply(s, step).handlers[step.id], pubkey)
    ensures Apply(s, step).handlers[step.id].stage.expires == s.members[pubkey].expires
  {}

  /** The read behind an extension in progress. */
  lemma {:induction false} ReadBehind(states: seq<State>, steps: seq<Step>, n: nat, pubkey: Pubkey, id: HandlerId)
    returns (m: nat)
    requires Behaviour(states, steps) && n < |states|
    requires id in states[n].handlers && Extends(states[n].handlers[id], pubkey)
    ensures m < n && Reads(states[m], steps[m], pubkey) && steps[m].id == id
    ensures states[n].handlers[id].stage.expires == states[m].members[pubkey].expires
  {
    hide Enabled, Apply;
    StepExtends(states[n - 1], steps[n - 1], pubkey, id);
    if Reads(states[n - 1], steps[n - 1], pubkey) && steps[n - 1].id == id
       && states[n].handlers[id].stage.expires == states[n - 1].members[pubkey].expires {
      m := n - 1;
    } else {
      m := ReadBehind(states, steps, n - 1, pubkey, id);
    }
  }

  /** How far a handler has got; it never goes back, and ids are not used twice. */
  function Progress(st: Stage): nat {
    match st
    case Looking => 0
    case Checking(_) => 1
    case Settling(_, _) => 2
    case Reading(_, _) => 3
    case Extending(_, _, _) => 4
    case Writing(_, _, _, _) => 5
    case Done => 6
  }

  lemma StepAdvances(s: State, step: Step, id: HandlerId)
    requires Enabled(s, step) && id in s.handlers
    ensures id in Apply(s, step).handlers
    ensures Progress(s.handlers[id].stage) <= Progress(Apply(s, step).handlers[id].stage)
    ensures Apply(s, step).handlers[id] == s.handlers[id]
            || Progress(s.handlers[id].stage) < Progress(Apply(s, step).handlers[id].stage)
  {}

  lemma {:induction false} OnlyAdvances(states: seq<State>, steps: seq<Step>, i: nat, j: nat, id: HandlerId)
    requires Behaviour(states, steps) && i <= j < |states| && id in states[i].handlers
    ensures id in states[j].handlers
    ensures Progress(states[i].handlers[id].stage) <= Progress(states[j].handlers[id].stage)
    decreases j - i
  {
    hide Enabled, Apply, Progress;
    if i < j {
      OnlyAdvances(states, steps, i, j - 1, id);
      StepAdvances(states[j - 1], steps[j - 1], id);
    }
  }

  /** What the handler read at m is what it computes with at n. */
  lemma ReadIsKept(states: seq<State>, steps: seq<Step>, m: nat, n: nat, pubkey: Pubkey)
    requires Behaviour(states, steps) && m < n < |steps|
    requires Reads(states[m], steps[m], pubkey) && Writes(states[n], steps[n], pubkey) && steps[n].id == steps[m].id
    ensures states[n].handlers[steps[n].id].stage.expires == states[m].members[pubkey].expires
  {
    hide Enabled, Apply;
    var id := steps[n].id;
    var m' := ReadBehind(states, steps, n, pubkey, id);
    ReadStarts(states[m], steps[m], pubkey);
    ReadStarts(states[m'], steps[m'], pubkey);
    if m < m' {
      OnlyAdvances(states, steps, m + 1, m', id);
    } else if m' < m {
      OnlyAdvances(states, steps, m' + 1, m, id);
    }
  }

  /** Between two moments the row was left alone, or some last write set the expiry it has at the end. */
  lemma {:induction false} LastWrite(states: seq<State>, steps: seq<Step>, m: nat, n: nat, pubkey: Pubkey)
    returns (k: nat)
    requires OnlyGrants(states, steps, pubkey) && m <= n < |states| && pubkey in states[m].members
    ensures pubkey in states[n].members && k <= n
    ensures if k == n then states[n].members[pubkey].expires == states[m].members[pubkey].expires
            else m <= k && Writes(states[k], steps[k], pubkey)
                 && states[n].members[pubkey].expires == Some(WrittenExpiry(states[k], steps[k], pubkey))
    decreases n - m
  {
    hide Enabled, Apply, Writes, WrittenExpiry;
    if m == n {
      k := n;
    } else {
      var before := LastWrite(states, steps, m, n - 1, pubkey);
      StepMember(states[n - 1], steps[n - 1], pubkey);
      if Writes(states[n - 1], steps[n - 1], pubkey) {
        k := n - 1;
      } else {
        k := if before == n - 1 then n else before;
      }
    }
  }

  lemma {:induction false} Rises(states: seq<State>, steps: seq<Step>, pubkey: Pubkey, start: Option<int>,
                                 i: nat, j: nat)
    requires OnlyGrants(states, steps, pubkey) && i <= j < |states|
    requires forall k | i <= k <= j :: Delivered(states[k], pubkey, start)
    ensures pubkey in states[i].members && pubkey in states[j].members
    ensures NotAfter(states[i].members[pubkey].expires, states[j].members[pubkey].expires)
    decreases j - i
  {
    hide Enabled, Apply, Delivered;
    DeliveredMember(states[i], pubkey, start);
    DeliveredMember(states[j], pubkey, start);
    if i < j {
      DeliveredMember(states[j - 1], pubkey, start);
      Rises(states, steps, pubkey, start, i, j - 1);
      StepRises(states[j - 1], steps[j - 1], pubkey, start);
    }
  }

  // ---------- the exact condition ----------

  /** Without an overtaken grant every step delivers. */
  lemma NotOvertakenDelivers(states: seq<State>, steps: seq<Step>, pubkey: Pubkey, start: Option<int>, n: nat)
    requires OnlyGrants(states, steps, pubkey) && n < |steps|
    requires forall i | 0 <= i <= n :: Delivered(states[i], pubkey, start)
    requires forall m, k :: !Overtaken(states, steps, pubkey, m, k, n)
    ensures Delivered(states[n + 1], pubkey, start)
  {
    hide Enabled, Apply, Delivered, Reads, Writes, WrittenExpiry;
    var s, step := states[n], steps[n];
    DeliveredMember(s, pubkey, start);
    StepDeliversIff(s, step, pubkey, start);
    if Writes(s, step, pubkey) {
      WritesExtends(s, step, pubkey);
      var m := ReadBehind(states, steps, n, pubkey, step.id);
      DeliveredMember(states[m], pubkey, start);
      var k := LastWrite(states, steps, m, n, pubkey);
      if k != n {
        Rises(states, steps, pubkey, start, m, n);
        ReadIsNoWrite(states[m], steps[m], pubkey);
        assert !Overtaken(states, steps, pubkey, m, k, n);
      }
    }
  }

  lemma WritesExtends(s: State, step: Step, pubkey: Pubkey)
    requires Writes(s, step, pubkey)
    ensures step.WriteTier? && step.id in s.handlers && Extends(s.handlers[step.id], pubkey)
    ensures s.handlers[step.id].stage.Writing?
  {}

  lemma ReadIsNoWrite(s: State, step: Step, pubkey: Pubkey)
    ensures !(Reads(s, step, pubkey) && Writes(s, step, pubkey))
  {}

  lemma {:induction false} NeverOvertakenDelivers(states: seq<State>, steps: seq<Step>, pubkey: Pubkey, i: nat)
    requires OnlyGrants(states, steps, pubkey) && i < |states|
    requires forall m, k, n :: !Overtaken(states, steps, pubkey, m, k, n)
    ensures forall j | 0 <= j <= i :: Delivered(states[j], pubkey, states[0].members[pubkey].expires)
  {
    hide Enabled, Apply, Overtaken;
    if i > 0 {
      NeverOvertakenDelivers(states, steps, pubkey, i - 1);
      NotOvertakenDelivers(states, steps, pubkey, states[0].members[pubkey].expires, i - 1);
    }
  }

  /** An overtaken grant that was delivered up to then is not. */
  lemma OvertakenIsNotDelivered(states: seq<State>, steps: seq<Step>, pubkey: Pubkey, start: Option<int>,
                                m: nat, k: nat, n: nat)
    requires OnlyGrants(states, steps, pubkey) && Overtaken(states, steps, pubkey, m, k, n)
    requires forall i | 0 <= i <= n :: Delivered(states[i], pubkey, start)
    ensures !Delivered(states[n + 1], pubkey, start)
  {
    hide Enabled, Apply, Delivered, WrittenExpiry;
    Rises(states, steps, pubkey, start, m, k);
    assert Delivered(states[k + 1], pubkey, start) && states[k + 1] == Apply(states[k], steps[k]);
    StepRises(states[k], steps[k], pubkey, start);
    WrittenPeriodIsPositive(states, steps, k, pubkey);
    StepMember(states[k], steps[k], pubkey);
    Rises(states, steps, pubkey, start, k + 1, n);
    ReadIsKept(states, steps, m, n, pubkey);
    StepDeliversIff(states[n], steps[n], pubkey, start);
  }

  /**
    * Bought time is delivered in full at every moment of a behaviour in which only grants and sweeps touch the member's
    * row, exactly when no grant of the behaviour is overtaken.
    */
  lemma DeliveredIff(states: seq<State>, steps: seq<Step>, pubkey: Pubkey)
    requires OnlyGrants(states, steps, pubkey)
    ensures (forall i | 0 <= i < |states| :: Delivered(states[i], pubkey, states[0].members[pubkey].expires))
            <==> forall m, k, n :: !Overtaken(states, steps, pubkey, m, k, n)
  {
    hide Enabled, Apply, Delivered, Overtaken;
    var start := states[0].members[pubkey].expires;
    if forall m, k, n :: !Overtaken(states, steps, pubkey, m, k, n) {
      NeverOvertakenDelivers(states, steps, pubkey, |states| - 1);
    } else {
      var m, k, n :| Overtaken(states, steps, pubkey, m, k, n);
      OvertakenIsInTheRun(states, steps, pubkey, m, k, n);
      if forall i | 0 <= i < |states| :: Delivered(states[i], pubkey, start) {
        OvertakenIsNotDelivered(states, steps, pubkey, start, m, k, n);
        assert false;
      }
    }
  }

  lemma OvertakenIsInTheRun(states: seq<State>, steps: seq<Step>, pubkey: Pubkey, m: nat, k: nat, n: nat)
    ensures Overtaken(states, steps, pubkey, m, k, n) ==> n + 1 < |states|
  {}

  /**
    * What "in full" means: the expiry less the start is all periods bought plus the gaps in which nothing was left, and
    * it is the latest of every purchase's time plus everything bought from it on.
    */
  ghost predicate InFull(s: State, pubkey: Pubkey, first: Option<int>) {
    && pubkey in s.members
    && var bought := BoughtBy(s.grants, pubkey);
       if bought == [] then s.members[pubkey].expires == first
       else
         var start := if first.Some? then first.value else bought[0].at;
         && s.members[pubkey].expires == Some(start + Periods(bought) + Lapsed(first, bought))
         && IsLatest(start + Periods(bought) + Lapsed(first, bought), first, bought)
  }

  lemma DeliveredIsInFull(s: State, pubkey: Pubkey, first: Option<int>)
    ensures Delivered(s, pubkey, first) <==> InFull(s, pubkey, first)
  {
    hide BoughtBy, Lapsed, Periods, IsLatest;
    if pubkey in s.members && BoughtBy(s.grants, pubkey) != [] {
      DeliveredInFull(first, BoughtBy(s.grants, pubkey));
      ExpiryIsLatest(first, BoughtBy(s.grants, pubkey));
    }
  }

  // ---------- grants to one member that do not overlap ----------

  /** No two handlers are between reading and writing the row of this member. */
  ghost predicate NoOverlap(s: State, pubkey: Pubkey) {
    forall id, k | id in s.handlers && k in s.handlers && id != k ::
      !(Extends(s.handlers[id], pubkey) && Extends(s.handlers[k], pubkey))
  }

  /** A run in which no grants to this member overlap, and nothing but grants and sweeps touches its row. */
  ghost predicate Serialised(states: seq<State>, steps: seq<Step>, pubkey: Pubkey) {
    && OnlyGrants(states, steps, pubkey)
    && forall i | 0 <= i < |states| :: NoOverlap(states[i], pubkey)
  }

  /** A handler that read the row at m and extends it at n has been extending it all the time between. */
  lemma {:induction false} StillExtends(states: seq<State>, steps: seq<Step>, pubkey: Pubkey, m: nat, k: nat, n: nat)
    requires Behaviour(states, steps) && m < k <= n < |states| && Reads(states[m], steps[m], pubkey)
    requires steps[m].id in states[n].handlers && Extends(states[n].handlers[steps[m].id], pubkey)
    ensures steps[m].id in states[k].handlers && Extends(states[k].handlers[steps[m].id], pubkey)
    decreases n - k
  {
    hide Enabled, Apply;
    var id := steps[m].id;
    if k < n {
      StillExtends(states, steps, pubkey, m, k + 1, n);
      StepExtends(states[k], steps[k], pubkey, id);
      ReadStarts(states[m], steps[m], pubkey);
      OnlyAdvances(states, steps, m + 1, k, id);
    }
  }

  lemma WriteEnds(s: State, step: Step, pubkey: Pubkey)
    requires Enabled(s, step) && Writes(s, step, pubkey)
    ensures step.id in Apply(s, step).handlers && !Extends(Apply(s, step).handlers[step.id], pubkey)
  {}

  /** While a handler extends the row, no grant is written to it. */
  lemma NothingWrittenMeanwhile(states: seq<State>, steps: seq<Step>, pubkey: Pubkey, m: nat, k: nat, n: nat)
    requires Serialised(states, steps, pubkey) && m <= k < n < |states| && Reads(states[m], steps[m], pubkey)
    requires steps[m].id in states[n].handlers && Extends(states[n].handlers[steps[m].id], pubkey)
    ensures !Writes(states[k], steps[k], pubkey)
  {
    hide Enabled, Apply, Reads, Writes;
    ReadIsNoWrite(states[k], steps[k], pubkey);
    if m < k && Writes(states[k], steps[k], pubkey) {
      StillExtends(states, steps, pubkey, m, k, n);
      StillExtends(states, steps, pubkey, m, k + 1, n);
      WritesExtends(states[k], steps[k], pubkey);
      WriteEnds(states[k], steps[k], pubkey);
      assert false;
    }
  }

  /** What such a handler read of the row is still what it says. */
  lemma SerialisedReadsAreCurrent(states: seq<State>, steps: seq<Step>, pubkey: Pubkey, n: nat, id: HandlerId)
    requires Serialised(states, steps, pubkey) && n < |states|
    requires id in states[n].handlers && Extends(states[n].handlers[id], pubkey)
    ensures pubkey in states[n].members
    ensures states[n].handlers[id].stage.expires == states[n].members[pubkey].expires
  {
    hide Enabled, Apply, Writes, WrittenExpiry, NoOverlap;
    var m := ReadBehind(states, steps, n, pubkey, id);
    var k := LastWrite(states, steps, m, n, pubkey);
    if k != n {
      NothingWrittenMeanwhile(states, steps, pubkey, m, k, n);
      assert false;
    }
  }

  /** Bought time is delivered in full wherever no two handlers are between reading and writing the member's row. */
  lemma SerialisedGrantsDeliver(states: seq<State>, steps: seq<Step>, pubkey: Pubkey, i: nat)
    requires Serialised(states, steps, pubkey) && i < |states|
    ensures InFull(states[i], pubkey, states[0].members[pubkey].expires)
  {
    hide Enabled, Apply, Delivered, Overtaken, InFull, NoOverlap;
    forall m, k, n
      ensures !Overtaken(states, steps, pubkey, m, k, n)
    {
      SerialisedIsNotOvertaken(states, steps, pubkey, m, k, n);
    }
    DeliveredIff(states, steps, pubkey);
    DeliveredIsInFull(states[i], pubkey, states[0].members[pubkey].expires);
  }

  lemma SerialisedIsNotOvertaken(states: seq<State>, steps: seq<Step>, pubkey: Pubkey, m: nat, k: nat, n: nat)
    requires Serialised(states, steps, pubkey)
    ensures !Overtaken(states, steps, pubkey, m, k, n)
  {
    hide Enabled, Apply, Reads, Writes, WrittenExpiry, Serialised;
    if Overtaken(states, steps, pubkey, m, k, n) {
      WritesExtends(states[n], steps[n], pubkey);
      NothingWrittenMeanwhile(states, steps, pubkey, m, k, n);
      assert false;
    }
  }

  // ---------- a run in which a period is lost ----------

  /** Consecutive states of some steps, wherever they start. */
  ghost predicate Consecutive(states: seq<State>, steps: seq<Step>) {
    && |states| == |steps| + 1
    && forall i | 0 <= i < |steps| :: Enabled(states[i], steps[i]) && states[i + 1] == Apply(states[i], steps[i])
  }

  lemma Continue(states: seq<State>, steps: seq<Step>, next: seq<State>, more: seq<Step>)
    requires Behaviour(states, steps) && Consecutive(next, more) && next[0] == states[|steps|]
    ensures Behaviour(states + next[1..], steps + more)
    ensures (states + next[1..])[|steps + more|] == next[|more|]
  {
    hide Enabled, Apply;
    var all, acts := states + next[1..], steps + more;
    forall i | 0 <= i < |acts|
      ensures Enabled(all[i], acts[i]) && all[i + 1] == Apply(all[i], acts[i])
    {
      if i < |steps| {
        assert all[i] == states[i] && all[i + 1] == states[i + 1] && acts[i] == steps[i];
      } else {
        var j := i - |steps|;
        assert all[i] == next[j] && all[i + 1] == next[j + 1] && acts[i] == more[j];
      }
    }
  }

  const MONTH: Payment := Payment("alice", Premium, 1000, 30, Pending, 0)

  const NO_PAYMENTS: State := State(map[], map["alice" := Member(Free, None)], 0, map[], [])

  /** An invoice is created and paid, and its webhook handler gets as far as reading the member. */
  function UpToRead(id: HandlerId, hash: Hash): seq<Step> {
    [Invoice(hash, MONTH), Webhook(id, hash), Lookup(id, true), Check(id, Some((true, 1000))), Settle(id, NoFault)]
  }

  /** The state s with one more payment and one more handler. */
  function With(s: State, id: HandlerId, hash: Hash, status: Status, stage: Stage): State {
    s.(payments := s.payments[hash := MONTH.(status := status)], handlers := s.handlers[id := Handler(hash, stage)])
  }

  function AtRead(s: State, id: HandlerId, hash: Hash): State {
    With(s, id, hash, Settled, Reading(MONTH, 1000))
  }

  lemma Arrives(s: State, id: HandlerId, hash: Hash)
    requires s.now == 0 && hash !in s.payments && id !in s.handlers
    ensures Enabled(s, Invoice(hash, MONTH))
    ensures var s1 := Apply(s, Invoice(hash, MONTH));
            Enabled(s1, Webhook(id, hash)) && Apply(s1, Webhook(id, hash)) == With(s, id, hash, Pending, Looking)
  {}

  lemma LooksUp(s: State, id: HandlerId, hash: Hash)
    ensures var s' := With(s, id, hash, Pending, Looking);
            Enabled(s', Lookup(id, true)) && Apply(s', Lookup(id, true)) == With(s, id, hash, Pending, Checking(MONTH))
  {}

  lemma Checks(s: State, id: HandlerId, hash: Hash)
    ensures var s' := With(s, id, hash, Pending, Checking(MONTH));
            && Enabled(s', Check(id, Some((true, 1000))))
            && Apply(s', Check(id, Some((true, 1000)))) == With(s, id, hash, Pending, Settling(MONTH, 1000))
  {}

  lemma SettlesFirst(s: State, id: HandlerId, hash: Hash)
    ensures var s' := With(s, id, hash, Pending, Settling(MONTH, 1000));
            Enabled(s', Settle(id, NoFault)) && Apply(s', Settle(id, NoFault)) == AtRead(s, id, hash)
  {}

  lemma UpToReadRuns(s: State, id: HandlerId, hash: Hash) returns (states: seq<State>)
    requires s.now == 0 && hash !in s.payments && id !in s.handlers
    ensures Consecutive(states, UpToRead(id, hash)) && states[0] == s && states[5] == AtRead(s, id, hash)
  {
    hide Enabled, Apply, With, AtRead;
    Arrives(s, id, hash);
    LooksUp(s, id, hash);
    Checks(s, id, hash);
    SettlesFirst(s, id, hash);
    states := [s, Apply(s, Invoice(hash, MONTH)), With(s, id, hash, Pending, Looking),
               With(s, id, hash, Pending, Checking(MONTH)), With(s, id, hash, Pending, Settling(MONTH, 1000)),
               AtRead(s, id, hash)];
  }

  /** Both handlers read the member before either writes it. */
  function OverlappingSteps(a: HandlerId, b: HandlerId): seq<Step> {
    [ReadMember(a, true), ReadMember(b, true), ReadClock(a), ReadClock(b), WriteTier(a, true), WriteTier(b, true)]
  }

  lemma OverlappingStepsRun(s: State, a: HandlerId, b: HandlerId) returns (states: seq<State>)
    requires BothReading(s, a, b)
    ensures Consecutive(states, OverlappingSteps(a, b)) && states[0] == s && states[6] == Overlapped(s, a, b)
    ensures states[6].grants == s.grants
              + [Record(s.handlers[a].hash, s.handlers[a].stage.payment, s.handlers[a].stage.paidSats, s.now),
                 Record(s.handlers[b].hash, s.handlers[b].stage.payment, s.handlers[b].stage.paidSats, s.now)]
  {
    hide Granted, ResetExpired, Stale;
    var steps := OverlappingSteps(a, b);
    var s1 := Apply(s, steps[0]);
    var s2 := Apply(s1, steps[1]);
    var s3 := Apply(s2, steps[2]);
    var s4 := Apply(s3, steps[3]);
    var s5 := Apply(s4, steps[4]);
    var s6 := Apply(s5, steps[5]);
    states := [s, s1, s2, s3, s4, s5, s6];
  }

  /** From the empty payment table to two settled payments whose handlers are about to read the same member. */
  lemma BothGetToRead() returns (states: seq<State>)
    ensures var steps := UpToRead(1, "first") + UpToRead(2, "second");
            var end := AtRead(AtRead(NO_PAYMENTS, 1, "first"), 2, "second");
            Behaviour(states, steps) && states[0] == NO_PAYMENTS && states[|steps|] == end && BothReading(end, 1, 2)
  {
    hide Enabled, Apply, UpToRead;
    var first := UpToReadRuns(NO_PAYMENTS, 1, "first");
    var half := AtRead(NO_PAYMENTS, 1, "first");
    var second := UpToReadRuns(half, 2, "second");
    FiveSteps(1, "first");
    FiveSteps(2, "second");
    Continue(first, UpToRead(1, "first"), second, UpToRead(2, "second"));
    states := first + second[1..];
  }

  lemma FiveSteps(id: HandlerId, hash: Hash)
    ensures |UpToRead(id, hash)| == 5
  {}

  /**
    * The lost period is reachable: from an empty payment table, two paid months of one member, both granted, end in an
    * expiry one month ahead.
    */
  lemma MonthIsLost() returns (states: seq<State>, steps: seq<Step>)
    ensures Behaviour(states, steps) && states[0] == NO_PAYMENTS && |steps| == 16
    ensures var end := states[16];
            && |end.grants| == 2 && "alice" in end.members
            && end.members["alice"].expires == Some(30 * 24 * 60 * 60)
            && ExpiryAfter(None, BoughtBy(end.grants, "alice")) == Some(60 * 24 * 60 * 60)
  {
    hide Enabled, Apply, UpToRead, Overlapped, ExpiryAfter;
    FiveSteps(1, "first");
    FiveSteps(2, "second");
    var before := BothGetToRead();
    var end := AtRead(AtRead(NO_PAYMENTS, 1, "first"), 2, "second");
    var overlap := OverlappingStepsRun(end, 1, 2);
    Continue(before, UpToRead(1, "first") + UpToRead(2, "second"), overlap, OverlappingSteps(1, 2));
    steps := UpToRead(1, "first") + UpToRead(2, "second") + OverlappingSteps(1, 2);
    states := before + overlap[1..];
    OverlapLosesAPeriod(end, 1, 2, None, Faults(false, NoFault, false, false));
    TwoMonths(overlap[6].grants);
  }

  lemma TwoMonths(grants: seq<Record>)
    requires grants == [Record("first", MONTH, 1000, 0), Record("second", MONTH, 1000, 0)]
    ensures ExpiryAfter(None, BoughtBy(grants, "alice")) == Some(2 * Period(MONTH))
  {
    var p := Purchase(0, Period(MONTH));
    assert grants[..1] == [Record("first", MONTH, 1000, 0)] && grants[..1][..0] == [];
    assert BoughtBy(grants[..1], "alice") == [p];
    assert BoughtBy(grants, "alice") == [p] + [p];
    OneMorePurchase(None, [], p);
    OneMorePurchase(None, [p], p);
    assert [] + [p] == [p];
  }
}
