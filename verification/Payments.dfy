/**
  * Payment webhooks, the expiry scheduler and tier updates as interleaved steps over the payment and member
  * tables. Each SQL statement, and each answer of the Lightning node, is one step.
  */
module Payments {
  import opened Options
  import opened TierTime

  type Hash = string
  type Pubkey = string
  type HandlerId = nat

  datatype Status = Pending | Settled | Expired

  datatype Payment = Payment(
    pubkey: Pubkey, tier: Tier, amountSats: int, periodDays: nat, status: Status, createdAt: int)

  const SECONDS_PER_DAY: nat := 86400

  function Period(p: Payment): nat {
    p.periodDays * SECONDS_PER_DAY
  }

  /** How far a webhook handler has got. Every early return of the handler is Done. */
  datatype Stage =
    | Looking
    | Checking(payment: Payment)
    | Settling(payment: Payment, paidSats: int)
    | Reading(payment: Payment, paidSats: int)
    | Extending(payment: Payment, paidSats: int, expires: Option<int>)
    | Writing(payment: Payment, paidSats: int, expires: Option<int>, at: int)
    | Done

  datatype Handler = Handler(hash: Hash, stage: Stage)

  /** A tier update that was written: which payment, what the node said was paid, and the clock it was computed with. */
  datatype Record = Record(hash: Hash, payment: Payment, paidSats: int, at: int)

  datatype State = State(
    payments: map<Hash, Payment>, members: map<Pubkey, Member>, now: int,
    handlers: map<HandlerId, Handler>, grants: seq<Record>)

  /** What can go wrong in the settling UPDATE: an error reported before or after the row changed. */
  datatype SettleFault = NoFault | FailsUnapplied | FailsApplied

  datatype Step =
    | Tick(later: int)
    | Invoice(hash: Hash, payment: Payment)
    | Webhook(id: HandlerId, hash: Hash)
    | Lookup(id: HandlerId, ok: bool)
    | Check(id: HandlerId, answer: Option<(bool, int)>)
    | Settle(id: HandlerId, fault: SettleFault)
    | ReadMember(id: HandlerId, ok: bool)
    | ReadClock(id: HandlerId)
    | WriteTier(id: HandlerId, ok: bool)
    | ResetExpiredTiers
    | MarkExpired(olderThan: int)
    | ChangeMember(pubkey: Pubkey, member: Option<Member>)

  ghost predicate Enabled(s: State, step: Step) {
    match step
    case Tick(later) => s.now <= later
    case Invoice(hash, p) => hash !in s.payments && p.tier != Free && p.amountSats > 0 && p.periodDays > 0
                             && p.status == Pending && p.createdAt == s.now
    case Webhook(id, _) => id !in s.handlers
    case Lookup(id, _) => id in s.handlers && s.handlers[id].stage.Looking?
    case Check(id, _) => id in s.handlers && s.handlers[id].stage.Checking?
    case Settle(id, _) => id in s.handlers && s.handlers[id].stage.Settling?
    case ReadMember(id, _) => id in s.handlers && s.handlers[id].stage.Reading?
    case ReadClock(id) => id in s.handlers && s.handlers[id].stage.Extending?
    case WriteTier(id, _) => id in s.handlers && s.handlers[id].stage.Writing?
    case ResetExpiredTiers => true
    case MarkExpired(_) => true
    case ChangeMember(_, _) => true
  }

  function Go(s: State, id: HandlerId, stage: Stage): State
    requires id in s.handlers
  {
    s.(handlers := s.handlers[id := s.handlers[id].(stage := stage)])
  }

  /** UPDATE ... SET status = 'settled' WHERE payment_hash = $1 AND status = 'pending'. */
  function SettleRow(s: State, hash: Hash): State {
    if hash in s.payments && s.payments[hash].status.Pending?
    then s.(payments := s.payments[hash := s.payments[hash].(status := Settled)])
    else s
  }

  predicate Settles(s: State, hash: Hash) {
    hash in s.payments && s.payments[hash].status.Pending?
  }

  function Stale(p: Payment, cutoff: int): Payment {
    if p.status.Pending? && p.createdAt < cutoff then p.(status := Expired) else p
  }

  function AfterLookup(s: State, hash: Hash, ok: bool): Stage {
    if !ok || hash !in s.payments || !s.payments[hash].status.Pending? then Done else Checking(s.payments[hash])
  }

  function AfterCheck(p: Payment, answer: Option<(bool, int)>): Stage {
    if answer.None? || !answer.value.0 || answer.value.1 < p.amountSats then Done else Settling(p, answer.value.1)
  }

  function Apply(s: State, step: Step): State
    requires Enabled(s, step)
  {
    match step
    case Tick(later) => s.(now := later)
    case Invoice(hash, p) => s.(payments := s.payments[hash := p])
    case Webhook(id, hash) => s.(handlers := s.handlers[id := Handler(hash, Looking)])
    case Lookup(id, ok) => Go(s, id, AfterLookup(s, s.handlers[id].hash, ok))
    case Check(id, answer) => Go(s, id, AfterCheck(s.handlers[id].stage.payment, answer))
    case Settle(id, fault) =>
      var h := s.handlers[id];
      (match fault
       case FailsUnapplied => Go(s, id, Done)
       case FailsApplied => Go(SettleRow(s, h.hash), id, Done)
       case NoFault =>
         Go(SettleRow(s, h.hash), id, if Settles(s, h.hash) then Reading(h.stage.payment, h.stage.paidSats) else Done))
    case ReadMember(id, ok) =>
      var st := s.handlers[id].stage;
      Go(s, id, if ok && st.payment.pubkey in s.members
                then Extending(st.payment, st.paidSats, s.members[st.payment.pubkey].expires) else Done)
    case ReadClock(id) =>
      var st := s.handlers[id].stage;
      Go(s, id, Writing(st.payment, st.paidSats, st.expires, s.now))
    case WriteTier(id, ok) =>
      var h := s.handlers[id];
      if ok && h.stage.payment.pubkey in s.members then
        Go(s, id, Done).(
          members := s.members[h.stage.payment.pubkey := NewMember(h.stage)],
          grants := s.grants + [Record(h.hash, h.stage.payment, h.stage.paidSats, h.stage.at)])
      else Go(s, id, Done)
    case ResetExpiredTiers => s.(members := map k | k in s.members :: ResetExpired(s.members[k], s.now))
    case MarkExpired(olderThan) => s.(payments := map k | k in s.payments :: Stale(s.payments[k], s.now - olderThan))
    case ChangeMember(pubkey, m) =>
      s.(members := if m.Some? then s.members[pubkey := m.value] else s.members - {pubkey})
  }

  function NewMember(st: Stage): Member
    requires st.Writing?
  {
    Member(st.payment.tier, Some(Granted(st.expires, st.at, Period(st.payment))))
  }

  ghost predicate Behaviour(states: seq<State>, steps: seq<Step>) {
    && |states| == |steps| + 1
    && states[0].payments == map[] && states[0].handlers == map[] && states[0].grants == []
    && forall i | 0 <= i < |steps| :: Enabled(states[i], steps[i]) && states[i + 1] == Apply(states[i], steps[i])
  }

  // ---------- a payment grants at most once ----------

  /** The handler has settled its payment and has not written the tier yet. */
  predicate Granting(st: Stage) {
    st.Reading? || st.Extending? || st.Writing?
  }

  predicate IsSettled(payments: map<Hash, Payment>, hash: Hash) {
    hash in payments && payments[hash].status.Settled?
  }

  /** What a handler remembers of its payment agrees with the table, up to the status. */
  predicate Remembers(payments: map<Hash, Payment>, hash: Hash, p: Payment) {
    hash in payments && payments[hash].(status := p.status) == p
  }

  /** Past the node's answer the price is covered; past the settling UPDATE the row is settled. */
  predicate HandlerOk(payments: map<Hash, Payment>, h: Handler) {
    match h.stage
    case Looking => true
    case Done => true
    case Checking(p) => Remembers(payments, h.hash, p)
    case Settling(p, paid) => Remembers(payments, h.hash, p) && paid >= p.amountSats
    case _ => Remembers(payments, h.hash, h.stage.payment) && h.stage.paidSats >= h.stage.payment.amountSats
              && IsSettled(payments, h.hash)
  }

  predicate RecordOk(payments: map<Hash, Payment>, r: Record) {
    IsSettled(payments, r.hash) && Remembers(payments, r.hash, r.payment) && r.paidSats >= r.payment.amountSats
  }

  ghost predicate HandlersInv(s: State) {
    forall id | id in s.handlers :: HandlerOk(s.payments, s.handlers[id])
  }

  ghost predicate GrantsInv(s: State) {
    forall i | 0 <= i < |s.grants| :: RecordOk(s.payments, s.grants[i])
  }

  /** No payment is in two hands: two granting handlers, a granting handler and a written grant, or two grants. */
  ghost predicate OneHandInv(s: State) {
    && (forall id, k | id in s.handlers && k in s.handlers && id != k
                       && Granting(s.handlers[id].stage) && Granting(s.handlers[k].stage) ::
          s.handlers[id].hash != s.handlers[k].hash)
    && (forall id, i | id in s.handlers && Granting(s.handlers[id].stage) && 0 <= i < |s.grants| ::
          s.handlers[id].hash != s.grants[i].hash)
    && (forall i, j | 0 <= i < j < |s.grants| :: s.grants[i].hash != s.grants[j].hash)
  }

  ghost predicate Inv(s: State) {
    HandlersInv(s) && GrantsInv(s) && OneHandInv(s)
  }

  /** Payments never disappear, keep their terms, and leave Pending at most once. */
  ghost predicate PaymentsMoveOn(before: map<Hash, Payment>, after: map<Hash, Payment>) {
    forall h | h in before ::
      && h in after
      && after[h].(status := before[h].status) == before[h]
      && (!before[h].status.Pending? ==> after[h].status == before[h].status)
  }

  lemma StepMovesOn(s: State, step: Step)
    requires Enabled(s, step)
    ensures PaymentsMoveOn(s.payments, Apply(s, step).payments)
  {}

  lemma HandlerStaysOk(before: map<Hash, Payment>, after: map<Hash, Payment>, h: Handler)
    requires PaymentsMoveOn(before, after) && HandlerOk(before, h)
    ensures HandlerOk(after, h)
  {}

  /** The handler a step belongs to. */
  function Actor(step: Step): Option<HandlerId> {
    match step
    case Webhook(id, _) => Some(id)
    case Lookup(id, _) => Some(id)
    case Check(id, _) => Some(id)
    case Settle(id, _) => Some(id)
    case ReadMember(id, _) => Some(id)
    case ReadClock(id) => Some(id)
    case WriteTier(id, _) => Some(id)
    case _ => None
  }

  lemma OnlyTheActorMoves(s: State, step: Step, id: HandlerId)
    requires Enabled(s, step) && id in Apply(s, step).handlers && Actor(step) != Some(id)
    ensures id in s.handlers && Apply(s, step).handlers[id] == s.handlers[id]
  {}

  lemma ActorStaysOk(s: State, step: Step, id: HandlerId)
    requires HandlersInv(s) && Enabled(s, step) && Actor(step) == Some(id)
    ensures id in Apply(s, step).handlers && HandlerOk(Apply(s, step).payments, Apply(s, step).handlers[id])
  {
    assert !step.Webhook? ==> HandlerOk(s.payments, s.handlers[id]);
  }

  lemma StepKeepsHandlers(s: State, step: Step)
    requires HandlersInv(s) && Enabled(s, step)
    ensures HandlersInv(Apply(s, step))
  {
    hide Enabled, Apply, HandlerOk, PaymentsMoveOn;
    StepMovesOn(s, step);
    var s' := Apply(s, step);
    forall id | id in s'.handlers ensures HandlerOk(s'.payments, s'.handlers[id]) {
      if Actor(step) == Some(id) {
        ActorStaysOk(s, step, id);
      } else {
        OnlyTheActorMoves(s, step, id);
        HandlerStaysOk(s.payments, s'.payments, s.handlers[id]);
      }
    }
  }

  /** A step writes at most one grant: the one its own handler was about to write. */
  lemma GrantsGrowByOne(s: State, step: Step)
    requires Enabled(s, step)
    ensures var s' := Apply(s, step);
            s'.grants == s.grants
            || (step.WriteTier? && step.id in s.handlers && s.handlers[step.id].stage.Writing?
                && s'.handlers[step.id].stage.Done?
                && var h := s.handlers[step.id];
                   s'.grants == s.grants + [Record(h.hash, h.stage.payment, h.stage.paidSats, h.stage.at)])
  {}

  lemma StepKeepsGrants(s: State, step: Step)
    requires HandlersInv(s) && GrantsInv(s) && Enabled(s, step)
    ensures GrantsInv(Apply(s, step))
  {
    hide Enabled, Apply, PaymentsMoveOn;
    StepMovesOn(s, step);
    GrantsGrowByOne(s, step);
    var s' := Apply(s, step);
    forall i | 0 <= i < |s'.grants| ensures RecordOk(s'.payments, s'.grants[i]) {
      if i < |s.grants| {
      } else {
        HandlerStaysOk(s.payments, s'.payments, s.handlers[step.id]);
      }
    }
  }

  /** A step starts a grant only for a payment that was still pending, so that nobody else can be granting it. */
  lemma StartsGrantingFromPending(s: State, step: Step, id: HandlerId)
    requires HandlersInv(s) && Enabled(s, step) && id in Apply(s, step).handlers
    requires Granting(Apply(s, step).handlers[id].stage)
    ensures id in s.handlers && Apply(s, step).handlers[id].hash == s.handlers[id].hash
    ensures Granting(s.handlers[id].stage) || !IsSettled(s.payments, s.handlers[id].hash)
  {}

  lemma StepKeepsOneHand(s: State, step: Step)
    requires Inv(s) && Enabled(s, step)
    ensures OneHandInv(Apply(s, step))
  {
    hide Enabled, Apply;
    var s' := Apply(s, step);
    GrantsGrowByOne(s, step);
    forall id | id in s'.handlers && Granting(s'.handlers[id].stage)
      ensures id in s.handlers && s'.handlers[id].hash == s.handlers[id].hash
      ensures Granting(s.handlers[id].stage) || !IsSettled(s.payments, s.handlers[id].hash)
    {
      StartsGrantingFromPending(s, step, id);
    }
    forall id, k | id in s'.handlers && k in s'.handlers && id != k
                   && Granting(s'.handlers[id].stage) && Granting(s'.handlers[k].stage)
      ensures s'.handlers[id].hash != s'.handlers[k].hash
    {
      if Actor(step) != Some(id) {
        OnlyTheActorMoves(s, step, id);
      } else {
        OnlyTheActorMoves(s, step, k);
      }
    }
  }

  lemma {:induction false} BehaviourKeepsInv(states: seq<State>, steps: seq<Step>, i: nat)
    requires Behaviour(states, steps) && i < |states|
    ensures Inv(states[i])
  {
    hide Enabled, Apply;
    if i > 0 {
      BehaviourKeepsInv(states, steps, i - 1);
      StepKeepsHandlers(states[i - 1], steps[i - 1]);
      StepKeepsGrants(states[i - 1], steps[i - 1]);
      StepKeepsOneHand(states[i - 1], steps[i - 1]);
    }
  }

  lemma {:induction false} PaymentsOnlyMoveOn(states: seq<State>, steps: seq<Step>, i: nat, j: nat)
    requires Behaviour(states, steps) && i <= j < |states|
    ensures PaymentsMoveOn(states[i].payments, states[j].payments) && states[i].grants <= states[j].grants
    decreases j - i
  {
    hide Enabled, Apply;
    if i < j {
      PaymentsOnlyMoveOn(states, steps, i, j - 1);
      StepMovesOn(states[j - 1], steps[j - 1]);
      GrantsGrowByOne(states[j - 1], steps[j - 1]);
    }
  }

  /**
    * Over all interleavings of any number of webhook handlers with the expiry scheduler and other member changes:
    * each payment grants a tier at most once, and only after the Lightning node confirmed at least its price.
    */
  lemma GrantsAtMostOnce(states: seq<State>, steps: seq<Step>, i: nat)
    requires Behaviour(states, steps) && i < |states|
    ensures var grants := states[i].grants;
            && (forall a, b | 0 <= a < b < |grants| :: grants[a].hash != grants[b].hash)
            && (forall a | 0 <= a < |grants| ::
                  IsSettled(states[i].payments, grants[a].hash)
                  && grants[a].paidSats >= states[i].payments[grants[a].hash].amountSats)
  {
    BehaviourKeepsInv(states, steps, i);
  }

  /** Settled and expired are terminal, and an expired payment has not granted and never will. */
  lemma ExpiredNeverGrants(states: seq<State>, steps: seq<Step>, i: nat, j: nat, hash: Hash)
    requires Behaviour(states, steps) && i < |states| && j < |states|
    requires hash in states[i].payments && states[i].payments[hash].status.Expired?
    ensures forall a | 0 <= a < |states[j].grants| :: states[j].grants[a].hash != hash
  {
    BehaviourKeepsInv(states, steps, i);
    BehaviourKeepsInv(states, steps, j);
    if i <= j {
      PaymentsOnlyMoveOn(states, steps, i, j);
    } else {
      PaymentsOnlyMoveOn(states, steps, j, i);
      forall a | 0 <= a < |states[j].grants| ensures states[j].grants[a].hash != hash {
        assert states[i].grants[a] == states[j].grants[a];
      }
    }
  }

  // ---------- what a grant was paid with ----------

  /** The handler is past the node's answer and has not returned. */
  predicate Paid(st: Stage) {
    st.Settling? || Granting(st)
  }

  /** The node's confirmation behind a handler that is past it. */
  lemma {:induction false} ConfirmationBehind(states: seq<State>, steps: seq<Step>, n: nat, id: HandlerId)
    returns (m: nat)
    requires Behaviour(states, steps) && n < |states|
    requires id in states[n].handlers && Paid(states[n].handlers[id].stage)
    ensures m < n && steps[m] == Check(id, Some((true, states[n].handlers[id].stage.paidSats)))
    ensures id in states[m].handlers && states[m].handlers[id].hash == states[n].handlers[id].hash
    ensures states[n].handlers[id].stage.paidSats >= states[n].handlers[id].stage.payment.amountSats
  {
    hide Enabled, Apply;
    PaidBefore(states[n - 1], steps[n - 1], id);
    if id in states[n - 1].handlers && Paid(states[n - 1].handlers[id].stage) {
      m := ConfirmationBehind(states, steps, n - 1, id);
    } else {
      m := n - 1;
    }
  }

  lemma PaidBefore(s: State, step: Step, id: HandlerId)
    requires Enabled(s, step) && id in Apply(s, step).handlers && Paid(Apply(s, step).handlers[id].stage)
    ensures var h' := Apply(s, step).handlers[id];
            && id in s.handlers && s.handlers[id].hash == h'.hash
            && if Paid(s.handlers[id].stage)
               then s.handlers[id].stage.paidSats == h'.stage.paidSats
                    && s.handlers[id].stage.payment == h'.stage.payment
               else step == Check(id, Some((true, h'.stage.paidSats)))
                    && h'.stage.paidSats >= h'.stage.payment.amountSats
  {}

  /** No grant without a payment: behind each there is the node's answer that this hash was settled, and with what. */
  lemma {:induction false} GrantsWerePaid(states: seq<State>, steps: seq<Step>, n: nat, a: nat)
    returns (m: nat, id: HandlerId)
    requires Behaviour(states, steps) && n < |states| && a < |states[n].grants|
    ensures var r := states[n].grants[a];
            && m < n && steps[m] == Check(id, Some((true, r.paidSats)))
            && id in states[m].handlers && states[m].handlers[id].hash == r.hash
            && r.paidSats >= r.payment.amountSats
  {
    hide Enabled, Apply;
    GrantsGrowByOne(states[n - 1], steps[n - 1]);
    if a < |states[n - 1].grants| {
      m, id := GrantsWerePaid(states, steps, n - 1, a);
    } else {
      id := steps[n - 1].id;
      m := ConfirmationBehind(states, steps, n - 1, id);
    }
  }

  // ---------- what expires ----------

  /** A payment expires in a step exactly when it was pending and a sweep finds it created before its cutoff. */
  lemma ExpiresIff(states: seq<State>, steps: seq<Step>, n: nat, hash: Hash)
    requires Behaviour(states, steps) && n < |steps| && hash in states[n].payments
    ensures var p := states[n].payments[hash];
            (hash in states[n + 1].payments && !p.status.Expired? && states[n + 1].payments[hash].status.Expired?)
            <==> p.status.Pending? && steps[n].MarkExpired? && p.createdAt < states[n].now - steps[n].olderThan
  {
    assert Enabled(states[n], steps[n]) && states[n + 1] == Apply(states[n], steps[n]);
  }

  /** If no sweep looks for payments younger than this, no payment of that age or younger is expired in any run. */
  lemma {:induction false} YoungPaymentsNeverExpire(states: seq<State>, steps: seq<Step>, age: int, n: nat, hash: Hash)
    requires Behaviour(states, steps) && n < |states| && hash in states[n].payments
    requires forall i | 0 <= i < |steps| && steps[i].MarkExpired? :: steps[i].olderThan >= age
    requires states[n].now - states[n].payments[hash].createdAt <= age
    ensures !states[n].payments[hash].status.Expired?
  {
    hide Apply, Enabled;
    assert n > 0;
    var s, step := states[n - 1], steps[n - 1];
    WhereFrom(s, step, hash);
    if hash in s.payments {
      YoungPaymentsNeverExpire(states, steps, age, n - 1, hash);
      ExpiresIff(states, steps, n - 1, hash);
    }
  }

  /** After the scheduler's reset no paid tier is past its expiry; it moves no expiry and touches nobody else. */
  lemma ResetLeavesNoneExpired(states: seq<State>, steps: seq<Step>, n: nat, p: Pubkey)
    requires Behaviour(states, steps) && n < |steps| && steps[n] == ResetExpiredTiers
    ensures var before, after := states[n].members, states[n + 1].members;
            && (p in after <==> p in before)
            && (p in before ==>
                  && after[p].expires == before[p].expires
                  && after[p].tier == if before[p].expires.Some? && before[p].expires.value < states[n].now then Free
                                      else before[p].tier)
  {
    assert states[n + 1] == Apply(states[n], steps[n]);
  }

  /** The clock moves with its ticks alone, and everything else that happens to members is the change that was asked. */
  lemma ClockAndChanges(states: seq<State>, steps: seq<Step>, n: nat)
    requires Behaviour(states, steps) && n < |steps|
    ensures states[n + 1].now == if steps[n].Tick? then steps[n].later else states[n].now
    ensures states[n].now <= states[n + 1].now
    ensures steps[n].ChangeMember? ==>
              states[n + 1].members == match steps[n].member
                                       case Some(m) => states[n].members[steps[n].pubkey := m]
                                       case None => states[n].members - {steps[n].pubkey}
  {
    assert Enabled(states[n], steps[n]) && states[n + 1] == Apply(states[n], steps[n]);
  }

  lemma WhereFrom(s: State, step: Step, hash: Hash)
    requires Enabled(s, step) && hash in Apply(s, step).payments
    ensures s.now <= Apply(s, step).now
    ensures if hash in s.payments then s.payments[hash].createdAt == Apply(s, step).payments[hash].createdAt
            else Apply(s, step).payments[hash].status.Pending?
  {}

  // ---------- what reaches the member ----------

  /** The purchases of one member, in the order they were written. */
  function BoughtBy(grants: seq<Record>, pubkey: Pubkey): seq<Purchase> {
    if grants == [] then []
    else
      var init, last := BoughtBy(grants[..|grants| - 1], pubkey), grants[|grants| - 1];
      if last.payment.pubkey == pubkey then init + [Purchase(last.at, Period(last.payment))] else init
  }

  /**
    * What a write computed from an outdated expiry costs: when a member has had everything delivered so far, the new
    * expiry falls short of what is due by exactly how far the base time moved since the handler read the row.
    */
  lemma WriteShortfall(s: State, id: HandlerId, start: Option<int>)
    requires Enabled(s, WriteTier(id, true)) && s.handlers[id].stage.payment.pubkey in s.members
    requires var pubkey := s.handlers[id].stage.payment.pubkey;
             s.members[pubkey].expires == ExpiryAfter(start, BoughtBy(s.grants, pubkey))
    ensures var s', st := Apply(s, WriteTier(id, true)), s.handlers[id].stage;
            var pubkey := st.payment.pubkey;
            var due := ExpiryAfter(start, BoughtBy(s'.grants, pubkey));
            && pubkey in s'.members && s'.members[pubkey].expires.Some? && due.Some?
            && due.value - s'.members[pubkey].expires.value
               == BaseTime(s.members[pubkey].expires, st.at) - BaseTime(st.expires, st.at)
  {
    hide Apply, BoughtBy, ExpiryAfter;
    var st := s.handlers[id].stage;
    WriteIsBought(s, id);
    OneMorePurchase(start, BoughtBy(s.grants, st.payment.pubkey), Purchase(st.at, Period(st.payment)));
  }

  lemma WriteIsBought(s: State, id: HandlerId)
    requires Enabled(s, WriteTier(id, true)) && s.handlers[id].stage.payment.pubkey in s.members
    ensures var s', st := Apply(s, WriteTier(id, true)), s.handlers[id].stage;
            var pubkey := st.payment.pubkey;
            && pubkey in s'.members
            && s'.members[pubkey].expires == Some(Granted(st.expires, st.at, Period(st.payment)))
            && BoughtBy(s'.grants, pubkey) == BoughtBy(s.grants, pubkey) + [Purchase(st.at, Period(st.payment))]
  {
    var h := s.handlers[id];
    var r := Record(h.hash, h.stage.payment, h.stage.paidSats, h.stage.at);
    assert (s.grants + [r])[..|s.grants|] == s.grants;
  }

  // ---------- a notification that comes too late ----------

  /** The handler works on this payment, and has read nothing of it or has returned. */
  predicate Idle(s: State, id: HandlerId, hash: Hash) {
    id in s.handlers && s.handlers[id].hash == hash ==> s.handlers[id].stage.Looking? || s.handlers[id].stage.Done?
  }

  predicate NotPending(s: State, hash: Hash) {
    hash in s.payments && !s.payments[hash].status.Pending?
  }

  lemma IdleStaysIdle(s: State, step: Step, id: HandlerId, hash: Hash)
    requires Enabled(s, step) && NotPending(s, hash) && Idle(s, id, hash)
    ensures Idle(Apply(s, step), id, hash)
    ensures Actor(step) == Some(id) && id in Apply(s, step).handlers && Apply(s, step).handlers[id].hash == hash ==>
              Apply(s, step).payments == s.payments && Apply(s, step).members == s.members
              && Apply(s, step).grants == s.grants
  {}

  lemma {:induction false} LateHandlerStaysIdle(states: seq<State>, steps: seq<Step>, i: nat, j: nat,
                                                id: HandlerId, hash: Hash)
    requires Behaviour(states, steps) && i <= j < |states|
    requires NotPending(states[i], hash) && Idle(states[i], id, hash)
    ensures NotPending(states[j], hash) && Idle(states[j], id, hash)
    decreases j - i
  {
    hide Enabled, Apply, Idle;
    PaymentsOnlyMoveOn(states, steps, i, j);
    if i < j {
      LateHandlerStaysIdle(states, steps, i, j - 1, id, hash);
      IdleStaysIdle(states[j - 1], steps[j - 1], id, hash);
    }
  }

  /**
    * Retries are harmless in every interleaving: a handler that had not yet looked its payment up when that payment was
    * settled or expired, changes no payment, no member and no grant in any of its steps, whatever the node answers.
    */
  lemma LateNotificationChangesNothing(states: seq<State>, steps: seq<Step>, i: nat, j: nat, id: HandlerId, hash: Hash)
    requires Behaviour(states, steps) && i <= j < |steps|
    requires NotPending(states[i], hash) && Idle(states[i], id, hash)
    requires Actor(steps[j]) == Some(id) && id in states[j + 1].handlers && states[j + 1].handlers[id].hash == hash
    ensures states[j + 1].payments == states[j].payments && states[j + 1].members == states[j].members
    ensures states[j + 1].grants == states[j].grants
  {
    hide Enabled, Apply, Idle;
    LateHandlerStaysIdle(states, steps, i, j, id, hash);
    IdleStaysIdle(states[j], steps[j], id, hash);
  }
}
