/** The payment and member tables as the stores update them in place, and one webhook call that nothing interrupts. */
module PaymentTables {
  import opened Options
  import opened TierTime
  import opened Payments

  datatype Response = Ok | BadGateway | InternalError

  /** Which statements of one webhook call fail. */
  datatype Faults = Faults(lookup: bool, settle: SettleFault, member: bool, update: bool)

  const NO_FAULTS: Faults := Faults(false, NoFault, false, false)

  /** The node confirms that a payment still pending was paid with at least its price. */
  predicate Confirmed(payments: map<Hash, Payment>, hash: Hash, answer: Option<(bool, int)>, faults: Faults) {
    && !faults.lookup && hash in payments && payments[hash].status.Pending?
    && answer.Some? && answer.value.0 && answer.value.1 >= payments[hash].amountSats
  }

  /** The member row after a grant of this payment. */
  function Extended(m: Member, p: Payment, now: int): Member {
    Member(p.tier, Some(Granted(m.expires, now, Period(p))))
  }

  /** The settling UPDATE took effect and was not reported as failed, and neither statement after it failed. */
  predicate Grants(payments: map<Hash, Payment>, members: map<Pubkey, Member>, hash: Hash,
                   answer: Option<(bool, int)>, faults: Faults) {
    && Confirmed(payments, hash, answer, faults)
    && faults.settle.NoFault? && !faults.member && !faults.update && payments[hash].pubkey in members
  }

  /** What a whole webhook call does to the two tables: who is settled and who is extended. */
  ghost predicate WebhookEffect(payments: map<Hash, Payment>, members: map<Pubkey, Member>, hash: Hash,
                                answer: Option<(bool, int)>, faults: Faults, now: int,
                                payments': map<Hash, Payment>, members': map<Pubkey, Member>) {
    && payments' == (if Confirmed(payments, hash, answer, faults) && faults.settle != FailsUnapplied
                     then payments[hash := payments[hash].(status := Settled)] else payments)
    && members' == if Grants(payments, members, hash, answer, faults)
                   then members[payments[hash].pubkey := Extended(members[payments[hash].pubkey], payments[hash], now)]
                   else members
  }

  class Tables {
    var payments: map<Hash, Payment>
    var members: map<Pubkey, Member>

    constructor ()
      ensures payments == map[] && members == map[]
    {
      payments, members := map[], map[];
    }

    method GetByHash(hash: Hash) returns (p: Option<Payment>)
      ensures p == if hash in payments then Some(payments[hash]) else None
    {
      if hash in payments {
        return Some(payments[hash]);
      }
      return None;
    }

    /** False stands for "no rows" - unknown, or not pending any more - and for an error, applied or not. */
    method MarkSettled(hash: Hash, fault: SettleFault) returns (moved: bool)
      modifies this`payments
      ensures moved <==> fault.NoFault? && hash in old(payments) && old(payments)[hash].status.Pending?
      ensures payments == if fault != FailsUnapplied && hash in old(payments) && old(payments)[hash].status.Pending?
                          then old(payments)[hash := old(payments)[hash].(status := Settled)] else old(payments)
    {
      if fault == FailsUnapplied {
        return false;
      }
      if hash !in payments || payments[hash].status != Pending {
        return false;
      }
      payments := payments[hash := payments[hash].(status := Settled)];
      return fault == NoFault;
    }

    method MarkExpired(cutoff: int) returns (count: nat)
      modifies this`payments
      ensures payments == map h | h in old(payments) :: Stale(old(payments)[h], cutoff)
      ensures count == |set h | h in old(payments) && Stale(old(payments)[h], cutoff) != old(payments)[h]|
    {
      var todo := payments.Keys;
      ghost var before := payments;
      count := 0;
      ghost var moved := {};
      while todo != {}
        invariant todo <= before.Keys && payments.Keys == before.Keys
        invariant forall h | h in before :: payments[h] == if h in todo then before[h] else Stale(before[h], cutoff)
        invariant moved == set h | h in before && h !in todo && Stale(before[h], cutoff) != before[h]
        invariant count == |moved|
        decreases todo
      {
        var h :| h in todo;
        if payments[h].status == Pending && payments[h].createdAt < cutoff {
          payments := payments[h := payments[h].(status := Expired)];
          count := count + 1;
          moved := moved + {h};
        }
        todo := todo - {h};
      }
      assert moved == set h | h in before && Stale(before[h], cutoff) != before[h];
    }

    method GetMember(pubkey: Pubkey) returns (m: Option<Member>)
      ensures m == if pubkey in members then Some(members[pubkey]) else None
    {
      if pubkey in members {
        return Some(members[pubkey]);
      }
      return None;
    }

    method UpdateTier(pubkey: Pubkey, tier: Tier, expires: int) returns (updated: bool)
      modifies this`members
      ensures updated <==> pubkey in old(members)
      ensures members == if updated then old(members)[pubkey := Member(tier, Some(expires))] else old(members)
    {
      if pubkey !in members {
        return false;
      }
      members := members[pubkey := Member(tier, Some(expires))];
      return true;
    }

    method ResetExpiredTiers(now: int)
      modifies this`members
      ensures members == map k | k in old(members) :: ResetExpired(old(members)[k], now)
    {
      var todo := members.Keys;
      ghost var before := members;
      while todo != {}
        invariant todo <= before.Keys && members.Keys == before.Keys
        invariant forall k | k in before :: members[k] == if k in todo then before[k] else ResetExpired(before[k], now)
        decreases todo
      {
        var k :| k in todo;
        var m := members[k];
        if m.tier != Free && m.expires.Some? && m.expires.value < now {
          members := members[k := m.(tier := Free)];
        }
        todo := todo - {k};
      }
    }

    /** One webhook call from lookup to tier update. */
    method HandleWebhook(hash: Hash, answer: Option<(bool, int)>, faults: Faults, now: int)
      returns (response: Response)
      modifies this
      ensures WebhookEffect(old(payments), old(members), hash, answer, faults, now, payments, members)
      ensures payments != old(payments) || members != old(members) ==>
                && hash in old(payments) && old(payments)[hash].status.Pending?
                && answer.Some? && answer.value.0 && answer.value.1 >= old(payments)[hash].amountSats
      ensures faults == NO_FAULTS && hash in old(payments) && old(payments)[hash].status.Pending?
              && answer.Some? && answer.value.0 && answer.value.1 >= old(payments)[hash].amountSats ==>
                var p := old(payments)[hash];
                && payments == old(payments)[hash := p.(status := Settled)]
                && (p.pubkey in old(members) ==>
                      var before := old(members)[p.pubkey].expires;
                      var start := if before.Some? && before.value > now then before.value else now;
                      members == old(members)[p.pubkey := Member(p.tier, Some(start + p.periodDays * 86400))])
      ensures response == BadGateway
              <==> !faults.lookup && hash in old(payments) && old(payments)[hash].status.Pending? && answer.None?
      ensures response == InternalError
              <==> faults.lookup
                   || (faults.update && Grants(old(payments), old(members), hash, answer, faults.(update := false)))
    {
      if faults.lookup {
        return InternalError;
      }
      var payment := GetByHash(hash);
      if payment.None? {
        return Ok;
      }
      var p := payment.value;
      if p.status != Pending {
        return Ok;
      }
      if answer.None? {
        return BadGateway;
      }
      var (paid, amountSats) := answer.value;
      if !paid {
        return Ok;
      }
      if amountSats < p.amountSats {
        return Ok;
      }
      var moved := MarkSettled(hash, faults.settle);
      if !moved {
        return Ok;
      }
      var member := GetMember(p.pubkey);
      if faults.member || member.None? {
        return Ok;
      }
      var baseTime := now;
      if member.value.expires.Some? && member.value.expires.value > baseTime {
        baseTime := member.value.expires.value;
      }
      var newExpiry := baseTime + p.periodDays * SECONDS_PER_DAY;
      if faults.update {
        return InternalError;
      }
      var updated := UpdateTier(p.pubkey, p.tier, newExpiry);
      assert updated;
      return Ok;
    }
  }

  // ---------- one handler nothing interrupts, against the interleaved steps ----------

  /** The step a handler takes next. */
  function NextStep(id: HandlerId, stage: Stage, answer: Option<(bool, int)>, faults: Faults): Step
    requires !stage.Done?
  {
    match stage
    case Looking => Lookup(id, !faults.lookup)
    case Checking(_) => Check(id, answer)
    case Settling(_, _) => Settle(id, faults.settle)
    case Reading(_, _) => ReadMember(id, !faults.member)
    case Extending(_, _, _) => ReadClock(id)
    case Writing(_, _, _, _) => WriteTier(id, !faults.update)
  }

  function StepsLeft(stage: Stage): nat {
    match stage
    case Looking => 6
    case Checking(_) => 5
    case Settling(_, _) => 4
    case Reading(_, _) => 3
    case Extending(_, _, _) => 2
    case Writing(_, _, _, _) => 1
    case Done => 0
  }

  lemma NextStepAdvances(s: State, id: HandlerId, answer: Option<(bool, int)>, faults: Faults)
    requires id in s.handlers && !s.handlers[id].stage.Done?
    ensures var step := NextStep(id, s.handlers[id].stage, answer, faults);
            && Enabled(s, step)
            && id in Apply(s, step).handlers
            && StepsLeft(Apply(s, step).handlers[id].stage) < StepsLeft(s.handlers[id].stage)
  {}

  /** The handler's own steps, one after the other, until it is done. */
  ghost function RunToEnd(s: State, id: HandlerId, answer: Option<(bool, int)>, faults: Faults): State
    requires id in s.handlers
    decreases StepsLeft(s.handlers[id].stage)
  {
    if s.handlers[id].stage.Done? then s
    else
      NextStepAdvances(s, id, answer, faults);
      RunToEnd(Apply(s, NextStep(id, s.handlers[id].stage, answer, faults)), id, answer, faults)
  }

  /** From the member read on, only the payer's row changes, and only when it is there and nothing fails. */
  lemma EndFromReading(s: State, id: HandlerId, answer: Option<(bool, int)>, faults: Faults)
    requires id in s.handlers && s.handlers[id].stage.Reading?
    ensures var p, s' := s.handlers[id].stage.payment, RunToEnd(s, id, answer, faults);
            && s'.payments == s.payments
            && s'.members == if !faults.member && !faults.update && p.pubkey in s.members
                 then s.members[p.pubkey := Extended(s.members[p.pubkey], p, s.now)] else s.members
  {
    hide Granted, ResetExpired, Stale;
    var s1 := Apply(s, ReadMember(id, !faults.member));
    assert RunToEnd(s, id, answer, faults) == RunToEnd(s1, id, answer, faults);
    if s1.handlers[id].stage.Extending? {
      var s2 := Apply(s1, ReadClock(id));
      assert RunToEnd(s1, id, answer, faults) == RunToEnd(s2, id, answer, faults);
      var s3 := Apply(s2, WriteTier(id, !faults.update));
      assert RunToEnd(s2, id, answer, faults) == s3;
    }
  }

  lemma EndFromSettling(s: State, id: HandlerId, answer: Option<(bool, int)>, faults: Faults)
    requires id in s.handlers && s.handlers[id].stage.Settling?
    requires Settles(s, s.handlers[id].hash) && s.payments[s.handlers[id].hash] == s.handlers[id].stage.payment
    ensures var h, s' := s.handlers[id], RunToEnd(s, id, answer, faults);
            var p := h.stage.payment;
            && s'.payments == (if faults.settle != FailsUnapplied
                               then s.payments[h.hash := p.(status := Settled)] else s.payments)
            && s'.members == if faults.settle.NoFault? && !faults.member && !faults.update && p.pubkey in s.members
                 then s.members[p.pubkey := Extended(s.members[p.pubkey], p, s.now)] else s.members
  {
    hide Granted, ResetExpired, Stale, Extended;
    var s1 := Apply(s, Settle(id, faults.settle));
    assert RunToEnd(s, id, answer, faults) == RunToEnd(s1, id, answer, faults);
    if faults.settle.NoFault? {
      EndFromReading(s1, id, answer, faults);
    }
  }

  lemma EndFromChecking(s: State, id: HandlerId, answer: Option<(bool, int)>, faults: Faults)
    requires id in s.handlers && s.handlers[id].stage.Checking? && !faults.lookup
    requires Settles(s, s.handlers[id].hash) && s.payments[s.handlers[id].hash] == s.handlers[id].stage.payment
    ensures var s' := RunToEnd(s, id, answer, faults);
            WebhookEffect(s.payments, s.members, s.handlers[id].hash, answer, faults, s.now, s'.payments, s'.members)
  {
    hide Granted, ResetExpired, Stale, Extended;
    var s1 := Apply(s, Check(id, answer));
    assert RunToEnd(s, id, answer, faults) == RunToEnd(s1, id, answer, faults);
    if s1.handlers[id].stage.Settling? {
      EndFromSettling(s1, id, answer, faults);
    }
  }

  /**
    * Run without interruption, the interleaved steps of one handler do to the tables what HandleWebhook does, whatever
    * the node answers and whichever statements fail.
    */
  lemma UninterruptedHandler(s: State, id: HandlerId, answer: Option<(bool, int)>, faults: Faults)
    requires id in s.handlers && s.handlers[id].stage.Looking?
    ensures var s' := RunToEnd(s, id, answer, faults);
            WebhookEffect(s.payments, s.members, s.handlers[id].hash, answer, faults, s.now, s'.payments, s'.members)
  {
    hide Granted, ResetExpired, Stale, Extended;
    var s1 := Apply(s, Lookup(id, !faults.lookup));
    assert RunToEnd(s, id, answer, faults) == RunToEnd(s1, id, answer, faults);
    if s1.handlers[id].stage.Checking? {
      EndFromChecking(s1, id, answer, faults);
    }
  }

  // ---------- two handlers of one member that overlap ----------

  /** Both read the member, then both read the clock, then both write. */
  function Overlapped(s: State, a: HandlerId, b: HandlerId): State
    requires BothReading(s, a, b)
  {
    var s1 := Apply(s, ReadMember(a, true));
    var s2 := Apply(s1, ReadMember(b, true));
    var s3 := Apply(s2, ReadClock(a));
    var s4 := Apply(s3, ReadClock(b));
    Apply(Apply(s4, WriteTier(a, true)), WriteTier(b, true))
  }

  /** Two handlers have settled two payments of one member and are about to read its row. */
  predicate BothReading(s: State, a: HandlerId, b: HandlerId) {
    && a != b && a in s.handlers && b in s.handlers
    && s.handlers[a].stage.Reading? && s.handlers[b].stage.Reading?
    && s.handlers[a].stage.payment.pubkey == s.handlers[b].stage.payment.pubkey
    && s.handlers[a].stage.payment.pubkey in s.members
  }

  /** Run one after the other they deliver both periods; overlapped, the period of the first writer is lost. */
  lemma OverlapLosesAPeriod(s: State, a: HandlerId, b: HandlerId, answer: Option<(bool, int)>, faults: Faults)
    requires BothReading(s, a, b) && !faults.member && !faults.update
    ensures var p, q := s.handlers[a].stage.payment, s.handlers[b].stage.payment;
            var end := Granted(s.members[p.pubkey].expires, s.now, Period(q));
            var after := RunToEnd(s, a, answer, faults);
            && p.pubkey in Overlapped(s, a, b).members
            && Overlapped(s, a, b).members[p.pubkey].expires == Some(end)
            && BothDone(s, after, a, b)
            && p.pubkey in RunToEnd(after, b, answer, faults).members
            && RunToEnd(after, b, answer, faults).members[p.pubkey].expires == Some(end + Period(p))
  {
    hide RunToEnd, WebhookEffect, ResetExpired, Stale;
    EndFromReading(s, a, answer, faults);
    var after := RunToEnd(s, a, answer, faults);
    OthersStand(s, a, b, answer, faults);
    EndFromReading(after, b, answer, faults);
  }

  ghost predicate BothDone(s: State, after: State, a: HandlerId, b: HandlerId) {
    b in after.handlers && b in s.handlers && after.handlers[b] == s.handlers[b] && after.now == s.now
  }

  lemma OneStepLeavesOthers(s: State, a: HandlerId, b: HandlerId, answer: Option<(bool, int)>, faults: Faults)
    requires a in s.handlers && b in s.handlers && a != b && !s.handlers[a].stage.Done?
    requires Enabled(s, NextStep(a, s.handlers[a].stage, answer, faults))
    ensures BothDone(s, Apply(s, NextStep(a, s.handlers[a].stage, answer, faults)), a, b)
  {
    hide ResetExpired, Stale, AfterCheck, AfterLookup, NewMember;
  }

  /** A handler's own steps leave the other handlers and the clock alone. */
  lemma {:induction false} OthersStand(s: State, a: HandlerId, b: HandlerId,
                                       answer: Option<(bool, int)>, faults: Faults)
    requires a in s.handlers && b in s.handlers && a != b
    ensures BothDone(s, RunToEnd(s, a, answer, faults), a, b)
    decreases StepsLeft(s.handlers[a].stage)
  {
    hide Enabled, Apply, NextStep;
    if !s.handlers[a].stage.Done? {
      NextStepAdvances(s, a, answer, faults);
      OneStepLeavesOthers(s, a, b, answer, faults);
      OthersStand(Apply(s, NextStep(a, s.handlers[a].stage, answer, faults)), a, b, answer, faults);
    }
  }
}
