/** The in-memory per-IP limiter: tokens spent per key, refunded every interval, forgotten at zero. */
module MemoryBuckets {

  /** Tokens refunded per interval, and tokens a key may have spent. */
  datatype Limits = Limits(tokensPerInterval: nat, maxTokens: int)

  class MemoryLimiter {
    const limits: Limits
    var buckets: map<string, int>

    constructor (limits: Limits)
      ensures this.limits == limits && buckets == map[]
    {
      this.limits := limits;
      buckets := map[];
    }

    /** Tokens spent; a key the map does not have has spent none. */
    ghost function Spent(key: string): int
      reads this
    {
      if key in buckets then buckets[key] else 0
    }

    ghost predicate Valid()
      reads this
    {
      forall k | k in buckets :: 0 <= buckets[k]
    }

    method Limited(key: string) returns (limited: bool)
      requires Valid()
      modifies this
      ensures Valid()
      ensures limited == !Admits(old(Spent(key)), limits)
      ensures Spent(key) == AfterHit(old(Spent(key)), limits)
      ensures forall k | k != key :: Spent(k) == old(Spent(k))
    {
      if key !in buckets {
        buckets := buckets[key := 0];
      }
      if buckets[key] < limits.maxTokens {
        buckets := buckets[key := buckets[key] + 1];
        return false;
      }
      return true;
    }

    /** One pass of the refund loop: every counter goes down, and a counter at or below zero is deleted. */
    method RefundAll()
      requires Valid()
      modifies this
      ensures Valid()
      ensures forall k :: Spent(k) == AfterRefund(old(Spent(k)), limits)
    {
      var todo := buckets.Keys;
      ghost var before := buckets;
      while todo != {}
        invariant todo <= before.Keys && todo <= buckets.Keys <= before.Keys
        invariant forall k | k in todo :: buckets[k] == before[k]
        invariant forall k | k in before && k !in todo ::
          Spent(k) == AfterRefund(before[k], limits) && (k in buckets ==> 0 < buckets[k])
        decreases todo
      {
        var k :| k in todo;
        buckets := buckets[k := buckets[k] - limits.tokensPerInterval];
        if buckets[k] <= 0 {
          buckets := buckets - {k};
        }
        todo := todo - {k};
      }
    }
  }

  predicate Admits(spent: int, l: Limits) {
    spent < l.maxTokens
  }

  function AfterHit(spent: int, l: Limits): int {
    if Admits(spent, l) then spent + 1 else spent
  }

  /** Deleting a counter at or below zero is clamping it at zero. */
  function AfterRefund(spent: int, l: Limits): int {
    if spent - l.tokensPerInterval <= 0 then 0 else spent - l.tokensPerInterval
  }

  // ---------- counting ----------

  /** What happens to one key. */
  datatype Op = Hit | Refund

  function SpentAfter(ops: seq<Op>, spent: int, l: Limits): int {
    if ops == [] then spent
    else
      var before := SpentAfter(ops[..|ops| - 1], spent, l);
      if ops[|ops| - 1].Hit? then AfterHit(before, l) else AfterRefund(before, l)
  }

  function Admitted(ops: seq<Op>, spent: int, l: Limits): nat {
    if ops == [] then 0
    else
      Admitted(ops[..|ops| - 1], spent, l)
      + if ops[|ops| - 1].Hit? && Admits(SpentAfter(ops[..|ops| - 1], spent, l), l) then 1 else 0
  }

  function Refunds(ops: seq<Op>): nat {
    if ops == [] then 0 else Refunds(ops[..|ops| - 1]) + if ops[|ops| - 1].Refund? then 1 else 0
  }

  lemma {:induction false} SpendingBalances(ops: seq<Op>, spent: int, l: Limits)
    requires 0 <= spent <= l.maxTokens
    ensures 0 <= SpentAfter(ops, spent, l) <= l.maxTokens
    ensures spent + Admitted(ops, spent, l) - Refunds(ops) * l.tokensPerInterval <= SpentAfter(ops, spent, l)
    ensures SpentAfter(ops, spent, l) <= spent + Admitted(ops, spent, l)
  {
    if ops != [] {
      var init := ops[..|ops| - 1];
      SpendingBalances(init, spent, l);
      if ops[|ops| - 1].Refund? {
        OneMoreRefund(Refunds(init), l.tokensPerInterval);
      }
    }
  }

  lemma OneMoreRefund(k: nat, tokens: nat)
    ensures (k + 1) * tokens == k * tokens + tokens
  {}

  /** Across k refunds a key gets at most maxTokens + k * tokensPerInterval through, from any state of its counter. */
  lemma AdmissionBound(ops: seq<Op>, spent: int, l: Limits)
    requires 0 <= spent <= l.maxTokens
    ensures Admitted(ops, spent, l) <= l.maxTokens - spent + Refunds(ops) * l.tokensPerInterval
  {
    SpendingBalances(ops, spent, l);
  }

  /** And nothing is refused before maxTokens requests have been admitted since the counter last stood at zero. */
  lemma NoEarlyRefusal(ops: seq<Op>, l: Limits)
    requires 0 <= l.maxTokens && Admitted(ops, 0, l) < l.maxTokens
    ensures Admits(SpentAfter(ops, 0, l), l)
  {
    SpendingBalances(ops, 0, l);
  }

  // ---------- refunds give back ----------

  function Refunding(r: nat): seq<Op> {
    seq(r, _ => Refund)
  }

  function Hitting(k: nat): seq<Op> {
    seq(k, _ => Hit)
  }

  /** What is left of the tokens spent after r intervals without a request. */
  function Left(spent: nat, r: nat, l: Limits): nat {
    if r * l.tokensPerInterval >= spent then 0 else spent - r * l.tokensPerInterval
  }

  lemma {:induction false} RefundsGiveBack(spent: nat, r: nat, l: Limits)
    ensures SpentAfter(Refunding(r), spent, l) == if r == 0 then spent else Left(spent, r, l)
    ensures Admitted(Refunding(r), spent, l) == 0
  {
    if r > 0 {
      RefundsGiveBack(spent, r - 1, l);
      OneMoreRefund(r - 1, l.tokensPerInterval);
      assert Refunding(r)[..r - 1] == Refunding(r - 1);
    }
  }

  /** Of k more requests after these, as many get through as there are tokens left. */
  lemma {:induction false} HitsTakeWhatIsThere(before: seq<Op>, spent: nat, k: nat, l: Limits)
    requires 0 <= SpentAfter(before, spent, l) <= l.maxTokens
    ensures var free := l.maxTokens - SpentAfter(before, spent, l);
            && Admitted(before + Hitting(k), spent, l) == Admitted(before, spent, l) + (if k < free then k else free)
            && SpentAfter(before + Hitting(k), spent, l) == l.maxTokens - (if k < free then free - k else 0)
  {
    hide SpentAfter, Admitted;
    if k == 0 {
      assert before + Hitting(0) == before;
    } else {
      HitsTakeWhatIsThere(before, spent, k - 1, l);
      assert before + Hitting(k) == (before + Hitting(k - 1)) + [Hit];
      OneMoreHit(before + Hitting(k - 1), spent, l);
    }
  }

  lemma OneMoreHit(ops: seq<Op>, spent: nat, l: Limits)
    ensures SpentAfter(ops + [Hit], spent, l) == AfterHit(SpentAfter(ops, spent, l), l)
    ensures Admitted(ops + [Hit], spent, l)
         == Admitted(ops, spent, l) + if Admits(SpentAfter(ops, spent, l), l) then 1 else 0
  {
    assert (ops + [Hit])[..|ops|] == ops;
  }

  /**
    * A key that has spent some or all of its tokens and stays away for r intervals gets exactly the tokens refunded in
    * them, at most what it had spent, on top of what it still had.
    */
  lemma AbsenceIsRepaid(spent: nat, r: nat, k: nat, l: Limits)
    requires spent <= l.maxTokens
    ensures var free := if r * l.tokensPerInterval >= spent then l.maxTokens
                        else l.maxTokens - spent + r * l.tokensPerInterval;
            Admitted(Refunding(r) + Hitting(k), spent, l) == if k < free then k else free
  {
    RefundsGiveBack(spent, r, l);
    if r == 0 {
      assert r * l.tokensPerInterval == 0;
    }
    HitsTakeWhatIsThere(Refunding(r), spent, k, l);
  }

  /** A refused key is admitted again exactly after as many intervals as refund one token or more. */
  lemma AdmittedAgainIff(spent: nat, r: nat, l: Limits)
    requires spent == l.maxTokens && spent > 0
    ensures !Admits(spent, l)
    ensures Admits(SpentAfter(Refunding(r), spent, l), l) <==> r > 0 && l.tokensPerInterval > 0
  {
    RefundsGiveBack(spent, r, l);
    if r > 0 && l.tokensPerInterval > 0 {
      assert r * l.tokensPerInterval > 0;
    }
  }
}
