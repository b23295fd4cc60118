/** Paid time: what grants and expiry sweeps do to a member's tier and its expiry. */
module TierTime {
  import opened Options

  datatype Tier = Free | Hybrid | Premium | Enterprise

  /** A missing expiry means the tier never expires. */
  datatype Member = Member(tier: Tier, expires: Option<int>)

  function EffectiveTier(m: Member, now: int): Tier {
    if m.tier == Free then Free
    else if m.expires.Some? && now > m.expires.value then Free
    else m.tier
  }

  /** The time a grant extends from: the current expiry if it lies ahead, now otherwise. */
  function BaseTime(expires: Option<int>, now: int): int {
    if expires.Some? && expires.value > now then expires.value else now
  }

  function Granted(expires: Option<int>, now: int, period: nat): int {
    BaseTime(expires, now) + period
  }

  /** Downgrading expired tiers leaves the expiry in place. */
  function ResetExpired(m: Member, now: int): Member {
    if m.tier != Free && m.expires.Some? && m.expires.value < now then m.(tier := Free) else m
  }

  // ---------- grants and sweeps on one member ----------

  datatype Act = Grant(at: int, tier: Tier, period: nat) | Sweep(at: int)

  function AfterAct(m: Member, act: Act): Member {
    match act
    case Grant(at, tier, period) => Member(tier, Some(Granted(m.expires, at, period)))
    case Sweep(at) => ResetExpired(m, at)
  }

  function After(m: Member, acts: seq<Act>): Member {
    if acts == [] then m else AfterAct(After(m, acts[..|acts| - 1]), acts[|acts| - 1])
  }

  function WithoutSweeps(acts: seq<Act>): (grants: seq<Act>)
    ensures forall a | a in grants :: a.Grant?
  {
    if acts == [] then []
    else
      var init := WithoutSweeps(acts[..|acts| - 1]);
      if acts[|acts| - 1].Grant? then init + [acts[|acts| - 1]] else init
  }

  /** Sweeps anywhere in a run change neither the expiry nor the effective tier at any later time. */
  lemma {:induction false} SweepsAreUnobservable(m: Member, acts: seq<Act>, now: int)
    requires forall i | 0 <= i < |acts| :: acts[i].at <= now
    ensures After(m, acts).expires == After(m, WithoutSweeps(acts)).expires
    ensures EffectiveTier(After(m, acts), now) == EffectiveTier(After(m, WithoutSweeps(acts)), now)
  {
    if acts != [] {
      var init, last := acts[..|acts| - 1], acts[|acts| - 1];
      SweepsAreUnobservable(m, init, now);
      var w := WithoutSweeps(init);
      assert (w + [last])[..|w|] == w;
    }
  }

  /** A grant of a paid tier gives it until the later of its clock and the old expiry plus the period, no longer. */
  lemma {:induction false} GrantLasts(m: Member, at: int, tier: Tier, period: nat, sweeps: seq<Act>, now: int)
    requires tier != Free && forall i | 0 <= i < |sweeps| :: sweeps[i].Sweep? && sweeps[i].at <= now
    ensures var end := if m.expires.Some? && m.expires.value > at then m.expires.value + period else at + period;
            EffectiveTier(After(m, [Grant(at, tier, period)] + sweeps), now) == if now <= end then tier else Free
    decreases |sweeps|
  {
    var acts := [Grant(at, tier, period)] + sweeps;
    if sweeps == [] {
      assert acts[..0] == [] && acts == [Grant(at, tier, period)];
    } else {
      var init := sweeps[..|sweeps| - 1];
      assert acts[..|acts| - 1] == [Grant(at, tier, period)] + init;
      GrantLasts(m, at, tier, period, init, now);
      SweepIsUnseen(After(m, [Grant(at, tier, period)] + init), sweeps[|sweeps| - 1].at, now);
    }
  }

  lemma SweepIsUnseen(m: Member, at: int, now: int)
    requires at <= now
    ensures EffectiveTier(AfterAct(m, Sweep(at)), now) == EffectiveTier(m, now)
  {}

  /** What a sweep does to a row: an expired paid tier becomes free and keeps its expiry, any other row stays. */
  lemma SweepDowngradesTheExpired(m: Member, at: int)
    ensures AfterAct(m, Sweep(at)).expires == m.expires
    ensures AfterAct(m, Sweep(at)).tier == if m.expires.Some? && m.expires.value < at then Free else m.tier
  {}

  // ---------- bought time is delivered in full ----------

  /** A grant as recorded: the time it read the clock, and the period bought. */
  datatype Purchase = Purchase(at: int, period: nat)

  function ExpiryAfter(expires: Option<int>, bought: seq<Purchase>): Option<int> {
    if bought == [] then expires
    else
      var last := bought[|bought| - 1];
      Some(Granted(ExpiryAfter(expires, bought[..|bought| - 1]), last.at, last.period))
  }

  function Periods(bought: seq<Purchase>): nat {
    if bought == [] then 0 else Periods(bought[..|bought| - 1]) + bought[|bought| - 1].period
  }

  /** Time in which the member had nothing left when the next grant came. */
  function Lapsed(expires: Option<int>, bought: seq<Purchase>): nat {
    if bought == [] then 0
    else
      var init, last := bought[..|bought| - 1], bought[|bought| - 1];
      Lapsed(expires, init) +
      var before := ExpiryAfter(expires, init);
      if before.Some? && before.value < last.at then last.at - before.value else 0
  }

  /** Final expiry minus the start is exactly the periods bought plus the gaps in which nothing was left. */
  lemma {:induction false} DeliveredInFull(expires: Option<int>, bought: seq<Purchase>)
    requires bought != []
    ensures var start := if expires.Some? then expires.value else bought[0].at;
            ExpiryAfter(expires, bought) == Some(start + Periods(bought) + Lapsed(expires, bought))
  {
    if |bought| > 1 {
      DeliveredInFull(expires, bought[..|bought| - 1]);
    } else {
      assert bought[..0] == [];
    }
  }

  /** t_j plus everything bought from purchase j on. */
  function ClaimFrom(bought: seq<Purchase>, j: nat): int
    requires j < |bought|
  {
    bought[j].at + Periods(bought) - Periods(bought[..j])
  }

  ghost predicate IsLatest(e: int, expires: Option<int>, bought: seq<Purchase>) {
    && (expires.Some? ==> expires.value + Periods(bought) <= e)
    && (forall j | 0 <= j < |bought| :: ClaimFrom(bought, j) <= e)
    && ((expires.Some? && e == expires.value + Periods(bought))
        || exists j :: 0 <= j < |bought| && e == ClaimFrom(bought, j))
  }

  lemma ClaimShifts(bought: seq<Purchase>, j: nat)
    requires j < |bought|
    ensures var init, last := bought[..|bought| - 1], bought[|bought| - 1];
            ClaimFrom(bought, j) == if j < |init| then ClaimFrom(init, j) + last.period else last.at + last.period
  {
    var init := bought[..|bought| - 1];
    assert bought[..j] == init[..j];
    assert init[..|init|] == init;
  }

  /** The expiry is the maximum over j of t_j plus the periods from j on, the initial expiry term included. */
  lemma {:induction false} ExpiryIsLatest(expires: Option<int>, bought: seq<Purchase>)
    requires bought != []
    ensures ExpiryAfter(expires, bought).Some? && IsLatest(ExpiryAfter(expires, bought).value, expires, bought)
  {
    hide ClaimFrom;
    var init, last := bought[..|bought| - 1], bought[|bought| - 1];
    var e := ExpiryAfter(expires, bought).value;
    ClaimShifts(bought, |init|);
    forall j | 0 <= j < |init| ensures ClaimFrom(bought, j) == ClaimFrom(init, j) + last.period {
      ClaimShifts(bought, j);
    }
    if init == [] {
      assert Periods(init) == 0 && ExpiryAfter(expires, init) == expires;
    } else {
      ExpiryIsLatest(expires, init);
      var before := ExpiryAfter(expires, init).value;
      if before > last.at && !(expires.Some? && before == expires.value + Periods(init)) {
        var j :| 0 <= j < |init| && before == ClaimFrom(init, j);
        assert e == ClaimFrom(bought, j);
      }
    }
    if e == last.at + last.period {
      assert e == ClaimFrom(bought, |init|);
    }
  }

  // ---------- where it is not ----------

  predicate NeverExpiringPaid(m: Member) {
    m.tier != Free && m.expires.None?
  }

  /** A grant never takes paid time away, exactly when the member does not already hold a never-expiring paid tier. */
  lemma GrantKeepsPaidTimeIff(m: Member, at: int, tier: Tier, period: nat)
    requires tier != Free
    ensures (forall t | at <= t ::
               EffectiveTier(m, t) != Free ==> EffectiveTier(AfterAct(m, Grant(at, tier, period)), t) != Free)
            <==> !NeverExpiringPaid(m)
  {
    var after := AfterAct(m, Grant(at, tier, period));
    if NeverExpiringPaid(m) {
      var t := at + period + 1;
      assert EffectiveTier(m, t) != Free && EffectiveTier(after, t) == Free;
    }
  }

  lemma OneMorePurchase(expires: Option<int>, bought: seq<Purchase>, p: Purchase)
    ensures ExpiryAfter(expires, bought + [p]) == Some(Granted(ExpiryAfter(expires, bought), p.at, p.period))
  {
    assert (bought + [p])[..|bought|] == bought;
  }
}
