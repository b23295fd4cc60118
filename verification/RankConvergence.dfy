/** Why the rank iteration stops, how far from the limit it stops, and what the start vector is worth. */
module RankConvergence {
  import opened Sums
  import opened PageRank

  // ---------- mass ----------

  lemma JumpsAddUp(g: seq<Follow>)
    requires g != []
    ensures |Nodes(g)| as real * RandomJump(g) == 0.15
  {
    hide Nodes;
    NodesNonempty(g);
  }

  lemma RoundReads(g: seq<Follow>, s: Scores, v: Pubkey)
    requires g != [] && v in Nodes(g)
    ensures Read(Round(g, s))(v) == RandomJump(g) + Damped(Inflows(g, s)(v))
  {
    hide RandomJump, Nodes, InLinks, Inflow;
  }

  lemma MassIsSum(n: set<Pubkey>, s: Scores)
    ensures Mass(n, s) == Sum(n, Read(s))
  {}

  lemma {:induction false} SumDamped(n: set<Pubkey>, f: Pubkey -> real, h: Pubkey -> real)
    requires forall v | v in n :: h(v) == Damped(f(v))
    ensures Sum(n, h) == Damped(Sum(n, f))
    decreases |n|
  {
    if n != {} {
      var v :| v in n;
      SumSplit(n, f, v);
      SumSplit(n, h, v);
      SumDamped(n - {v}, f, h);
    }
  }

  /** The exact mass balance of a round: what dangling pubkeys hold is lost, the rest is damped. */
  lemma MassOfRound(g: seq<Follow>, s: Scores)
    requires g != []
    ensures Mass(Nodes(g), Round(g, s)) == 0.15 + Damped(Mass(Nodes(g), s) - Dangling(g, s))
  {
    hide *;
    var n := Nodes(g);
    var damped := v => Damped(Inflows(g, s)(v));
    var jump := (_: Pubkey) => RandomJump(g);
    TotalInflow(g, s);
    SumDamped(n, Inflows(g, s), damped);
    SumConst(n, jump, RandomJump(g));
    JumpsAddUp(g);
    forall v | v in n ensures Read(Round(g, s))(v) == jump(v) + damped(v) {
      RoundReads(g, s, v);
    }
    SumAdd(n, jump, damped, Read(Round(g, s)));
    MassIsSum(n, Round(g, s));
  }

  lemma {:induction false} InflowNonNegative(g: seq<Follow>, v: Pubkey, share: Pubkey -> real)
    requires forall u :: 0.0 <= share(u)
    ensures 0.0 <= Inflow(g, v, share)
  {
    if g != [] {
      InflowNonNegative(g[..|g| - 1], v, share);
    }
  }

  lemma ShareNonNegative(g: seq<Follow>, s: Scores, u: Pubkey)
    requires NonNegative(s)
    ensures 0.0 <= Share(g, s, u)
  {}

  lemma JumpIsPositive(g: seq<Follow>)
    requires g != []
    ensures 0.0 < RandomJump(g)
  {
    hide Nodes;
    NodesNonempty(g);
  }

  /** After a round every pubkey holds at least its random-jump share, which is positive. */
  lemma RoundIsPositive(g: seq<Follow>, s: Scores)
    requires g != [] && NonNegative(s)
    ensures Round(g, s).Keys == Nodes(g) && NonNegative(Round(g, s))
    ensures forall v | v in Nodes(g) :: 0.0 < RandomJump(g) <= Round(g, s)[v]
  {
    hide OutLinks, InLinks, Share, Inflow, Nodes, RandomJump;
    JumpIsPositive(g);
    forall v | v in Nodes(g) ensures RandomJump(g) <= Round(g, s)[v] {
      forall u ensures 0.0 <= Shares(g, s)(u) {
        ShareNonNegative(g, s, u);
      }
      InflowNonNegative(g, v, Shares(g, s));
    }
  }

  lemma DanglingIsSmall(g: seq<Follow>, s: Scores)
    requires NonNegative(s)
    ensures 0.0 <= Dangling(g, s) <= Mass(Nodes(g), s)
  {
    hide OutLinks;
    var n := Nodes(g);
    SumNonNegative(n, Kept(g, s));
    SumMono(n, Kept(g, s), Read(s));
  }

  lemma MassStaysBounded(g: seq<Follow>, s: Scores)
    requires g != [] && NonNegative(s)
    ensures var m := Mass(Nodes(g), s);
            0.0 <= Mass(Nodes(g), Round(g, s)) <= (if m < 1.0 then 1.0 else m)
  {
    hide Nodes, Round, Mass, Dangling;
    MassOfRound(g, s);
    DanglingIsSmall(g, s);
  }

  // ---------- contraction ----------

  lemma {:induction false} InflowGap(g: seq<Follow>, v: Pubkey, a: Pubkey -> real, b: Pubkey -> real, c: Pubkey -> real)
    requires forall u | u in Nodes(g) :: Abs(a(u) - b(u)) <= c(u)
    ensures Abs(Inflow(g, v, a) - Inflow(g, v, b)) <= Inflow(g, v, c)
  {
    if g != [] {
      InflowGap(g[..|g| - 1], v, a, b, c);
      assert g[|g| - 1].follower in Nodes(g);
    }
  }

  lemma QuotientGap(x: real, y: real, k: nat)
    requires k > 0
    ensures Abs(x / k as real - y / k as real) == Abs(x - y) / k as real
  {
    var r := k as real;
    assert x / r - y / r == (x - y) / r;
    if x < y {
      assert (x - y) / r == -((y - x) / r);
    }
  }

  lemma ShareGap(g: seq<Follow>, s: Scores, t: Scores, u: Pubkey)
    requires u in Nodes(g)
    ensures Abs(Share(g, s, u) - Share(g, t, u)) <= Share(g, Gap(Nodes(g), s, t), u)
  {
    if |OutLinks(g, u)| > 0 {
      QuotientGap(At(s, u), At(t, u), |OutLinks(g, u)|);
    }
  }

  lemma ScoreGap(g: seq<Follow>, s: Scores, t: Scores, v: Pubkey)
    requires g != []
    ensures Abs(NewScore(g, s, v) - NewScore(g, t, v))
         <= Damped(Inflows(g, Gap(Nodes(g), s, t))(v))
  {
    hide OutLinks, InLinks, Share, RandomJump, Gap, Inflow, Nodes;
    var a, b, c := Shares(g, s), Shares(g, t), Shares(g, Gap(Nodes(g), s, t));
    forall u | u in Nodes(g) ensures Abs(a(u) - b(u)) <= c(u) {
      ShareGap(g, s, t, u);
    }
    InflowGap(g, v, a, b, c);
  }

  /** One round brings any two score vectors closer by the damping factor, on every follow graph. */
  lemma Contraction(g: seq<Follow>, s: Scores, t: Scores)
    requires g != []
    ensures Distance(Nodes(g), Round(g, s), Round(g, t)) <= Damped(Distance(Nodes(g), s, t))
  {
    hide OutLinks, InLinks, Nodes, Share, Shares, RandomJump, NewScore, Inflow, Dangling;
    var n := Nodes(g);
    var gap := Gap(n, s, t);
    var damped := v => Damped(Inflows(g, gap)(v));
    forall v | v in n ensures Apart(Round(g, s), Round(g, t))(v) <= damped(v) {
      ScoreGap(g, s, t, v);
    }
    SumMono(n, Apart(Round(g, s), Round(g, t)), damped);
    SumDamped(n, Inflows(g, gap), damped);
    TotalInflow(g, gap);
    DanglingIsSmall(g, gap);
    SumMono(n, Read(gap), Apart(s, t));
  }

  // ---------- geometric decay ----------

  /** d after k damped rounds. */
  function Decay(d: real, k: nat): real {
    if k == 0 then d else Damped(Decay(d, k - 1))
  }

  function Pow(b: real, k: nat): real {
    if k == 0 then 1.0 else b * Pow(b, k - 1)
  }

  lemma {:induction false} DecayIsPower(d: real, k: nat)
    ensures Decay(d, k) == Pow(0.85, k) * d
  {
    if k > 0 {
      DecayIsPower(d, k - 1);
    }
  }

  lemma {:induction false} DecayMono(d: real, e: real, k: nat)
    requires d <= e
    ensures Decay(d, k) <= Decay(e, k)
  {
    if k > 0 {
      DecayMono(d, e, k - 1);
    }
  }

  lemma {:induction false} DecayNonNegative(d: real, k: nat)
    requires 0.0 <= d
    ensures 0.0 <= Decay(d, k)
  {
    if k > 0 {
      DecayNonNegative(d, k - 1);
    }
  }

  lemma {:induction false} DecayAfter(d: real, j: nat, k: nat)
    ensures Decay(d, j + k) == Decay(Decay(d, j), k)
  {
    if k > 0 {
      DecayAfter(d, j, k - 1);
      assert j + k - 1 == j + (k - 1);
    }
  }

  lemma DecayEight(d: real)
    requires 0.0 <= d
    ensures Decay(d, 8) <= 0.2725 * d
  {
    assert Decay(d, 4) == 0.52200625 * d by {
      assert Decay(d, 1) == 0.85 * d;
      assert Decay(d, 2) == 0.7225 * d;
      assert Decay(d, 3) == 0.614125 * d;
    }
    assert Decay(d, 6) == Damped(Damped(Decay(d, 4)));
    assert Decay(d, 8) == Damped(Damped(Decay(d, 6)));
  }

  lemma DecayThirtyTwo(d: real)
    requires 0.0 <= d
    ensures Decay(d, 32) <= 0.00552 * d
  {
    var a := Decay(d, 8);
    var b := Decay(d, 16);
    var c := Decay(d, 24);
    DecayNonNegative(d, 8);
    DecayNonNegative(d, 16);
    DecayNonNegative(d, 24);
    DecayAfter(d, 8, 8);
    DecayAfter(d, 16, 8);
    DecayAfter(d, 24, 8);
    DecayEight(d);
    DecayEight(a);
    DecayEight(b);
    DecayEight(c);
  }

  /** The number behind the iteration cap: 96 rounds take the largest possible first step below the threshold. */
  lemma NinetySixRoundsSuffice(d: real)
    requires 0.0 <= d <= 3.85
    ensures Decay(d, 96) < CONVERGENCE_EPS
  {
    var a := Decay(d, 32);
    var b := Decay(d, 64);
    DecayNonNegative(d, 32);
    DecayNonNegative(d, 64);
    DecayAfter(d, 32, 32);
    DecayAfter(d, 64, 32);
    DecayThirtyTwo(d);
    DecayThirtyTwo(a);
    DecayThirtyTwo(b);
  }

  /** With room for larger boosts: 99 rounds take a first step of up to 9.4 below the threshold. */
  lemma NinetyNineRoundsSuffice(d: real)
    requires 0.0 <= d <= 9.4
    ensures Decay(d, 99) < CONVERGENCE_EPS
  {
    var a := Decay(d, 33);
    var b := Decay(d, 66);
    DecayNonNegative(d, 33);
    DecayNonNegative(d, 66);
    DecayAfter(d, 33, 33);
    DecayAfter(d, 66, 33);
    DecayThirtyThree(d);
    DecayThirtyThree(a);
    DecayThirtyThree(b);
  }

  lemma DecayThirtyThree(d: real)
    requires 0.0 <= d
    ensures Decay(d, 33) <= 0.0047 * d
  {
    DecayAfter(d, 32, 1);
    DecayThirtyTwo(d);
    assert Decay(Decay(d, 32), 1) == Damped(Decay(d, 32));
  }

  /** Two start vectors drift together geometrically, so a boost in the start vector is washed out. */
  lemma {:induction false} Drift(g: seq<Follow>, s: Scores, t: Scores, k: nat)
    requires g != []
    ensures Distance(Nodes(g), Iterate(g, s, k), Iterate(g, t, k)) <= Decay(Distance(Nodes(g), s, t), k)
  {
    if k > 0 {
      Drift(g, s, t, k - 1);
      Contraction(g, Iterate(g, s, k - 1), Iterate(g, t, k - 1));
    }
  }

  lemma BoostIsWashedOut(g: seq<Follow>, s: Scores, t: Scores, k: nat)
    requires g != []
    ensures Distance(Nodes(g), Iterate(g, s, k), Iterate(g, t, k))
         <= Pow(0.85, k) * Distance(Nodes(g), s, t)
  {
    hide *;
    Drift(g, s, t, k);
    DecayIsPower(Distance(Nodes(g), s, t), k);
  }

  lemma {:induction false} IterateCompose(g: seq<Follow>, s: Scores, k: nat, m: nat)
    requires g != []
    ensures Iterate(g, Iterate(g, s, k), m) == Iterate(g, s, k + m)
  {
    hide Nodes, Round;
    if m > 0 {
      IterateCompose(g, s, k, m - 1);
    }
  }

  lemma IterateOnce(g: seq<Follow>, s: Scores)
    requires g != []
    ensures Iterate(g, s, 1) == Round(g, s)
  {
    hide Nodes, Round;
    assert Iterate(g, s, 0) == s;
  }

  // ---------- the stop test ----------

  /** Every score moved by less than the threshold. */
  ghost predicate Settled(n: set<Pubkey>, s: Scores, t: Scores) {
    forall v {:trigger v in n} | v in n :: Abs(At(s, v) - At(t, v)) < CONVERGENCE_EPS
  }

  function InitialScores(g: seq<Follow>, roots: set<Pubkey>, boost: real): Scores
    requires g != []
  {
    NodesNonempty(g);
    map v | v in Nodes(g) ::
      if v in roots then Boosted(boost, EqualPart(|Nodes(g)|)) else EqualPart(|Nodes(g)|)
  }

  /** Every pubkey of the graph starts with an equal part, a trust root with that many times the boost. */
  lemma StartVector(g: seq<Follow>, roots: set<Pubkey>, boost: real, v: Pubkey)
    requires g != []
    ensures InitialScores(g, roots, boost).Keys == Nodes(g)
    ensures v in Nodes(g) ==>
              InitialScores(g, roots, boost)[v] * |Nodes(g)| as real == if v in roots then boost else 1.0
  {
    hide Nodes;
    NodesNonempty(g);
    var part := EqualPart(|Nodes(g)|);
    assert part * |Nodes(g)| as real == 1.0;
    assert (part * boost) * |Nodes(g)| as real == boost * (part * |Nodes(g)| as real);
  }

  function EqualPart(k: nat): real
    requires k > 0
  {
    1.0 / k as real
  }

  /** The boost a trust root gets in the start vector. */
  function Boosted(boost: real, x: real): real {
    x * boost
  }

  /** The most mass a start vector can have: all pubkeys are roots, or none is. */
  function Top(boost: real): real {
    if boost < 1.0 then 1.0 else boost
  }

  lemma EqualPartsAddUp(k: nat, boost: real)
    requires k > 0 && 0.0 <= boost
    ensures 0.0 <= EqualPart(k) <= Boosted(Top(boost), EqualPart(k))
    ensures 0.0 <= Boosted(boost, EqualPart(k)) <= Boosted(Top(boost), EqualPart(k))
    ensures k as real * Boosted(Top(boost), EqualPart(k)) == Top(boost)
  {
    var x := EqualPart(k);
    assert k as real * x == 1.0;
    ProductGrows(x, boost, Top(boost));
    ProductGrows(x, 1.0, Top(boost));
    ProductsRegroup(k as real, x, Top(boost));
  }

  lemma ProductGrows(x: real, a: real, b: real)
    requires 0.0 <= x && 0.0 <= a <= b
    ensures 0.0 <= x * a <= x * b
  {
    assert x * (b - a) >= 0.0;
  }

  lemma ProductsRegroup(a: real, b: real, c: real)
    requires a * b == 1.0
    ensures a * (b * c) == c
  {
    assert a * (b * c) == (a * b) * c;
  }

  lemma InitialMass(g: seq<Follow>, roots: set<Pubkey>, boost: real)
    requires g != [] && 0.0 <= boost
    ensures InitialScores(g, roots, boost).Keys == Nodes(g) && NonNegative(InitialScores(g, roots, boost))
    ensures 0.0 <= Mass(Nodes(g), InitialScores(g, roots, boost)) <= Top(boost)
  {
    hide Nodes, EqualPart, Boosted, Mass, Top;
    NodesNonempty(g);
    var n, s0 := Nodes(g), InitialScores(g, roots, boost);
    EqualPartsAddUp(|n|, boost);
    MassAtMost(n, s0, Boosted(Top(boost), EqualPart(|n|)), Top(boost));
  }

  lemma MassAtMost(n: set<Pubkey>, s: Scores, top: real, total: real)
    requires forall u | u in n :: 0.0 <= At(s, u) <= top
    requires |n| as real * top == total
    ensures 0.0 <= Mass(n, s) <= total
  {
    SumConst(n, _ => top, top);
    SumMono(n, Read(s), _ => top);
    SumNonNegative(n, Read(s));
  }

  lemma DistanceAtMostMasses(n: set<Pubkey>, s: Scores, t: Scores)
    requires NonNegative(s) && NonNegative(t)
    ensures 0.0 <= Distance(n, s, t) <= Mass(n, s) + Mass(n, t)
  {
    var both := u => At(s, u) + At(t, u);
    SumNonNegative(n, Apart(s, t));
    SumMono(n, Apart(s, t), both);
    SumAdd(n, Read(s), Read(t), both);
  }

  lemma CloseMeansSettled(n: set<Pubkey>, s: Scores, t: Scores)
    requires Distance(n, s, t) < CONVERGENCE_EPS
    ensures Settled(n, s, t)
  {
    forall v | v in n ensures Abs(At(s, v) - At(t, v)) < CONVERGENCE_EPS {
      TermAtMostSum(n, Apart(s, t), v);
    }
  }

  /** The largest first step a start vector with that boost can take. */
  function FirstStep(boost: real): real {
    0.15 + 1.85 * Top(boost)
  }

  /** The stop test holds once the largest possible first step has decayed below the threshold. */
  lemma SettlesAfter(g: seq<Follow>, roots: set<Pubkey>, boost: real, k: nat)
    requires g != [] && 0.0 <= boost
    requires forall d | 0.0 <= d <= FirstStep(boost) :: Decay(d, k) < CONVERGENCE_EPS
    ensures var s0 := InitialScores(g, roots, boost);
            Settled(Nodes(g), Iterate(g, s0, 1 + k), Iterate(g, s0, k))
  {
    hide Nodes, Round, Mass, Dangling, Distance, Iterate, Decay, InitialScores, Settled, Top;
    var n, s0 := Nodes(g), InitialScores(g, roots, boost);
    InitialMass(g, roots, boost);
    MassOfRound(g, s0);
    DanglingIsSmall(g, s0);
    RoundIsPositive(g, s0);
    DistanceAtMostMasses(n, Round(g, s0), s0);
    Drift(g, Round(g, s0), s0, k);
    assert Round(g, s0) == Iterate(g, s0, 1) by { IterateOnce(g, s0); }
    IterateCompose(g, s0, 1, k);
    CloseMeansSettled(n, Iterate(g, s0, 1 + k), Iterate(g, s0, k));
  }

  /**
    * The stop test holds after round 100 at the latest for every boost up to 5, and after round 97 for the configured
    * boost of 2: the cap of 100 iterations never ends the loop.
    */
  lemma SettlesBeforeTheCap(g: seq<Follow>, roots: set<Pubkey>, boost: real)
    requires g != [] && 0.0 <= boost <= 5.0
    ensures var s0 := InitialScores(g, roots, boost);
            && Settled(Nodes(g), Iterate(g, s0, MAX_ITERATIONS), Iterate(g, s0, MAX_ITERATIONS - 1))
            && (boost <= OWNER_BOOST ==> Settled(Nodes(g), Iterate(g, s0, 97), Iterate(g, s0, 96)))
  {
    hide Nodes, Iterate, InitialScores, Settled, Decay;
    forall d | 0.0 <= d <= FirstStep(boost)
      ensures Decay(d, 99) < CONVERGENCE_EPS
    {
      NinetyNineRoundsSuffice(d);
    }
    SettlesAfter(g, roots, boost, 99);
    if boost <= OWNER_BOOST {
      forall d | 0.0 <= d <= FirstStep(boost)
        ensures Decay(d, 96) < CONVERGENCE_EPS
      {
        NinetySixRoundsSuffice(d);
      }
      SettlesAfter(g, roots, boost, 96);
    }
  }

  // ---------- how far from the limit ----------

  lemma Triangle(n: set<Pubkey>, s: Scores, t: Scores, u: Scores)
    ensures Distance(n, s, u) <= Distance(n, s, t) + Distance(n, t, u)
  {
    var st, tu, su := Apart(s, t), Apart(t, u), Apart(s, u);
    var both := v => st(v) + tu(v);
    forall v | v in n ensures su(v) <= both(v) {
      assert st(v) == Abs(At(s, v) - At(t, v)) && tu(v) == Abs(At(t, v) - At(u, v));
    }
    SumMono(n, su, both);
    SumAdd(n, st, tu, both);
  }

  /** The convergence threshold, once per node. */
  function Slack(k: nat): real {
    k as real * 0.000001
  }

  lemma SettledMeansClose(n: set<Pubkey>, s: Scores, t: Scores)
    requires Settled(n, s, t)
    ensures Distance(n, s, t) <= Slack(|n|)
    ensures Distance(n, t, s) == Distance(n, s, t)
  {
    SumConst(n, _ => CONVERGENCE_EPS, CONVERGENCE_EPS);
    SumMono(n, Apart(s, t), _ => CONVERGENCE_EPS);
    SumCongruence(n, Apart(s, t), Apart(t, s));
  }

  /** At loop exit the scores are within 17/3 of the threshold per node of every fixed point. */
  lemma NearEveryFixedPoint(g: seq<Follow>, s: Scores, fixed: Scores)
    requires g != []
    requires Settled(Nodes(g), Round(g, s), s)
    requires Round(g, fixed) == fixed
    ensures 3.0 * Distance(Nodes(g), Round(g, s), fixed) <= 17.0 * Slack(|Nodes(g)|)
  {
    var n, x := Nodes(g), Round(g, s);
    SettledMeansClose(n, x, s);
    Triangle(n, s, x, fixed);
    Contraction(g, s, fixed);
  }

  /** Whatever the start vectors were, two settled computations on one graph end close together. */
  lemma AnyTwoExitsAgree(g: seq<Follow>, s: Scores, t: Scores)
    requires g != []
    requires Settled(Nodes(g), Round(g, s), s) && Settled(Nodes(g), Round(g, t), t)
    ensures 3.0 * Distance(Nodes(g), Round(g, s), Round(g, t)) <= 34.0 * Slack(|Nodes(g)|)
  {
    hide Nodes, Round, Distance;
    var n := Nodes(g);
    SettledMeansClose(n, Round(g, s), s);
    SettledMeansClose(n, Round(g, t), t);
    Triangle(n, s, Round(g, s), t);
    Triangle(n, Round(g, s), Round(g, t), t);
    Contraction(g, s, t);
  }

  lemma DistanceToSelf(n: set<Pubkey>, s: Scores)
    ensures Distance(n, s, s) == 0.0
  {
    SumConst(n, Apart(s, s), 0.0);
  }

  /** No number of further rounds would move the exit scores by more than the same bound. */
  lemma {:induction false} NearEveryLaterRound(g: seq<Follow>, s: Scores, m: nat)
    requires g != []
    requires Settled(Nodes(g), Round(g, s), s)
    ensures 3.0 * Distance(Nodes(g), Round(g, s), Iterate(g, Round(g, s), m)) <= 17.0 * Slack(|Nodes(g)|)
  {
    hide OutLinks, InLinks, Nodes, NewScore, Distance;
    var n, x := Nodes(g), Round(g, s);
    SettledMeansClose(n, x, s);
    if m == 0 {
      DistanceToSelf(n, x);
    } else {
      var y := Iterate(g, x, m - 1);
      NearEveryLaterRound(g, s, m - 1);
      Triangle(n, s, x, y);
      Contraction(g, s, y);
    }
  }

  lemma FixedPointsAreUnique(g: seq<Follow>, s: Scores, t: Scores)
    requires g != []
    requires Round(g, s) == s && Round(g, t) == t
    ensures s == t
  {
    hide OutLinks, InLinks, NewScore;
    var n := Nodes(g);
    Contraction(g, s, t);
    forall v | v in n ensures s[v] == t[v] {
      TermAtMostSum(n, Apart(s, t), v);
    }
  }
}
