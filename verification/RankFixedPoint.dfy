/** Every follow graph has a fixed point of the rank round: the linear equations are solved one pubkey at a time. */
module RankFixedPoint {
  import opened Sums
  import opened PageRank
  import opened RankConvergence

  /** The equation of one pubkey, with b as the constant term. */
  predicate Balanced(g: seq<Follow>, b: real, x: Scores, v: Pubkey) {
    At(x, v) == b + Damped(Inflow(g, v, Shares(g, x)))
  }

  /** x solves the equations of the pubkeys in s and is y elsewhere. */
  ghost predicate Solves(g: seq<Follow>, b: real, s: set<Pubkey>, y: Scores, x: Scores) {
    && x.Keys == Nodes(g)
    && (forall v | v in s :: Balanced(g, b, x, v))
    && forall v | v in Nodes(g) && v !in s :: x[v] == At(y, v)
  }

  // ---------- combining score vectors ----------

  function Scaled(t: real, x: real): real {
    t * x
  }

  /** p plus t times q. */
  function Plus(n: set<Pubkey>, p: Scores, t: real, q: Scores): Scores {
    map u | u in n :: At(p, u) + Scaled(t, At(q, u))
  }

  lemma SharePlus(g: seq<Follow>, p: Scores, t: real, q: Scores, u: Pubkey)
    requires u in Nodes(g)
    ensures Share(g, Plus(Nodes(g), p, t, q), u) == Share(g, p, u) + Scaled(t, Share(g, q, u))
  {
    var k := |OutLinks(g, u)|;
    if k > 0 {
      QuotientPlus(At(p, u), t, At(q, u), k as real);
    }
  }

  lemma QuotientPlus(a: real, t: real, b: real, r: real)
    requires r > 0.0
    ensures (a + Scaled(t, b)) / r == a / r + Scaled(t, b / r)
  {
    assert (t * b) / r == t * (b / r);
  }

  lemma ScaledAdds(t: real, x: real, y: real)
    ensures Scaled(t, x) + Scaled(t, y) == Scaled(t, x + y)
    ensures Damped(Scaled(t, x)) == Scaled(t, Damped(x))
  {}

  /** What reaches a pubkey is linear in the shares. */
  lemma {:induction false} InflowPlus(g: seq<Follow>, v: Pubkey, a: Pubkey -> real, t: real, b: Pubkey -> real,
                                      c: Pubkey -> real)
    requires forall u | u in Nodes(g) :: c(u) == a(u) + Scaled(t, b(u))
    ensures Inflow(g, v, c) == Inflow(g, v, a) + Scaled(t, Inflow(g, v, b))
  {
    hide Scaled;
    if g == [] {
      ScaledZero(t);
    } else {
      var init, last := g[..|g| - 1], g[|g| - 1];
      InflowPlus(init, v, a, t, b, c);
      assert last.follower in Nodes(g);
      ScaledAdds(t, Inflow(init, v, b), if last.followee == v then b(last.follower) else 0.0);
    }
  }

  lemma ScaledZero(t: real)
    ensures Scaled(t, 0.0) == 0.0
  {}

  lemma InflowOfPlus(g: seq<Follow>, p: Scores, t: real, q: Scores, v: Pubkey)
    ensures Damped(Inflow(g, v, Shares(g, Plus(Nodes(g), p, t, q))))
         == Damped(Inflow(g, v, Shares(g, p))) + Scaled(t, Damped(Inflow(g, v, Shares(g, q))))
  {
    hide Scaled, Inflow, Nodes, Share, Plus;
    var a, b, c := Shares(g, p), Shares(g, q), Shares(g, Plus(Nodes(g), p, t, q));
    forall u | u in Nodes(g)
      ensures c(u) == a(u) + Scaled(t, b(u))
    {
      SharePlus(g, p, t, q, u);
    }
    InflowPlus(g, v, a, t, b, c);
    ScaledAdds(t, Inflow(g, v, b), 0.0);
  }

  // ---------- the homogeneous equations have no other solution than zero ----------

  function Zero(): Scores {
    map[]
  }

  lemma {:induction false} NothingFlows(g: seq<Follow>, v: Pubkey, share: Pubkey -> real)
    requires forall u :: share(u) == 0.0
    ensures Inflow(g, v, share) == 0.0
  {
    if g != [] {
      NothingFlows(g[..|g| - 1], v, share);
    }
  }

  lemma ZeroSharesNothing(g: seq<Follow>, u: Pubkey)
    ensures Share(g, Zero(), u) == 0.0
  {
    var k := |OutLinks(g, u)|;
    if k > 0 {
      assert 0.0 / k as real == 0.0;
    }
  }

  /** A round moves a vector from zero by no more than its inflows. */
  lemma RoundFromZero(g: seq<Follow>, q: Scores, v: Pubkey)
    requires g != [] && v in Nodes(g)
    ensures At(Round(g, q), v) - At(Round(g, Zero()), v) == Damped(Inflow(g, v, Shares(g, q)))
  {
    hide Inflow, RandomJump, Share, Nodes;
    forall u
      ensures Shares(g, Zero())(u) == 0.0
    {
      ZeroSharesNothing(g, u);
    }
    NothingFlows(g, v, Shares(g, Zero()));
  }

  lemma HomogeneousIsZero(g: seq<Follow>, s: set<Pubkey>, q: Scores, v: Pubkey)
    requires g != [] && s <= Nodes(g) && v in Nodes(g)
    requires Solves(g, 0.0, s, Zero(), q)
    ensures q[v] == 0.0
  {
    hide Inflow, Nodes, Shares, Round, NewScore;
    var n := Nodes(g);
    Contraction(g, q, Zero());
    forall u | u in n
      ensures Apart(q, Zero())(u) <= Apart(Round(g, q), Round(g, Zero()))(u)
    {
      RoundFromZero(g, q, u);
      assert u in s ==> Balanced(g, 0.0, q, u);
    }
    SumMono(n, Apart(q, Zero()), Apart(Round(g, q), Round(g, Zero())));
    SumNonNegative(n, Apart(q, Zero()));
    TermAtMostSum(n, Apart(q, Zero()), v);
  }

  // ---------- elimination ----------

  lemma OneUnknown(k: real, c: real) returns (t: real)
    requires k != 1.0
    ensures t == c + Scaled(t, k)
  {
    t := c / (1.0 - k);
    assert t * (1.0 - k) == c;
    assert t * (1.0 - k) == t - t * k;
  }

  /** Adding the right multiple of the homogeneous solution solves one more equation. */
  lemma AddEquation(g: seq<Follow>, b: real, s: set<Pubkey>, v: Pubkey, y: Scores, p: Scores, q: Scores)
    returns (x: Scores)
    requires g != [] && s <= Nodes(g) && v in s
    requires Solves(g, b, s - {v}, y[v := 0.0], p)
    requires Solves(g, 0.0, s - {v}, map[v := 1.0], q)
    ensures Solves(g, b, s, y, x)
  {
    hide Inflow, Nodes, Shares, Scaled;
    var n := Nodes(g);
    var c, k := b + Damped(Inflow(g, v, Shares(g, p))), Damped(Inflow(g, v, Shares(g, q)));
    if k == 1.0 {
      assert Balanced(g, 0.0, q, v);
      assert Solves(g, 0.0, s, Zero(), q);
      HomogeneousIsZero(g, s, q, v);
      assert false;
    }
    var t := OneUnknown(k, c);
    x := Plus(n, p, t, q);
    ScaledUnits(t);
    forall w | w in s
      ensures Balanced(g, b, x, w)
    {
      InflowOfPlus(g, p, t, q, w);
      assert w != v ==> Balanced(g, b, p, w) && Balanced(g, 0.0, q, w);
    }
  }

  lemma ScaledUnits(t: real)
    ensures Scaled(t, 0.0) == 0.0 && Scaled(t, 1.0) == t
  {}

  lemma {:induction false} Solvable(g: seq<Follow>, b: real, s: set<Pubkey>, y: Scores) returns (x: Scores)
    requires g != [] && s <= Nodes(g)
    ensures Solves(g, b, s, y, x)
    decreases |s|
  {
    if s == {} {
      x := map u | u in Nodes(g) :: At(y, u);
    } else {
      var v :| v in s;
      var p := Solvable(g, b, s - {v}, y[v := 0.0]);
      var q := Solvable(g, 0.0, s - {v}, map[v := 1.0]);
      x := AddEquation(g, b, s, v, y, p, q);
    }
  }

  /** Every follow graph has scores that a round leaves as they are. */
  lemma FixedPointExists(g: seq<Follow>) returns (fixed: Scores)
    requires g != []
    ensures Round(g, fixed) == fixed
  {
    hide Inflow, Nodes, Shares, RandomJump;
    fixed := Solvable(g, RandomJump(g), Nodes(g), Zero());
    forall v | v in Nodes(g)
      ensures Round(g, fixed)[v] == fixed[v]
    {
      assert Balanced(g, RandomJump(g), fixed, v);
    }
  }

  /** The ranking itself: there is exactly one vector that a round leaves as it is. */
  ghost predicate IsRanking(g: seq<Follow>, ranking: Scores)
    requires g != []
  {
    Round(g, ranking) == ranking && forall other | Round(g, other) == other :: other == ranking
  }

  /**
    * For every graph and every set of roots: there is exactly one ranking, and the scores at the exit of the loop are
    * within 17/3 of the threshold per node of it.
    */
  lemma ExitIsNearTheRanking(g: seq<Follow>, s: Scores) returns (ranking: Scores)
    requires g != [] && Settled(Nodes(g), Round(g, s), s)
    ensures IsRanking(g, ranking)
    ensures 3.0 * Distance(Nodes(g), Round(g, s), ranking) <= 17.0 * (0.000001 * |Nodes(g)| as real)
  {
    hide Nodes, Round, Settled, Distance;
    ranking := FixedPointExists(g);
    forall other | Round(g, other) == other
      ensures other == ranking
    {
      FixedPointsAreUnique(g, other, ranking);
    }
    NearEveryFixedPoint(g, s, ranking);
  }
}
