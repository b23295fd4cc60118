/** What the ranks and their thresholds make of a follow graph: who is above whom, and stars of any size. */
module TrustLevels {
  import opened Options
  import opened PageRank
  import opened RankConvergence
  import opened PageRankCalculator

  // ---------- a higher score never lowers trust ----------

  /** The number the program gives a level; less is more trusted. */
  function LevelNumber(level: TrustLevel): nat {
    match level
    case Owner => 0
    case Followed => 1
    case FollowedByFollowed => 2
    case Unknown => 3
  }

  /** What each level asks for; a higher score never lowers trust. */
  lemma HigherScoresTrustMore(roots: set<Pubkey>, scores: Scores, u: Pubkey, v: Pubkey)
    requires u !in roots && At(scores, u) <= At(scores, v)
    ensures TrustLevelOf(roots, scores, u) == Followed <==> 0.001 <= At(scores, u)
    ensures TrustLevelOf(roots, scores, u) == FollowedByFollowed <==> 0.0001 <= At(scores, u) < 0.001
    ensures LevelNumber(TrustLevelOf(roots, scores, v)) <= LevelNumber(TrustLevelOf(roots, scores, u))
  {}

  // ---------- score flows from follower to followee ----------

  predicate IsFollowed(g: seq<Follow>, v: Pubkey) {
    exists i :: 0 <= i < |g| && g[i].followee == v
  }

  lemma {:induction false} FlowReachesTheFollowed(g: seq<Follow>, v: Pubkey, share: Pubkey -> real)
    requires forall i | 0 <= i < |g| :: 0.0 < share(g[i].follower)
    ensures 0.0 <= Inflow(g, v, share)
    ensures 0.0 < Inflow(g, v, share) <==> IsFollowed(g, v)
  {
    if g != [] {
      var init, last := g[..|g| - 1], g[|g| - 1];
      FlowReachesTheFollowed(init, v, share);
      if IsFollowed(init, v) {
        var i :| 0 <= i < |init| && init[i].followee == v;
        assert g[i].followee == v;
      }
    }
  }

  lemma {:induction false} FollowersFollowSomebody(g: seq<Follow>, i: nat)
    requires i < |g|
    ensures |OutLinks(g, g[i].follower)| > 0
  {
    if i < |g| - 1 {
      FollowersFollowSomebody(g[..|g| - 1], i);
    }
  }

  lemma {:induction false} FollowIsInNodes(g: seq<Follow>, i: nat)
    requires i < |g|
    ensures g[i].follower in Nodes(g) && g[i].followee in Nodes(g)
  {
    if i < |g| - 1 {
      FollowIsInNodes(g[..|g| - 1], i);
    }
  }

  /** After a round over positive scores a pubkey nobody follows has just the random jump, and everybody else more. */
  lemma RoundLiftsTheFollowed(g: seq<Follow>, s: Scores, v: Pubkey)
    requires g != [] && v in Nodes(g) && forall u | u in Nodes(g) :: 0.0 < At(s, u)
    ensures v in Round(g, s) && RandomJump(g) <= Round(g, s)[v]
    ensures RandomJump(g) < Round(g, s)[v] <==> IsFollowed(g, v)
  {
    hide OutLinks, Nodes, RandomJump, Inflow, IsFollowed;
    forall i | 0 <= i < |g|
      ensures 0.0 < Shares(g, s)(g[i].follower)
    {
      FollowersFollowSomebody(g, i);
      FollowIsInNodes(g, i);
    }
    FlowReachesTheFollowed(g, v, Shares(g, s));
  }

  lemma StartIsPositive(g: seq<Follow>, roots: set<Pubkey>, boost: real)
    requires g != [] && 0.0 < boost
    ensures forall u | u in Nodes(g) :: 0.0 < At(InitialScores(g, roots, boost), u)
  {
    hide Nodes;
    NodesNonempty(g);
    assert 0.0 < EqualPart(|Nodes(g)|);
  }

  lemma IterateLiftsTheFollowed(g: seq<Follow>, roots: set<Pubkey>, boost: real, k: nat, v: Pubkey)
    requires g != [] && 0.0 < boost && k > 0 && v in Nodes(g)
    ensures var s := Iterate(g, InitialScores(g, roots, boost), k);
            v in s && RandomJump(g) <= s[v] && (RandomJump(g) < s[v] <==> IsFollowed(g, v))
  {
    hide Nodes, Round, RandomJump, InitialScores, IsFollowed;
    var before := Iterate(g, InitialScores(g, roots, boost), k - 1);
    IterateIsPositive(g, roots, boost, k - 1);
    StartIsPositive(g, roots, boost);
    RoundLiftsTheFollowed(g, before, v);
  }

  /**
    * In every graph the published scores put those whom nobody follows last, all of them level, and everybody who is
    * followed strictly above them.
    */
  lemma UnfollowedRankLowest(g: seq<Follow>, roots: set<Pubkey>, boost: real, r: Scores, u: Pubkey, v: Pubkey)
    requires g != [] && 0.0 < boost && Published(g, roots, boost, r)
    requires u in Nodes(g) && v in Nodes(g) && !IsFollowed(g, u)
    ensures u in r && v in r && r[u] <= r[v]
    ensures r[u] < r[v] <==> IsFollowed(g, v)
  {
    hide *;
    var k, m := PublishedFrom(g, roots, boost, r);
    ExitIsPositive(g, InitialScores(g, roots, boost), k);
    IterateLiftsTheFollowed(g, roots, boost, k, u);
    IterateLiftsTheFollowed(g, roots, boost, k, v);
    ScalingKeepsOrder(Iterate(g, InitialScores(g, roots, boost), k), m, r, u, v);
  }

  lemma ScalingKeepsOrder(s: Scores, m: real, r: Scores, u: Pubkey, v: Pubkey)
    requires m > 0.0 && u in s && v in s && ScaledBy(s, m, r)
    ensures u in r && v in r && (r[u] < r[v] <==> s[u] < s[v]) && (r[u] == r[v] <==> s[u] == s[v])
  {
    assert r[u] * m == s[u] && r[v] * m == s[v];
  }

  /** So whoever is followed is never trusted less than somebody nobody follows. */
  lemma FollowersNeverHurt(g: seq<Follow>, roots: set<Pubkey>, boost: real, r: Scores, u: Pubkey, v: Pubkey)
    requires g != [] && 0.0 < boost && Published(g, roots, boost, r)
    requires u in Nodes(g) && v in Nodes(g) && !IsFollowed(g, u) && u !in roots
    ensures LevelNumber(TrustLevelOf(roots, r, v)) <= LevelNumber(TrustLevelOf(roots, r, u))
  {
    hide Nodes, Published, IsFollowed;
    UnfollowedRankLowest(g, roots, boost, r, u, v);
    HigherScoresTrustMore(roots, r, u, v);
  }

  // ---------- stars ----------

  /** Distinct pubkeys that each follow the hub once and nobody else. */
  ghost predicate IsStar(g: seq<Follow>, hub: Pubkey) {
    && (forall i | 0 <= i < |g| :: g[i].followee == hub && g[i].follower != hub)
    && (forall i, j | 0 <= i < j < |g| :: g[i].follower != g[j].follower)
  }

  predicate IsLeaf(g: seq<Follow>, v: Pubkey) {
    exists i :: 0 <= i < |g| && g[i].follower == v
  }

  lemma InitIsStar(g: seq<Follow>, hub: Pubkey)
    requires IsStar(g, hub) && g != []
    ensures var init, last := g[..|g| - 1], g[|g| - 1];
            && IsStar(init, hub) && last.followee == hub && last.follower != hub && !IsLeaf(init, last.follower)
            && forall v :: IsLeaf(g, v) <==> IsLeaf(init, v) || v == last.follower
  {
    var init, last := g[..|g| - 1], g[|g| - 1];
    forall v
      ensures IsLeaf(g, v) <==> IsLeaf(init, v) || v == last.follower
    {
      if IsLeaf(init, v) {
        var i :| 0 <= i < |init| && init[i].follower == v;
        assert g[i].follower == v;
      }
    }
  }

  lemma {:induction false} StarNodes(g: seq<Follow>, hub: Pubkey)
    requires IsStar(g, hub) && g != []
    ensures |Nodes(g)| == |g| + 1 && forall v :: v in Nodes(g) <==> v == hub || IsLeaf(g, v)
  {
    hide IsStar, IsLeaf;
    InitIsStar(g, hub);
    var init, last := g[..|g| - 1], g[|g| - 1];
    if init == [] {
      OneFollow(g);
    } else {
      StarNodes(init, hub);
      assert Nodes(g) == Nodes(init) + {last.follower};
    }
  }

  lemma OneFollow(g: seq<Follow>)
    requires |g| == 1 && g[0].follower != g[0].followee
    ensures |Nodes(g)| == 2
    ensures forall v :: v in Nodes(g) <==> v == g[0].followee || IsLeaf(g, v)
  {
    assert g[..0] == [];
    assert Nodes(g) == {g[0].follower, g[0].followee};
    assert forall v :: IsLeaf(g, v) <==> v == g[0].follower;
  }

  lemma {:induction false} StarDegrees(g: seq<Follow>, hub: Pubkey, u: Pubkey)
    requires IsStar(g, hub)
    ensures |OutLinks(g, u)| == if IsLeaf(g, u) then 1 else 0
    ensures IsLeaf(g, u) ==> u != hub
  {
    hide IsStar, IsLeaf;
    if g == [] {
      NoLeaves(u);
    } else {
      InitIsStar(g, hub);
      StarDegrees(g[..|g| - 1], hub, u);
    }
  }

  lemma NoLeaves(u: Pubkey)
    ensures !IsLeaf([], u)
  {}

  /** Nothing reaches a leaf, and the hub gets one share from every leaf. */
  lemma {:induction false} StarFlow(g: seq<Follow>, hub: Pubkey, v: Pubkey, share: Pubkey -> real, c: real)
    requires IsStar(g, hub) && forall u | IsLeaf(g, u) :: c <= share(u)
    ensures v != hub ==> Inflow(g, v, share) == 0.0
    ensures |g| as real * c <= Inflow(g, hub, share)
    ensures (forall u | IsLeaf(g, u) :: share(u) == c) ==> Inflow(g, hub, share) == |g| as real * c
  {
    hide IsStar, IsLeaf;
    if g != [] {
      InitIsStar(g, hub);
      var init := g[..|g| - 1];
      StarFlow(init, hub, v, share, c);
      assert |g| as real * c == |init| as real * c + c;
    }
  }

  /** One round: every leaf falls to the random jump, the hub collects what the leaves had. */
  lemma StarRound(g: seq<Follow>, hub: Pubkey, s: Scores, c: real)
    requires g != [] && IsStar(g, hub) && forall u | IsLeaf(g, u) :: c <= At(s, u)
    ensures var t := Round(g, s);
            && (forall u | IsLeaf(g, u) :: At(t, u) == RandomJump(g))
            && RandomJump(g) + Damped(|g| as real * c) <= At(t, hub)
            && ((forall u | IsLeaf(g, u) :: At(s, u) == c) ==>
                  At(t, hub) == RandomJump(g) + Damped(|g| as real * c))
  {
    hide IsStar, IsLeaf, Nodes, RandomJump, OutLinks, Inflow;
    StarNodes(g, hub);
    forall u | IsLeaf(g, u)
      ensures u != hub && Shares(g, s)(u) == At(s, u)
    {
      StarDegrees(g, hub, u);
    }
    forall u | IsLeaf(g, u)
      ensures At(Round(g, s), u) == RandomJump(g)
    {
      StarFlow(g, hub, u, Shares(g, s), c);
    }
    StarFlow(g, hub, hub, Shares(g, s), c);
  }

  /** The scores of a star from the second round on, whatever the roots and their boost. */
  function StarScore(g: seq<Follow>, hub: Pubkey, v: Pubkey): real
    requires g != []
  {
    if v == hub then RandomJump(g) + Damped(|g| as real * RandomJump(g)) else RandomJump(g)
  }

  lemma {:induction false} StarSettles(g: seq<Follow>, hub: Pubkey, s0: Scores, k: nat)
    requires g != [] && IsStar(g, hub) && k >= 1 && forall u | IsLeaf(g, u) :: 0.0 <= At(s0, u)
    ensures forall u | IsLeaf(g, u) :: At(Iterate(g, s0, k), u) == RandomJump(g)
    ensures k >= 2 ==> At(Iterate(g, s0, k), hub) == StarScore(g, hub, hub)
    ensures Iterate(g, s0, k).Keys == Nodes(g)
  {
    hide IsStar, IsLeaf, Nodes, RandomJump, Round;
    RoundKeys(g, Iterate(g, s0, k - 1));
    if k == 1 {
      StarRound(g, hub, s0, 0.0);
    } else {
      StarSettles(g, hub, s0, k - 1);
      StarRound(g, hub, Iterate(g, s0, k - 1), RandomJump(g));
    }
  }

  lemma RoundKeys(g: seq<Follow>, s: Scores)
    requires g != []
    ensures Round(g, s).Keys == Nodes(g)
  {}

  lemma StartShape(g: seq<Follow>, roots: set<Pubkey>, boost: real, v: Pubkey)
    requires g != [] && 1.0 <= boost <= 5.0 && v in Nodes(g)
    ensures var part := 1.0 / |Nodes(g)| as real;
            0.0 < part <= At(InitialScores(g, roots, boost), v) <= 5.0 * part
  {
    hide Nodes;
    var part := 1.0 / |Nodes(g)| as real;
    assert part * (boost - 1.0) >= 0.0 && part * (5.0 - boost) >= 0.0;
  }

  /** The first round moves the hub of a star of ten or more too far for the loop to end there. */
  lemma FirstRoundMovesTheHub(g: seq<Follow>, hub: Pubkey, roots: set<Pubkey>, boost: real)
    requires |g| >= 9 && IsStar(g, hub) && 1.0 <= boost <= 5.0
    ensures var s0 := InitialScores(g, roots, boost);
            !Settled(Nodes(g), Iterate(g, s0, 1), Iterate(g, s0, 0))
  {
    hide *;
    var s0 := InitialScores(g, roots, boost);
    StarNodes(g, hub);
    var part := 1.0 / |Nodes(g)| as real;
    StartShape(g, roots, boost, hub);
    forall u | IsLeaf(g, u)
      ensures part <= At(s0, u)
    {
      StartShape(g, roots, boost, u);
    }
    OneRound(g, s0);
    HubMoves(g, hub, s0, part);
  }

  lemma HubMoves(g: seq<Follow>, hub: Pubkey, s0: Scores, part: real)
    requires |g| >= 9 && IsStar(g, hub) && hub in Nodes(g)
    requires (|g| as real + 1.0) * part == 1.0 && At(s0, hub) <= 5.0 * part
    requires forall u | IsLeaf(g, u) :: part <= At(s0, u)
    ensures !Settled(Nodes(g), Round(g, s0), s0)
  {
    hide IsStar, IsLeaf, Nodes, RandomJump, Round, Settled, Damped;
    StarRound(g, hub, s0, part);
    JumpIsPositive(g);
    PartsOfOne(|g| as real, part);
    MovedTooFar(Nodes(g), Round(g, s0), s0, hub);
  }

  lemma MovedTooFar(n: set<Pubkey>, s: Scores, t: Scores, v: Pubkey)
    requires v in n && At(s, v) - At(t, v) >= CONVERGENCE_EPS
    ensures !Settled(n, s, t)
  {}

  lemma OneRound(g: seq<Follow>, s0: Scores)
    requires g != []
    ensures Iterate(g, s0, 0) == s0 && Iterate(g, s0, 1) == Round(g, s0)
  {}

  lemma PartsOfOne(leaves: real, part: real)
    requires leaves >= 9.0 && (leaves + 1.0) * part == 1.0
    ensures Damped(leaves * part) - 5.0 * part > CONVERGENCE_EPS
  {
    assert leaves * part == 1.0 - part;
    assert (leaves - 9.0) * part >= 0.0;
  }

  /** A star of ten or more leaves the loop after its second or third round, with the settled scores. */
  lemma StarExits(g: seq<Follow>, hub: Pubkey, roots: set<Pubkey>, boost: real, k: nat, v: Pubkey)
    requires |g| >= 9 && IsStar(g, hub) && 1.0 <= boost <= 5.0
    requires ExitsAfter(g, InitialScores(g, roots, boost), k) && v in Nodes(g)
    ensures 2 <= k <= 3
    ensures At(Iterate(g, InitialScores(g, roots, boost), k), v) == StarScore(g, hub, v)
  {
    hide IsStar, IsLeaf, Nodes, RandomJump, InitialScores, Round, Settled, Iterate, StarScore;
    var s0 := InitialScores(g, roots, boost);
    FirstRoundMovesTheHub(g, hub, roots, boost);
    InitialMass(g, roots, boost);
    StarNodes(g, hub);
    StarSettles(g, hub, s0, 2);
    StarSettles(g, hub, s0, 3);
    SameScoresSettle(Nodes(g), Iterate(g, s0, 3), Iterate(g, s0, 2), hub, g);
    StarSettles(g, hub, s0, k);
    LeafScore(g, hub, v);
  }

  lemma LeafScore(g: seq<Follow>, hub: Pubkey, v: Pubkey)
    requires g != []
    ensures v != hub ==> StarScore(g, hub, v) == RandomJump(g)
  {}

  lemma SameScoresSettle(n: set<Pubkey>, s: Scores, t: Scores, hub: Pubkey, g: seq<Follow>)
    requires forall v | v in n :: v == hub || IsLeaf(g, v)
    requires At(s, hub) == At(t, hub) && forall u | IsLeaf(g, u) :: At(s, u) == At(t, u)
    ensures Settled(n, s, t)
  {
    hide IsLeaf;
  }

  /** What the star publishes: the hub gets 1, every leaf one part in 1 + 0.85 * leaves. */
  lemma StarPublished(g: seq<Follow>, hub: Pubkey, roots: set<Pubkey>, boost: real, r: Scores, v: Pubkey)
    requires |g| >= 9 && IsStar(g, hub) && 1.0 <= boost <= 5.0 && Published(g, roots, boost, r)
    ensures v in r <==> v == hub || IsLeaf(g, v)
    ensures v == hub ==> r[v] == 1.0
    ensures v != hub && v in r ==> r[v] * (1.0 + 0.85 * |g| as real) == 1.0
  {
    hide *;
    StarNodes(g, hub);
    PublishedScores(g, roots, boost, r);
    if v in r {
      var k, m := PublishedFrom(g, roots, boost, r);
      StarScaled(g, hub, roots, boost, k, m, r, v);
    }
  }

  lemma StarScaled(g: seq<Follow>, hub: Pubkey, roots: set<Pubkey>, boost: real, k: nat, m: real, r: Scores, v: Pubkey)
    requires |g| >= 9 && IsStar(g, hub) && 1.0 <= boost <= 5.0 && v in Nodes(g)
    requires ExitsAfter(g, InitialScores(g, roots, boost), k)
    requires m > 0.0 && IsMaximum(Iterate(g, InitialScores(g, roots, boost), k), m)
    requires ScaledBy(Iterate(g, InitialScores(g, roots, boost), k), m, r)
    ensures v in r
    ensures v == hub ==> r[v] == 1.0
    ensures v != hub ==> r[v] * (1.0 + 0.85 * |g| as real) == 1.0
  {
    hide Nodes, Iterate, InitialScores, IsStar, IsLeaf, RandomJump, StarScore, ExitsAfter, IsMaximum, ScaledBy, Mass;
    var s := Iterate(g, InitialScores(g, roots, boost), k);
    StarNodes(g, hub);
    forall u | u in Nodes(g)
      ensures At(s, u) == StarScore(g, hub, u)
    {
      StarExits(g, hub, roots, boost, k, u);
    }
    InitialMass(g, roots, boost);
    StarExits(g, hub, roots, boost, k, v);
    StarSettles(g, hub, InitialScores(g, roots, boost), k);
    JumpIsPositive(g);
    HubIsTheMaximum(g, hub, s, m);
    ScaledAt(s, m, r, v);
    LeafShare(RandomJump(g), |g| as real, m, r[v]);
  }

  lemma HubIsTheMaximum(g: seq<Follow>, hub: Pubkey, s: Scores, m: real)
    requires g != [] && 0.0 < RandomJump(g) && s.Keys == Nodes(g) && hub in s && IsMaximum(s, m)
    requires forall u | u in Nodes(g) :: At(s, u) == StarScore(g, hub, u)
    ensures m == RandomJump(g) + Damped(|g| as real * RandomJump(g)) > RandomJump(g)
    ensures s[hub] == m && forall u | u in s && u != hub :: s[u] == RandomJump(g)
  {
    hide Nodes, RandomJump;
    assert |g| as real * RandomJump(g) > 0.0;
    assert forall u | u in s :: s[u] == At(s, u);
  }

  lemma LeafShare(jump: real, leaves: real, m: real, q: real)
    requires 0.0 < jump && 0.0 <= leaves && m == jump + Damped(leaves * jump) && m > 0.0
    ensures m / m == 1.0
    ensures q == jump / m ==> q * (1.0 + 0.85 * leaves) == 1.0
  {
    if q == jump / m {
      var d := 1.0 + 0.85 * leaves;
      assert q * m == jump;
      assert m == d * jump by { assert 0.85 * (leaves * jump) == (0.85 * leaves) * jump; }
      assert (q * d - 1.0) * jump == q * (d * jump) - jump == 0.0;
    }
  }

  lemma LeafLevel(leaves: nat, x: real)
    requires x * (1.0 + 0.85 * leaves as real) == 1.0
    ensures x > 0.0
    ensures 0.001 <= x <==> leaves <= 1175
    ensures 0.0001 <= x <==> leaves <= 11763
  {
    AtLeastPart(1.0 + 0.85 * leaves as real, x, 1000.0);
    AtLeastPart(1.0 + 0.85 * leaves as real, x, 10000.0);
  }

  lemma AtLeastPart(d: real, x: real, k: real)
    requires d > 0.0 && k > 0.0 && x * d == 1.0
    ensures x > 0.0 && (1.0 / k <= x <==> d <= k)
  {
    var y := 1.0 / k;
    assert y * k == 1.0 && y > 0.0;
    assert (x - y) * (d * k) == (x * d) * k - (y * k) * d == k - d;
  }

  /**
    * The levels of a star of any size from ten pubkeys on, whoever the trust roots are: the hub ranks as followed; a
    * leaf, whom nobody follows, ranks as followed too up to 1176 pubkeys, then as followed by the followed up to 11764,
    * and is unknown beyond; and whoever is not in the star is unknown.
    */
  lemma StarLevels(g: seq<Follow>, hub: Pubkey, roots: set<Pubkey>, boost: real, r: Scores, v: Pubkey)
    requires |g| + 1 >= 10 && IsStar(g, hub) && 1.0 <= boost <= 5.0 && Published(g, roots, boost, r) && v !in roots
    ensures v == hub ==> TrustLevelOf(roots, r, v) == Followed
    ensures IsLeaf(g, v) ==>
              TrustLevelOf(roots, r, v) == if |g| + 1 <= 1176 then Followed
                                           else if |g| + 1 <= 11764 then FollowedByFollowed else Unknown
    ensures v != hub && !IsLeaf(g, v) ==> TrustLevelOf(roots, r, v) == Unknown
  {
    hide IsStar, IsLeaf, Published;
    StarPublished(g, hub, roots, boost, r, v);
    StarDegrees(g, hub, v);
    if v in r && v != hub {
      LeafLevel(|g|, r[v]);
    }
  }

  /** The same through the calculator: it ranks a star and answers for one pubkey; a star below ten is not ranked. */
  method RankStar(g: seq<Follow>, hub: Pubkey, roots: set<Pubkey>, boost: real, v: Pubkey) returns (level: TrustLevel)
    requires IsStar(g, hub) && g != [] && 1.0 <= boost <= 5.0
    ensures level == if v in roots then Owner
                     else if |g| + 1 < 10 || (v != hub && !IsLeaf(g, v)) then Unknown
                     else if v == hub || |g| + 1 <= 1176 then Followed
                     else if |g| + 1 <= 11764 then FollowedByFollowed
                     else Unknown
  {
    hide IsStar, IsLeaf, Published, Nodes;
    StarNodes(g, hub);
    var calculator := new PageRankCalculator(roots, boost);
    calculator.ComputePageRank(Some(g));
    if v !in roots && |g| + 1 >= 10 {
      StarLevels(g, hub, roots, boost, calculator.scores, v);
      StarDegrees(g, hub, v);
    }
    level := calculator.GetTrustLevelFromPageRank(v);
  }

  /** Stars of every size exist. */
  function StarOf(leaves: nat): seq<Follow> {
    seq(leaves, (i: nat) => Follow(seq(i + 1, _ => 'x'), ""))
  }

  lemma StarsExist(leaves: nat)
    ensures |StarOf(leaves)| == leaves && IsStar(StarOf(leaves), "")
  {
    forall i, j | 0 <= i < j < leaves
      ensures StarOf(leaves)[i].follower != StarOf(leaves)[j].follower
    {
      assert |StarOf(leaves)[i].follower| < |StarOf(leaves)[j].follower|;
    }
  }
}
