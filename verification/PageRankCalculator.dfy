/** The rank computation itself: link maps, rounds, stop test and normalisation, as nested loops over maps. */
module PageRankCalculator {
  import opened Options
  import opened Sums
  import opened PageRank
  import opened RankConvergence

  /** Reading a Go map of slices: a missing key reads as the empty slice. */
  function Links(m: map<Pubkey, seq<Pubkey>>, u: Pubkey): seq<Pubkey> {
    if u in m then m[u] else []
  }

  ghost predicate LinksOf(g: seq<Follow>, outLinks: map<Pubkey, seq<Pubkey>>, inLinks: map<Pubkey, seq<Pubkey>>) {
    forall u :: Links(outLinks, u) == OutLinks(g, u) && Links(inLinks, u) == InLinks(g, u)
  }

  /** k is the first round after which the stop test holds. */
  ghost predicate StopsAfter(g: seq<Follow>, s0: Scores, k: nat)
    requires g != []
  {
    && k > 0
    && Settled(Nodes(g), Iterate(g, s0, k), Iterate(g, s0, k - 1))
    && forall j | 0 < j < k :: !Settled(Nodes(g), Iterate(g, s0, j), Iterate(g, s0, j - 1))
  }

  ghost predicate IsMaximum(s: Scores, m: real) {
    (exists v :: v in s && s[v] == m) && forall v | v in s :: s[v] <= m
  }

  ghost predicate ScaledBy(s: Scores, m: real, r: Scores)
    requires m > 0.0
  {
    r.Keys == s.Keys && forall v | v in s :: r[v] == s[v] / m
  }

  /** k is the round after which the loop ends: the first that passes the test, or the last that the cap allows. */
  ghost predicate ExitsAfter(g: seq<Follow>, s0: Scores, k: nat)
    requires g != []
  {
    && 0 < k <= MAX_ITERATIONS
    && (k == MAX_ITERATIONS || Settled(Nodes(g), Iterate(g, s0, k), Iterate(g, s0, k - 1)))
    && forall j | 0 < j < k :: !Settled(Nodes(g), Iterate(g, s0, j), Iterate(g, s0, j - 1))
  }

  /** What one computation publishes: the scores of the round it ended with, divided by their maximum. */
  ghost predicate Published(g: seq<Follow>, roots: set<Pubkey>, boost: real, r: Scores)
    requires g != []
  {
    exists k: nat, m: real ::
      && ExitsAfter(g, InitialScores(g, roots, boost), k)
      && m > 0.0
      && IsMaximum(Iterate(g, InitialScores(g, roots, boost), k), m)
      && ScaledBy(Iterate(g, InitialScores(g, roots, boost), k), m, r)
  }

  /**
    * The cap never ends the loop: for every graph, every set of roots and every boost up to 5 the loop leaves through
    * its convergence test, and for boosts up to the configured 2 by round 97.
    */
  lemma CapNeverBinds(g: seq<Follow>, roots: set<Pubkey>, boost: real, k: nat)
    requires g != [] && 0.0 <= boost <= 5.0
    requires ExitsAfter(g, InitialScores(g, roots, boost), k)
    ensures StopsAfter(g, InitialScores(g, roots, boost), k)
    ensures boost <= OWNER_BOOST ==> k <= 97
  {
    hide Nodes, Iterate, InitialScores, Settled;
    SettlesBeforeTheCap(g, roots, boost);
  }

  /**
    * The trust roots and their boost only enter through the start vector, and the stop test washes that out: computed
    * for any two root sets and boosts, the unnormalised exit scores differ by at most 34/3 of the threshold per node.
    */
  lemma RootsBarelyMatter(g: seq<Follow>, roots: set<Pubkey>, boost: real, roots': set<Pubkey>, boost': real,
                          k: nat, k': nat)
    requires g != []
    requires StopsAfter(g, InitialScores(g, roots, boost), k) && StopsAfter(g, InitialScores(g, roots', boost'), k')
    ensures 3.0 * Distance(Nodes(g), Iterate(g, InitialScores(g, roots, boost), k),
                           Iterate(g, InitialScores(g, roots', boost'), k'))
         <= 34.0 * Slack(|Nodes(g)|)
  {
    hide Nodes, Round, InitialScores, Settled, Distance;
    AnyTwoExitsAgree(g, Iterate(g, InitialScores(g, roots, boost), k - 1),
                     Iterate(g, InitialScores(g, roots', boost'), k' - 1));
  }

  /**
    * The published ranking is as good as the limit: more rounds would move the exit scores by at most 17/3 of the
    * threshold per node.
    */
  lemma MoreRoundsBarelyMatter(g: seq<Follow>, roots: set<Pubkey>, boost: real, k: nat, m: nat)
    requires g != []
    requires StopsAfter(g, InitialScores(g, roots, boost), k)
    ensures 3.0 * Distance(Nodes(g), Iterate(g, InitialScores(g, roots, boost), k),
                           Iterate(g, InitialScores(g, roots, boost), k + m))
         <= 17.0 * Slack(|Nodes(g)|)
  {
    hide Nodes, Round, InitialScores, Settled, Distance;
    var s0 := InitialScores(g, roots, boost);
    NearEveryLaterRound(g, Iterate(g, s0, k - 1), m);
    IterateCompose(g, s0, k, m);
  }

  /** Every published score lies in (0, 1], every pubkey of the graph has one, and the best one is exactly 1. */
  lemma PublishedScores(g: seq<Follow>, roots: set<Pubkey>, boost: real, r: Scores)
    requires g != [] && 0.0 <= boost
    requires Published(g, roots, boost, r)
    ensures r.Keys == Nodes(g)
    ensures forall v | v in r :: 0.0 < r[v] <= 1.0
    ensures exists v :: v in r && r[v] == 1.0
  {
    hide Nodes, Round, InitialScores, Settled;
    var s0 := InitialScores(g, roots, boost);
    var k: nat, m: real :|
      && ExitsAfter(g, s0, k)
      && m > 0.0
      && IsMaximum(Iterate(g, s0, k), m)
      && ScaledBy(Iterate(g, s0, k), m, r);
    var s := Iterate(g, s0, k);
    IterateIsPositive(g, roots, boost, k);
    forall v | v in r ensures 0.0 < r[v] <= 1.0 && (s[v] == m ==> r[v] == 1.0) {
      QuotientInUnit(s[v], m);
    }
    var best :| best in s && s[best] == m;
    assert r[best] == 1.0;
  }

  lemma QuotientInUnit(x: real, m: real)
    requires 0.0 < x <= m
    ensures 0.0 < x / m <= 1.0 && (x == m ==> x / m == 1.0)
  {}

  // ---------- what the thresholds make of the scores ----------

  /** The most mass a vector can have after a round, and so the most that one pubkey can hold. */
  function MassAfterRound(boost: real): real {
    0.15 + Damped(Top(boost))
  }

  lemma {:induction false} IterateMass(g: seq<Follow>, roots: set<Pubkey>, boost: real, k: nat)
    requires g != [] && 0.0 <= boost && k > 0
    ensures Mass(Nodes(g), Iterate(g, InitialScores(g, roots, boost), k)) <= MassAfterRound(boost)
  {
    hide Nodes, Round, InitialScores, Mass, Dangling;
    var before := Iterate(g, InitialScores(g, roots, boost), k - 1);
    IterateIsPositive(g, roots, boost, k - 1);
    if k == 1 {
      InitialMass(g, roots, boost);
    } else {
      IterateMass(g, roots, boost, k - 1);
    }
    MassOfRound(g, before);
    DanglingIsSmall(g, before);
  }

  lemma OneScoreIsAtMostTheMass(n: set<Pubkey>, s: Scores, v: Pubkey)
    requires NonNegative(s) && v in n && v in s
    ensures s[v] <= Mass(n, s)
  {
    TermAtMostSum(n, Read(s), v);
  }

  lemma QuotientFloor(x: real, m: real, q: real, jump: real, top: real)
    requires 0.0 < jump <= x <= m <= top && q == x / m
    ensures jump <= q * top
  {
    assert q * m == x;
    assert q * (top - m) >= 0.0;
  }

  /**
    * The floor under every published score: whoever occurs in the graph, followed by somebody or not, gets at least the
    * random jump divided by the most mass there can be.
    */
  lemma PublishedFloor(g: seq<Follow>, roots: set<Pubkey>, boost: real, r: Scores, v: Pubkey)
    requires g != [] && 0.0 <= boost && Published(g, roots, boost, r) && v in Nodes(g)
    ensures v in r && RandomJump(g) <= r[v] * MassAfterRound(boost)
  {
    hide *;
    var k, m := PublishedFrom(g, roots, boost, r);
    ExitIsPositive(g, InitialScores(g, roots, boost), k);
    FloorOfRound(g, roots, boost, k, m, r, v);
  }

  lemma PublishedFrom(g: seq<Follow>, roots: set<Pubkey>, boost: real, r: Scores) returns (k: nat, m: real)
    requires g != [] && Published(g, roots, boost, r)
    ensures ExitsAfter(g, InitialScores(g, roots, boost), k)
    ensures m > 0.0 && IsMaximum(Iterate(g, InitialScores(g, roots, boost), k), m)
    ensures ScaledBy(Iterate(g, InitialScores(g, roots, boost), k), m, r)
  {
    hide Nodes, Iterate, InitialScores, ExitsAfter, IsMaximum, ScaledBy;
    k, m :|
      && ExitsAfter(g, InitialScores(g, roots, boost), k)
      && m > 0.0
      && IsMaximum(Iterate(g, InitialScores(g, roots, boost), k), m)
      && ScaledBy(Iterate(g, InitialScores(g, roots, boost), k), m, r);
  }

  lemma ExitIsPositive(g: seq<Follow>, s0: Scores, k: nat)
    requires g != [] && ExitsAfter(g, s0, k)
    ensures 0 < k
  {
    hide Iterate, Settled;
  }

  lemma FloorOfRound(g: seq<Follow>, roots: set<Pubkey>, boost: real, k: nat, m: real, r: Scores, v: Pubkey)
    requires g != [] && 0.0 <= boost && k > 0 && m > 0.0 && v in Nodes(g)
    requires IsMaximum(Iterate(g, InitialScores(g, roots, boost), k), m)
    requires ScaledBy(Iterate(g, InitialScores(g, roots, boost), k), m, r)
    ensures v in r && RandomJump(g) <= r[v] * MassAfterRound(boost)
  {
    hide Nodes, Iterate, InitialScores, MassAfterRound, RandomJump, Mass, ScaledBy, IsMaximum;
    var s := Iterate(g, InitialScores(g, roots, boost), k);
    ScoresAboveTheJump(g, roots, boost, k);
    IterateMass(g, roots, boost, k);
    MaximumIsAtMostTheMass(Nodes(g), s, m);
    JumpIsPositive(g);
    ScaledFloor(s, m, r, v, RandomJump(g), MassAfterRound(boost));
  }

  lemma MaximumIsAtMostTheMass(n: set<Pubkey>, s: Scores, m: real)
    requires NonNegative(s) && s.Keys == n && IsMaximum(s, m)
    ensures m <= Mass(n, s)
  {
    var best :| best in s && s[best] == m;
    OneScoreIsAtMostTheMass(n, s, best);
  }

  lemma ScaledFloor(s: Scores, m: real, r: Scores, v: Pubkey, jump: real, top: real)
    requires v in s && m > 0.0 && ScaledBy(s, m, r) && IsMaximum(s, m)
    requires 0.0 < jump <= s[v] && m <= top
    ensures v in r && jump <= r[v] * top
  {
    hide ScaledBy, IsMaximum;
    ScaledAt(s, m, r, v);
    QuotientFloor(s[v], m, r[v], jump, top);
  }

  lemma ScaledAt(s: Scores, m: real, r: Scores, v: Pubkey)
    requires v in s && m > 0.0 && ScaledBy(s, m, r) && IsMaximum(s, m)
    ensures v in r && r[v] == s[v] / m && s[v] <= m
  {}

  lemma ScoresAboveTheJump(g: seq<Follow>, roots: set<Pubkey>, boost: real, k: nat)
    requires g != [] && 0.0 <= boost && k > 0
    ensures var s := Iterate(g, InitialScores(g, roots, boost), k);
            s.Keys == Nodes(g) && NonNegative(s) && forall v | v in Nodes(g) :: RandomJump(g) <= s[v]
  {
    hide Nodes, Round, InitialScores, RandomJump;
    var before := Iterate(g, InitialScores(g, roots, boost), k - 1);
    IterateIsPositive(g, roots, boost, k - 1);
    RoundIsPositive(g, before);
    assert Iterate(g, InitialScores(g, roots, boost), k) == Round(g, before);
  }

  datatype TrustLevel = Owner | Followed | FollowedByFollowed | Unknown

  const FOLLOW_THRESHOLD: real := 0.001
  const FOLLOW_OF_FOLLOW_THRESHOLD: real := 0.0001

  function TrustLevelOf(roots: set<Pubkey>, scores: Scores, pubkey: Pubkey): TrustLevel {
    var score := At(scores, pubkey);
    if pubkey in roots then Owner
    else if score == 0.0 then Unknown
    else if score >= FOLLOW_THRESHOLD then Followed
    else if score >= FOLLOW_OF_FOLLOW_THRESHOLD then FollowedByFollowed
    else Unknown
  }

  lemma FloorOfSmallGraph(x: real, jump: real, n: nat)
    requires 0 < n <= 810 && 0.0 < jump && n as real * jump == 0.15 && jump <= x * 1.85
    ensures FOLLOW_OF_FOLLOW_THRESHOLD <= x
    ensures n <= 81 ==> FOLLOW_THRESHOLD <= x
  {
    assert (810 - n) as real * jump >= 0.0;
    assert n <= 81 ==> (81 - n) as real * jump >= 0.0;
  }

  /**
    * What the fixed thresholds do to small graphs, with the configured boost or a smaller one: in a graph of up to 810
    * pubkeys a pubkey is unknown only if it does not occur in it at all, and up to 81 everybody ranks as followed.
    */
  lemma SmallGraphsTrustEverybody(g: seq<Follow>, roots: set<Pubkey>, boost: real, r: Scores, v: Pubkey)
    requires g != [] && 0.0 <= boost <= OWNER_BOOST && Published(g, roots, boost, r)
    ensures |Nodes(g)| <= 810 ==> (TrustLevelOf(roots, r, v) == Unknown <==> v !in Nodes(g) && v !in roots)
    ensures |Nodes(g)| <= 81 && v in Nodes(g) && v !in roots ==> TrustLevelOf(roots, r, v) == Followed
  {
    hide Nodes, Published, RandomJump;
    PublishedScores(g, roots, boost, r);
    if v in Nodes(g) {
      PublishedFloor(g, roots, boost, r, v);
      BoostsUpToTwo(boost, r[v], RandomJump(g));
      NodesNonempty(g);
      JumpsAddUp(g);
      JumpIsPositive(g);
      if |Nodes(g)| <= 810 {
        FloorOfSmallGraph(r[v], RandomJump(g), |Nodes(g)|);
      }
    }
  }

  lemma BoostsUpToTwo(boost: real, x: real, jump: real)
    requires 0.0 <= boost <= OWNER_BOOST && 0.0 <= x && jump <= x * MassAfterRound(boost)
    ensures jump <= x * 1.85
  {
    assert x * (1.85 - MassAfterRound(boost)) >= 0.0;
  }

  lemma {:induction false} IterateIsPositive(g: seq<Follow>, roots: set<Pubkey>, boost: real, k: nat)
    requires g != [] && 0.0 <= boost
    ensures var s := Iterate(g, InitialScores(g, roots, boost), k);
            && s.Keys == Nodes(g)
            && NonNegative(s)
            && (k > 0 ==> forall v | v in s :: 0.0 < s[v])
  {
    hide Nodes, Round, InitialScores, Mass;
    if k == 0 {
      InitialMass(g, roots, boost);
    } else {
      IterateIsPositive(g, roots, boost, k - 1);
      RoundIsPositive(g, Iterate(g, InitialScores(g, roots, boost), k - 1));
    }
  }

  method BuildLinks(g: seq<Follow>)
    returns (nodes: set<Pubkey>, outLinks: map<Pubkey, seq<Pubkey>>, inLinks: map<Pubkey, seq<Pubkey>>)
    ensures nodes == Nodes(g)
    ensures LinksOf(g, outLinks, inLinks)
  {
    nodes, outLinks, inLinks := {}, map[], map[];
    for i := 0 to |g|
      invariant nodes == Nodes(g[..i])
      invariant LinksOf(g[..i], outLinks, inLinks)
    {
      var rel := g[i];
      assert g[..i + 1][..i] == g[..i];
      nodes := nodes + {rel.follower, rel.followee};
      outLinks := outLinks[rel.follower := Links(outLinks, rel.follower) + [rel.followee]];
      inLinks := inLinks[rel.followee := Links(inLinks, rel.followee) + [rel.follower]];
    }
    assert g[..|g|] == g;
  }

  method StartScores(ghost g: seq<Follow>, nodes: set<Pubkey>, roots: set<Pubkey>, boost: real) returns (scores: Scores)
    requires g != [] && nodes == Nodes(g) && nodes != {}
    ensures scores == InitialScores(g, roots, boost)
  {
    hide Nodes, EqualPart;
    var initialScore := EqualPart(|nodes|);
    scores := map[];
    var todo := nodes;
    while todo != {}
      invariant todo <= nodes
      invariant scores.Keys == nodes - todo
      invariant forall v | v in scores :: scores[v] == initialScore
      decreases todo
    {
      var node :| node in todo;
      scores := scores[node := initialScore];
      todo := todo - {node};
    }
    var rest := roots;
    while rest != {}
      invariant rest <= roots
      invariant scores.Keys == nodes
      invariant forall v | v in scores ::
        scores[v] == if v in roots - rest then Boosted(boost, initialScore) else initialScore
      decreases rest
    {
      var root :| root in rest;
      if root in nodes {
        scores := scores[root := Boosted(boost, scores[root])];
      }
      rest := rest - {root};
    }
  }

  ghost predicate LargestChange(newScores: Scores, scores: Scores, maxDiff: real) {
    && (forall v | v in newScores :: Abs(At(newScores, v) - At(scores, v)) <= maxDiff)
    && (maxDiff == 0.0 || exists v :: v in newScores && maxDiff == Abs(At(newScores, v) - At(scores, v)))
  }

  lemma ChangeGrows(old': Scores, scores: Scores, node: Pubkey, x: real, maxDiff: real)
    requires LargestChange(old', scores, maxDiff) && node !in old'
    ensures var diff := Abs(x - At(scores, node));
            LargestChange(old'[node := x], scores, if diff > maxDiff then diff else maxDiff)
  {
    var new' := old'[node := x];
    forall v | v in old' ensures At(new', v) == At(old', v) {}
    assert At(new', node) == x && node in new';
    if maxDiff != 0.0 {
      var v :| v in old' && maxDiff == Abs(At(old', v) - At(scores, v));
      assert v in new' && At(new', v) == At(old', v);
    }
  }

  lemma NothingChangedYet(scores: Scores)
    ensures LargestChange(map[], scores, 0.0)
  {}

  lemma StopTest(n: set<Pubkey>, newScores: Scores, scores: Scores, maxDiff: real)
    requires newScores.Keys == n && LargestChange(newScores, scores, maxDiff)
    ensures maxDiff < CONVERGENCE_EPS <==> Settled(n, newScores, scores)
  {}

  lemma RoundIsPointwise(g: seq<Follow>, scores: Scores, newScores: Scores)
    requires g != [] && newScores.Keys == Nodes(g)
    requires forall v | v in newScores :: newScores[v] == NewScore(g, scores, v)
    ensures newScores == Round(g, scores)
  {
    hide Nodes, NewScore;
  }

  /** One pass over the nodes: the new scores, and the largest change. */
  method RunRound(ghost g: seq<Follow>, nodes: set<Pubkey>, outLinks: map<Pubkey, seq<Pubkey>>,
                  inLinks: map<Pubkey, seq<Pubkey>>, scores: Scores)
    returns (newScores: Scores, maxDiff: real)
    requires g != [] && nodes == Nodes(g) && nodes != {} && LinksOf(g, outLinks, inLinks)
    requires scores.Keys == nodes
    ensures newScores == Round(g, scores)
    ensures maxDiff < CONVERGENCE_EPS <==> Settled(nodes, newScores, scores)
  {
    hide Nodes, JumpOf, NewScore, LargestChange, Settled, Round;
    newScores, maxDiff := map[], 0.0;
    NothingChangedYet(scores);
    var randomJump := JumpOf(|nodes|);
    var todo := nodes;
    while todo != {}
      invariant todo <= nodes
      invariant newScores.Keys == nodes - todo
      invariant forall v | v in newScores :: newScores[v] == NewScore(g, scores, v)
      invariant LargestChange(newScores, scores, maxDiff)
      decreases todo
    {
      var node :| node in todo;
      var score := ScoreNode(g, node, randomJump, outLinks, inLinks, scores);
      ChangeGrows(newScores, scores, node, score, maxDiff);
      newScores := newScores[node := score];
      var diff := Abs(newScores[node] - scores[node]);
      if diff > maxDiff {
        maxDiff := diff;
      }
      todo := todo - {node};
    }
    RoundIsPointwise(g, scores, newScores);
    StopTest(nodes, newScores, scores, maxDiff);
  }

  method ScoreNode(ghost g: seq<Follow>, node: Pubkey, randomJump: real, outLinks: map<Pubkey, seq<Pubkey>>,
                   inLinks: map<Pubkey, seq<Pubkey>>, scores: Scores)
    returns (score: real)
    requires g != [] && LinksOf(g, outLinks, inLinks)
    requires randomJump == RandomJump(g)
    ensures score == NewScore(g, scores, node)
  {
    hide Nodes, OutLinks, InLinks, RandomJump, Inflow, SumOver;
    InLinksCarryTheInflow(g, node, Shares(g, scores));
    var sum := SumOfShares(g, Links(inLinks, node), outLinks, inLinks, scores);
    score := randomJump + Damped(sum);
  }

  method SumOfShares(ghost g: seq<Follow>, linkers: seq<Pubkey>, outLinks: map<Pubkey, seq<Pubkey>>,
                     ghost inLinks: map<Pubkey, seq<Pubkey>>, scores: Scores)
    returns (sum: real)
    requires LinksOf(g, outLinks, inLinks)
    ensures sum == SumOver(linkers, Shares(g, scores))
  {
    hide OutLinks, InLinks;
    sum := 0.0;
    for i := 0 to |linkers|
      invariant sum == SumOver(linkers[..i], Shares(g, scores))
    {
      assert linkers[..i + 1][..i] == linkers[..i];
      var linker := linkers[i];
      var outDegree := |Links(outLinks, linker)|;
      if outDegree > 0 {
        sum := sum + At(scores, linker) / outDegree as real;
      }
    }
    assert linkers[..|linkers|] == linkers;
  }

  /** Divides every score by the largest one, in place. */
  method Normalise(s: Scores) returns (r: Scores, m: real)
    requires s != map[] && forall v | v in s :: 0.0 < s[v]
    ensures m > 0.0 && IsMaximum(s, m) && ScaledBy(s, m, r)
  {
    var maxScore := 0.0;
    var todo := s.Keys;
    while todo != {}
      invariant todo <= s.Keys
      invariant 0.0 <= maxScore
      invariant forall v | v in s && v !in todo :: s[v] <= maxScore
      invariant maxScore == 0.0 || exists v :: v in s && s[v] == maxScore
      decreases todo
    {
      var node :| node in todo;
      if s[node] > maxScore {
        maxScore := s[node];
      }
      todo := todo - {node};
    }
    m := maxScore;
    r := s;
    assert s.Keys != {} && maxScore > 0.0;
    todo := s.Keys;
    while todo != {}
      invariant todo <= s.Keys && r.Keys == s.Keys
      invariant forall v | v in s :: r[v] == if v in todo then s[v] else s[v] / maxScore
      decreases todo
    {
      var node :| node in todo;
      r := r[node := r[node] / maxScore];
      todo := todo - {node};
    }
  }

  class PageRankCalculator {
    const trustRoots: set<Pubkey>
    const ownerBoost: real
    var scores: Scores

    constructor (roots: set<Pubkey>, boost: real)
      ensures trustRoots == roots && ownerBoost == boost && scores == map[]
    {
      trustRoots, ownerBoost := roots, boost;
      scores := map[];
    }

    /** Recomputes the scores. A store error and a graph below ten pubkeys leave the last scores in place. */
    method ComputePageRank(graph: Option<seq<Follow>>)
      requires 0.0 <= ownerBoost
      modifies this
      ensures graph.None? || |Nodes(graph.value)| < MIN_PAGERANK_SIZE ==> scores == old(scores)
      ensures graph.Some? && |Nodes(graph.value)| >= MIN_PAGERANK_SIZE ==>
                graph.value != [] && Published(graph.value, trustRoots, ownerBoost, scores)
    {
      hide Round, InitialScores, Settled, OutLinks, InLinks;
      if graph.None? {
        return;
      }
      var g := graph.value;
      var nodes, outLinks, inLinks := BuildLinks(g);
      if |nodes| < MIN_PAGERANK_SIZE {
        return;
      }
      ghost var s0 := InitialScores(g, trustRoots, ownerBoost);
      var current := StartScores(g, nodes, trustRoots, ownerBoost);
      var iter := 0;
      IterateIsPositive(g, trustRoots, ownerBoost, 0);
      var converged := false;
      while iter < MAX_ITERATIONS && !converged
        invariant iter <= MAX_ITERATIONS
        invariant current == Iterate(g, s0, iter) && current.Keys == nodes
        invariant converged ==> ExitsAfter(g, s0, iter)
        invariant !converged ==> forall j | 0 < j <= iter :: !Settled(nodes, Iterate(g, s0, j), Iterate(g, s0, j - 1))
        decreases MAX_ITERATIONS - iter, !converged
      {
        var newScores, maxDiff := RunRound(g, nodes, outLinks, inLinks, current);
        current := newScores;
        converged := maxDiff < CONVERGENCE_EPS;
        iter := iter + 1;
        IterateIsPositive(g, trustRoots, ownerBoost, iter);
      }
      assert ExitsAfter(g, s0, iter);
      IterateIsPositive(g, trustRoots, ownerBoost, iter);
      assert nodes != {};
      var m;
      current, m := Normalise(current);
      scores := current;
    }

    /** The level of a pubkey, from the scores of the last computation. */
    method GetTrustLevelFromPageRank(pubkey: Pubkey) returns (level: TrustLevel)
      ensures level == TrustLevelOf(trustRoots, scores, pubkey)
    {
      if pubkey in trustRoots {
        return Owner;
      }
      var score := if pubkey in scores then scores[pubkey] else 0.0;
      if score == 0.0 {
        return Unknown;
      }
      if score >= FOLLOW_THRESHOLD {
        return Followed;
      }
      if score >= FOLLOW_OF_FOLLOW_THRESHOLD {
        return FollowedByFollowed;
      }
      return Unknown;
    }
  }
}
