/** The follow graph, one round of the rank iteration, and what repeated rounds converge to. */
module PageRank {
  import opened Sums

  type Pubkey = string

  datatype Follow = Follow(follower: Pubkey, followee: Pubkey)

  type Scores = map<Pubkey, real>

  const MAX_ITERATIONS: nat := 100
  const CONVERGENCE_EPS: real := 0.000001
  const MIN_PAGERANK_SIZE: nat := 10

  /** The default of the configuration, the only boost the relay is run with. */
  const OWNER_BOOST: real := 2.0

  // ---------- the graph ----------

  function Nodes(g: seq<Follow>): set<Pubkey> {
    if g == [] then {} else Nodes(g[..|g| - 1]) + {g[|g| - 1].follower, g[|g| - 1].followee}
  }

  function OutLinks(g: seq<Follow>, u: Pubkey): seq<Pubkey> {
    if g == [] then []
    else
      var init := OutLinks(g[..|g| - 1], u);
      if g[|g| - 1].follower == u then init + [g[|g| - 1].followee] else init
  }

  function InLinks(g: seq<Follow>, v: Pubkey): seq<Pubkey> {
    if g == [] then []
    else
      var init := InLinks(g[..|g| - 1], v);
      if g[|g| - 1].followee == v then init + [g[|g| - 1].follower] else init
  }

  // ---------- one round ----------

  /** Reading a Go map: a missing key reads as zero. */
  function At(s: Scores, u: Pubkey): real {
    if u in s then s[u] else 0.0
  }

  /** What u hands to each of the pubkeys it follows. */
  function Share(g: seq<Follow>, s: Scores, u: Pubkey): real {
    if |OutLinks(g, u)| > 0 then At(s, u) / |OutLinks(g, u)| as real else 0.0
  }

  function Shares(g: seq<Follow>, s: Scores): Pubkey -> real {
    u => Share(g, s, u)
  }

  /** What reaches v along the edges of g. */
  function Inflow(g: seq<Follow>, v: Pubkey, share: Pubkey -> real): real {
    if g == [] then 0.0
    else
      Inflow(g[..|g| - 1], v, share) + if g[|g| - 1].followee == v then share(g[|g| - 1].follower) else 0.0
  }

  /** The damping factor is 0.85; what is left over, 0.15, is the random jump. */
  function Damped(x: real): real {
    0.85 * x
  }

  function RandomJump(g: seq<Follow>): real
    requires g != []
  {
    NodesNonempty(g);
    JumpOf(|Nodes(g)|)
  }

  function JumpOf(k: nat): real
    requires k > 0
  {
    0.15 / k as real
  }

  function NewScore(g: seq<Follow>, s: Scores, v: Pubkey): real
    requires g != []
  {
    RandomJump(g) + Damped(Inflow(g, v, Shares(g, s)))
  }

  function Round(g: seq<Follow>, s: Scores): Scores
    requires g != []
  {
    map v | v in Nodes(g) :: NewScore(g, s, v)
  }

  function Iterate(g: seq<Follow>, s: Scores, k: nat): Scores
    requires g != []
  {
    if k == 0 then s else Round(g, Iterate(g, s, k - 1))
  }

  lemma NodesNonempty(g: seq<Follow>)
    requires g != []
    ensures |Nodes(g)| > 0
  {
    assert g[|g| - 1].follower in Nodes(g);
  }

  // ---------- mass and distance ----------

  function Read(s: Scores): Pubkey -> real {
    u => At(s, u)
  }

  /** What u keeps to itself: all of its score when it follows nobody. */
  function Kept(g: seq<Follow>, s: Scores): Pubkey -> real {
    u => if |OutLinks(g, u)| > 0 then 0.0 else At(s, u)
  }

  function Apart(s: Scores, t: Scores): Pubkey -> real {
    u => Abs(At(s, u) - At(t, u))
  }

  function Inflows(g: seq<Follow>, s: Scores): Pubkey -> real {
    v => Inflow(g, v, Shares(g, s))
  }

  ghost function Mass(n: set<Pubkey>, s: Scores): real {
    Sum(n, Read(s))
  }

  /** The mass held by pubkeys that follow nobody; a round passes none of it on. */
  ghost function Dangling(g: seq<Follow>, s: Scores): real {
    Sum(Nodes(g), Kept(g, s))
  }

  ghost function Distance(n: set<Pubkey>, s: Scores, t: Scores): real {
    Sum(n, Apart(s, t))
  }

  predicate NonNegative(s: Scores) {
    forall u | u in s :: 0.0 <= s[u]
  }

  /** The pointwise distance of two score vectors, itself a score vector. */
  function Gap(n: set<Pubkey>, s: Scores, t: Scores): Scores {
    map u | u in n :: Abs(At(s, u) - At(t, u))
  }

  // ---------- a round moves each non-dangling score once ----------

  /** Sum of the shares sent along the edges of g. */
  ghost function EdgeFlow(g: seq<Follow>, share: Pubkey -> real): real {
    if g == [] then 0.0 else EdgeFlow(g[..|g| - 1], share) + share(g[|g| - 1].follower)
  }

  /** Adding up a list of linkers one by one. */
  function SumOver(linkers: seq<Pubkey>, share: Pubkey -> real): real {
    if linkers == [] then 0.0 else SumOver(linkers[..|linkers| - 1], share) + share(linkers[|linkers| - 1])
  }

  /** The list of incoming links, once per edge, adds up to what reaches v along the edges. */
  lemma {:induction false} InLinksCarryTheInflow(g: seq<Follow>, v: Pubkey, share: Pubkey -> real)
    ensures SumOver(InLinks(g, v), share) == Inflow(g, v, share)
  {
    if g != [] {
      var init, last := g[..|g| - 1], g[|g| - 1];
      InLinksCarryTheInflow(init, v, share);
      var links := InLinks(init, v);
      assert (links + [last.follower])[..|links|] == links;
    }
  }

  /** Counting the flow at its targets gives the flow along the edges. */
  lemma {:induction false} FlowByTarget(g: seq<Follow>, n: set<Pubkey>, share: Pubkey -> real)
    requires Nodes(g) <= n
    ensures Sum(n, v => Inflow(g, v, share)) == EdgeFlow(g, share)
  {
    var f := v => Inflow(g, v, share);
    if g == [] {
      SumConst(n, f, 0.0);
    } else {
      var init, last := g[..|g| - 1], g[|g| - 1];
      var f0 := v => Inflow(init, v, share);
      FlowByTarget(init, n, share);
      assert last.followee in n;
      SumUpdate(n, f0, f, last.followee);
    }
  }

  /** k shares of size c, added one by one. */
  function Times(k: nat, c: real): real {
    if k == 0 then 0.0 else Times(k - 1, c) + c
  }

  lemma OutLinksGrow(g: seq<Follow>, u: Pubkey)
    requires g != []
    ensures |OutLinks(g, u)| == |OutLinks(g[..|g| - 1], u)| + if g[|g| - 1].follower == u then 1 else 0
  {}

  /** Counting the flow at its sources gives the flow along the edges. */
  lemma {:induction false} FlowBySource(g: seq<Follow>, n: set<Pubkey>, share: Pubkey -> real)
    requires Nodes(g) <= n
    ensures Sum(n, u => Times(|OutLinks(g, u)|, share(u))) == EdgeFlow(g, share)
  {
    hide OutLinks;
    var f := u => Times(|OutLinks(g, u)|, share(u));
    if g == [] {
      NobodyFollows(n, share);
    } else {
      var init, last := g[..|g| - 1], g[|g| - 1];
      var f0 := u => Times(|OutLinks(init, u)|, share(u));
      FlowBySource(init, n, share);
      assert last.follower in n;
      forall u | u in n
        ensures f(u) == f0(u) + if u == last.follower then share(u) else 0.0
      {
        OutLinksGrow(g, u);
      }
      SumUpdate(n, f0, f, last.follower);
    }
  }

  lemma NobodyFollows(n: set<Pubkey>, share: Pubkey -> real)
    ensures Sum(n, u => Times(|OutLinks([], u)|, share(u))) == 0.0
  {
    SumConst(n, u => Times(|OutLinks([], u)|, share(u)), 0.0);
  }

  lemma SharesAddUp(k: nat, x: real)
    requires k > 0
    ensures Times(k, x / k as real) == x
  {
    TimesIsProduct(k, x / k as real);
  }

  lemma {:induction false} TimesIsProduct(k: nat, c: real)
    ensures Times(k, c) == k as real * c
  {
    if k > 0 {
      TimesIsProduct(k - 1, c);
    }
  }

  /** All that flows is the mass of the pubkeys that follow somebody. */
  lemma TotalInflow(g: seq<Follow>, s: Scores)
    ensures Sum(Nodes(g), Inflows(g, s)) == Mass(Nodes(g), s) - Dangling(g, s)
  {
    var n := Nodes(g);
    FlowByTarget(g, n, Shares(g, s));
    FlowBySource(g, n, Shares(g, s));
    var passed := u => Times(|OutLinks(g, u)|, Shares(g, s)(u));
    forall u | u in n ensures Read(s)(u) == passed(u) + Kept(g, s)(u) {
      if |OutLinks(g, u)| > 0 {
        SharesAddUp(|OutLinks(g, u)|, At(s, u));
      }
    }
    SumAdd(n, passed, Kept(g, s), Read(s));
    SumCongruence(n, Inflows(g, s), v => Inflow(g, v, Shares(g, s)));
  }
}
