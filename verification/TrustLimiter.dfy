/** The per-pubkey limiter: two buckets per identity in one shared map of mutable buckets, and the sweeper. */
module TrustLimiter {
  import opened Keys
  import opened Options
  import opened TokenBucket
  import ProofOfWork

  const COLLAB_PREFIX: string := "collab:"
  const KIND_NOSTR_CONNECT: int := 24133

  /** What one trust level is held to; no events per second, or fewer, means unlimited. */
  datatype Policy = Policy(eventsPerSecond: int, requirePoW: bool, minPoWDifficulty: int)

  /** Reading the policy map: a missing level reads as the zero policy. */
  const NO_POLICY: Policy := Policy(0, false, 0)

  datatype Config = Config(
    allowed: set<Pubkey>, policies: map<int, Policy>, collabKinds: set<int>, collabRate: int)

  /** An event being published, its author's trust level at that moment, and the key its connection proved. */
  datatype Publish = Publish(id: string, pubkey: Pubkey, kind: int, level: int, authed: Pubkey, at: real)

  function PolicyOf(cfg: Config, level: int): Policy {
    if level in cfg.policies then cfg.policies[level] else NO_POLICY
  }

  function EventsPerSecond(cfg: Config, level: int): int {
    PolicyOf(cfg, level).eventsPerSecond
  }

  /** Exempt from every trust gate: remote signing, and the pubkeys on the allow list. */
  predicate Exempt(cfg: Config, e: Publish) {
    e.kind == KIND_NOSTR_CONNECT || e.pubkey in cfg.allowed
  }

  predicate DrawsFromCollab(cfg: Config, e: Publish) {
    e.kind in cfg.collabKinds && cfg.collabRate > 0
  }

  function Max(a: int, b: int): int {
    if a > b then a else b
  }

  datatype Draw = Draw(key: string, rate: nat)

  /** Which bucket the event draws from, and the rate a new bucket of that key would get; None is unlimited. */
  function DrawOf(cfg: Config, e: Publish): Option<Draw> {
    if Exempt(cfg, e) || EventsPerSecond(cfg, e.level) <= 0 then None
    else if DrawsFromCollab(cfg, e)
    then Some(Draw(COLLAB_PREFIX + e.pubkey, Max(EventsPerSecond(cfg, e.level), cfg.collabRate)))
    else Some(Draw(e.pubkey, EventsPerSecond(cfg, e.level)))
  }

  // ---------- the shared map, as values ----------

  type Buckets = map<string, Bucket>

  datatype Item = Event(e: Publish) | SweepPass(at: real)

  function BucketAt(m: Buckets, key: string): Option<Bucket> {
    if key in m then Some(m[key]) else None
  }

  function Step(cfg: Config, m: Buckets, item: Item): Buckets {
    match item
    case Event(e) =>
      var draw := DrawOf(cfg, e);
      if draw.None? then m
      else m[draw.value.key := StepBucket(BucketAt(m, draw.value.key), Request(e.at, draw.value.rate), MAX_IDLE).value]
    case SweepPass(at) => map k | k in m && !Idle(m[k], at, MAX_IDLE) :: m[k]
  }

  /** The rate decision: true when the event is refused. */
  predicate RateLimited(cfg: Config, m: Buckets, e: Publish) {
    var draw := DrawOf(cfg, e);
    draw.Some? && !AdmitsAct(BucketAt(m, draw.value.key), Request(e.at, draw.value.rate))
  }

  // ---------- the whole gate ----------

  datatype Verdict = Accepted | RateLimitedEvent | NeedsWork(difficulty: nat)

  /** Proven ownership of the very key that signed the event. */
  predicate AuthorIsAuthenticated(e: Publish) {
    e.authed != "" && e.authed == e.pubkey
  }

  predicate WorkRequired(cfg: Config, e: Publish) {
    var policy := PolicyOf(cfg, e.level);
    policy.requirePoW && policy.minPoWDifficulty > 0 && !AuthorIsAuthenticated(e)
  }

  function VerdictOf(cfg: Config, m: Buckets, e: Publish): Verdict {
    if RateLimited(cfg, m, e) then RateLimitedEvent
    else if !Exempt(cfg, e) && WorkRequired(cfg, e)
            && !ProofOfWork.Passes(e.id, PolicyOf(cfg, e.level).minPoWDifficulty)
    then NeedsWork(ProofOfWork.ZeroBits(e.id))
    else Accepted
  }

  /**
    * What an author has to bring: a token, whoever they are; and unless they authenticated as themselves or their level
    * asks for none, an id that is small enough as a number. Work never buys a token.
    */
  lemma AcceptedIff(cfg: Config, m: Buckets, e: Publish)
    requires ProofOfWork.IsHex(e.id)
    ensures var bits, min := 4 * |e.id|, PolicyOf(cfg, e.level).minPoWDifficulty;
            VerdictOf(cfg, m, e).Accepted?
            <==> e.kind == 24133 || e.pubkey in cfg.allowed
                 || (!RateLimited(cfg, m, e)
                     && (|| e.authed == e.pubkey != ""
                         || e.level !in cfg.policies || !cfg.policies[e.level].requirePoW || min <= 0
                         || (min <= bits && ProofOfWork.Value(e.id) < ProofOfWork.Pow2(bits - min))))
  {
    ProofOfWork.PassesIff(e.id, PolicyOf(cfg, e.level).minPoWDifficulty);
  }

  /** And what it is told otherwise: a missing token comes first, and a request for work carries the bits found. */
  lemma RefusalsExplained(cfg: Config, m: Buckets, e: Publish)
    ensures VerdictOf(cfg, m, e).RateLimitedEvent? <==> RateLimited(cfg, m, e)
    ensures VerdictOf(cfg, m, e).NeedsWork? ==>
              && VerdictOf(cfg, m, e).difficulty == ProofOfWork.ZeroBits(e.id)
              && e.level in cfg.policies && ProofOfWork.ZeroBits(e.id) < cfg.policies[e.level].minPoWDifficulty
  {}

  /**
    * Only the key that signed the event counts: whichever other key the connection proved, or none, the verdict is the
    * same. And an author who proved that very key is never asked for work.
    */
  lemma OnlyTheAuthorsKeyCounts(cfg: Config, m: Buckets, e: Publish, a: Pubkey, b: Pubkey)
    requires a != e.pubkey && b != e.pubkey
    ensures VerdictOf(cfg, m, e.(authed := a)) == VerdictOf(cfg, m, e.(authed := b))
    ensures e.pubkey != "" ==> !VerdictOf(cfg, m, e.(authed := e.pubkey)).NeedsWork?
  {
    assert DrawOf(cfg, e.(authed := a)) == DrawOf(cfg, e.(authed := b));
  }

  // ---------- the same on the heap ----------

  class RateBucket {
    var tokens: real
    var lastTime: real
    const limit: real

    constructor (tokens: real, lastTime: real, limit: real)
      ensures View() == Bucket(tokens, lastTime, limit)
    {
      this.tokens, this.lastTime, this.limit := tokens, lastTime, limit;
    }

    ghost function View(): Bucket
      reads this
    {
      Bucket(tokens, lastTime, limit)
    }

    method Allow(now: real) returns (ok: bool)
      modifies this
      ensures View() == TokenBucket.Allow(old(View()), now)
      ensures ok == Admits(old(View()), now)
    {
      var elapsed := now - lastTime;
      lastTime := now;
      tokens := tokens + elapsed * limit;
      var burst := limit * 2.0;
      if tokens > burst {
        tokens := burst;
      }
      if tokens < 1.0 {
        return false;
      }
      tokens := tokens - 1.0;
      return true;
    }
  }

  class Handler {
    const cfg: Config
    var rateBuckets: map<string, RateBucket>

    constructor (cfg: Config)
      ensures this.cfg == cfg && Valid() && View() == map[]
    {
      this.cfg := cfg;
      rateBuckets := map[];
    }

    /** No two keys share a bucket object. */
    ghost predicate Valid()
      reads this
    {
      forall k, l | k in rateBuckets && l in rateBuckets && k != l :: rateBuckets[k] != rateBuckets[l]
    }

    ghost function View(): Buckets
      reads this, rateBuckets.Values
    {
      map k | k in rateBuckets :: rateBuckets[k].View()
    }

    method GetOrCreateBucket(key: string, rate: nat, now: real) returns (b: RateBucket)
      requires Valid()
      modifies this
      ensures Valid() && key in rateBuckets && rateBuckets[key] == b
      ensures old(rateBuckets.Keys) + {key} == rateBuckets.Keys
      ensures forall k | k in old(rateBuckets) :: rateBuckets[k] == old(rateBuckets[k])
      ensures key !in old(rateBuckets) ==> fresh(b)
      ensures b.View() == GetOrCreate(BucketAt(old(View()), key), rate, now)
    {
      if key in rateBuckets {
        return rateBuckets[key];
      }
      b := new RateBucket(rate as real, now, rate as real);
      rateBuckets := rateBuckets[key := b];
    }

    /** The event gate: exemptions, one token from the right bucket, then proof of work. */
    method RejectEventByTrust(e: Publish) returns (verdict: Verdict)
      requires Valid()
      modifies this, rateBuckets.Values
      ensures Valid() && fresh(rateBuckets.Values - old(rateBuckets.Values))
      ensures View() == Step(cfg, old(View()), Event(e))
      ensures verdict == VerdictOf(cfg, old(View()), e)
    {
      hide StepBucket, AdmitsAct, Idle;
      if e.kind == KIND_NOSTR_CONNECT {
        return Accepted;
      }
      if e.pubkey in cfg.allowed {
        return Accepted;
      }
      var policy := if e.level in cfg.policies then cfg.policies[e.level] else NO_POLICY;
      var limited := false;
      if e.kind in cfg.collabKinds && cfg.collabRate > 0 {
        if policy.eventsPerSecond > 0 {
          var rate := if policy.eventsPerSecond > cfg.collabRate then policy.eventsPerSecond else cfg.collabRate;
          limited := DrawToken(COLLAB_PREFIX + e.pubkey, rate, e.at);
        }
      } else if policy.eventsPerSecond > 0 {
        limited := DrawToken(e.pubkey, policy.eventsPerSecond, e.at);
      }
      if limited {
        return RateLimitedEvent;
      }
      if e.authed != "" && e.authed == e.pubkey {
        return Accepted;
      }
      if policy.requirePoW && policy.minPoWDifficulty > 0 {
        var difficulty := ProofOfWork.CountLeadingZeroBits(e.id);
        if difficulty < policy.minPoWDifficulty {
          return NeedsWork(difficulty);
        }
      }
      return Accepted;
    }

    method DrawToken(key: string, rate: nat, now: real) returns (limited: bool)
      requires Valid()
      modifies this, rateBuckets.Values
      ensures Valid() && fresh(rateBuckets.Values - old(rateBuckets.Values))
      ensures View() == old(View())[key := StepBucket(BucketAt(old(View()), key), Request(now, rate), MAX_IDLE).value]
      ensures limited == !AdmitsAct(BucketAt(old(View()), key), Request(now, rate))
    {
      hide Refilled;
      var bucket := GetOrCreateBucket(key, rate, now);
      var ok := bucket.Allow(now);
      return !ok;
    }

    /** One pass of the sweeper over every key. */
    method SweepStaleBuckets(now: real)
      requires Valid()
      modifies this
      ensures Valid() && rateBuckets.Values <= old(rateBuckets.Values)
      ensures View() == Step(cfg, old(View()), SweepPass(now))
    {
      var cutoff := now - MAX_IDLE;
      var before := rateBuckets;
      var keys := before.Keys;
      while keys != {}
        invariant keys <= before.Keys && rateBuckets.Keys <= before.Keys
        invariant forall k | k in before :: k in rateBuckets <==> k in keys || !(before[k].lastTime < cutoff)
        invariant forall k | k in rateBuckets :: rateBuckets[k] == before[k]
        decreases keys
      {
        var k :| k in keys;
        var b := before[k];
        if b.lastTime < cutoff {
          rateBuckets := rateBuckets - {k};
        }
        keys := keys - {k};
      }
    }
  }

  // ---------- what a new author gets ----------

  /** How many of k events like this one, at one instant, are not refused by the rate decision. */
  function BurstPassed(cfg: Config, m: Buckets, e: Publish, k: nat): nat
    decreases k
  {
    if k == 0 then 0
    else (if RateLimited(cfg, m, e) then 0 else 1) + BurstPassed(cfg, Step(cfg, m, Event(e)), e, k - 1)
  }

  lemma {:induction false} UnlimitedBurst(cfg: Config, m: Buckets, e: Publish, k: nat)
    requires DrawOf(cfg, e).None?
    ensures BurstPassed(cfg, m, e, k) == k
    decreases k
  {
    if k > 0 {
      UnlimitedBurst(cfg, Step(cfg, m, Event(e)), e, k - 1);
    }
  }

  lemma {:induction false} BurstOnTheMap(cfg: Config, m: Buckets, e: Publish, k: nat)
    requires DrawOf(cfg, e).Some?
    ensures var draw := DrawOf(cfg, e).value;
            BurstPassed(cfg, m, e, k) == BurstAdmitted(GetOrCreate(BucketAt(m, draw.key), draw.rate, e.at), e.at, k)
    decreases k
  {
    hide Allow, Admits;
    if k > 0 {
      BurstOnTheMap(cfg, Step(cfg, m, Event(e)), e, k - 1);
    }
  }

  /**
    * An author without buckets gets one second's worth at once: everything when exempt or unlimited; of a collaboration
    * kind the larger of the level's rate and the collaboration rate; otherwise the level's rate.
    */
  lemma NewAuthorGets(cfg: Config, m: Buckets, e: Publish, k: nat)
    requires e.pubkey !in m && "collab:" + e.pubkey !in m
    ensures BurstPassed(cfg, m, e, k)
         == if e.kind == 24133 || e.pubkey in cfg.allowed then k
            else if e.level !in cfg.policies || cfg.policies[e.level].eventsPerSecond <= 0 then k
            else var rate := cfg.policies[e.level].eventsPerSecond;
                 if e.kind in cfg.collabKinds && cfg.collabRate > rate then Min(k, cfg.collabRate) else Min(k, rate)
  {
    hide BurstPassed, BurstAdmitted, GetOrCreate;
    if DrawOf(cfg, e).None? {
      UnlimitedBurst(cfg, m, e, k);
    } else {
      var draw := DrawOf(cfg, e).value;
      BurstOnTheMap(cfg, m, e, k);
      BurstSizes(draw.rate, Bucket(0.0, e.at - 2.0, draw.rate as real), e.at, k);
    }
  }

  /** A collaboration event never takes a token from the general bucket, nor the other way round. */
  lemma DrawsFromOneBucket(cfg: Config, m: Buckets, e: Publish, key: string)
    requires key != if e.kind in cfg.collabKinds && cfg.collabRate > 0 then "collab:" + e.pubkey else e.pubkey
    ensures BucketAt(Step(cfg, m, Event(e)), key) == BucketAt(m, key)
  {}

  /** Exempt and unlimited events take no token at all. */
  lemma ExemptDrawsNothing(cfg: Config, m: Buckets, e: Publish)
    requires || e.kind == 24133 || e.pubkey in cfg.allowed
             || e.level !in cfg.policies || cfg.policies[e.level].eventsPerSecond <= 0
    ensures Step(cfg, m, Event(e)) == m
  {}

  /** The sweeper forgets exactly the buckets that nobody has drawn from for ten minutes. */
  lemma SweepKeepsTheRecent(cfg: Config, m: Buckets, at: real, key: string)
    ensures BucketAt(Step(cfg, m, SweepPass(at)), key)
         == if key in m && at - 600.0 <= m[key].lastTime then Some(m[key]) else None
  {}

  // ---------- non-interference ----------

  function Run(cfg: Config, items: seq<Item>): Buckets {
    if items == [] then map[] else Step(cfg, Run(cfg, items[..|items| - 1]), items[|items| - 1])
  }

  /** What a run does to one key, as acts on a single bucket. */
  function ActsOn(cfg: Config, items: seq<Item>, key: string): seq<Act> {
    if items == [] then []
    else
      var init := ActsOn(cfg, items[..|items| - 1], key);
      match items[|items| - 1]
      case SweepPass(at) => init + [Sweep(at)]
      case Event(e) =>
        var draw := DrawOf(cfg, e);
        if draw.Some? && draw.value.key == key then init + [Request(e.at, draw.value.rate)] else init
  }

  /** The rate decisions on the events that draw from one key, in order; true means refused. */
  function DecisionsOn(cfg: Config, items: seq<Item>, key: string): seq<bool> {
    if items == [] then []
    else
      var prefix, last := items[..|items| - 1], items[|items| - 1];
      var init := DecisionsOn(cfg, prefix, key);
      if last.Event? && DrawOf(cfg, last.e).Some? && DrawOf(cfg, last.e).value.key == key
      then init + [RateLimited(cfg, Run(cfg, prefix), last.e)]
      else init
  }

  function Refusals(acts: seq<Act>): seq<bool> {
    if acts == [] then []
    else
      var init, last := acts[..|acts| - 1], acts[|acts| - 1];
      if last.Request? then Refusals(init) + [!AdmitsAct(After(init, MAX_IDLE), last)] else Refusals(init)
  }

  /** One key of the shared map behaves as a bucket of its own, fed only the acts on that key. */
  lemma {:induction false} KeyIsItsOwnBucket(cfg: Config, items: seq<Item>, key: string)
    ensures BucketAt(Run(cfg, items), key) == After(ActsOn(cfg, items, key), MAX_IDLE)
    ensures DecisionsOn(cfg, items, key) == Refusals(ActsOn(cfg, items, key))
  {
    hide Allow, Admits;
    if items != [] {
      var init := items[..|items| - 1];
      KeyIsItsOwnBucket(cfg, init, key);
      var acts, acts' := ActsOn(cfg, init, key), ActsOn(cfg, items, key);
      assert acts' != acts ==> acts'[..|acts'| - 1] == acts;
    }
  }

  ghost predicate AuthorsAreValid(items: seq<Item>) {
    forall i | 0 <= i < |items| && items[i].Event? :: IsPubkey(items[i].e.pubkey)
  }

  /** Deletes every event the predicate does not keep; sweeps stay. */
  function Keep(items: seq<Item>, keep: Publish -> bool): (kept: seq<Item>)
    ensures forall i | i in kept && i.Event? :: keep(i.e)
  {
    if items == [] then []
    else
      var init, last := Keep(items[..|items| - 1], keep), items[|items| - 1];
      if last.SweepPass? || keep(last.e) then init + [last] else init
  }

  lemma {:induction false} DroppingOtherKeys(cfg: Config, items: seq<Item>, key: string, keep: Publish -> bool)
    requires forall i | 0 <= i < |items| && items[i].Event? && !keep(items[i].e) ::
               DrawOf(cfg, items[i].e).None? || DrawOf(cfg, items[i].e).value.key != key
    ensures ActsOn(cfg, Keep(items, keep), key) == ActsOn(cfg, items, key)
  {
    if items != [] {
      var init, last := items[..|items| - 1], items[|items| - 1];
      DroppingOtherKeys(cfg, init, key, keep);
      var kept := Keep(init, keep);
      assert (kept + [last])[..|kept|] == kept;
      assert items[|items| - 1] == last;
    }
  }

  function GeneralEventsOf(cfg: Config, p: Pubkey): Publish -> bool {
    (e: Publish) => e.pubkey == p && !DrawsFromCollab(cfg, e)
  }

  function CollabEventsOf(cfg: Config, p: Pubkey): Publish -> bool {
    (e: Publish) => e.pubkey == p && DrawsFromCollab(cfg, e)
  }

  lemma KeysApart(p: Pubkey, q: Pubkey)
    requires IsPubkey(p) && IsPubkey(q)
    ensures COLLAB_PREFIX + p != q
    ensures COLLAB_PREFIX + p == COLLAB_PREFIX + q ==> p == q
  {
    assert (COLLAB_PREFIX + p)[1] == 'o';
    assert (COLLAB_PREFIX + p)[7..] == p && (COLLAB_PREFIX + q)[7..] == q;
    assert HexDigit(q[1]);
  }

  /**
    * Deleting all collaboration events and all events of other pubkeys from a run leaves every rate decision
    * on a pubkey's general events unchanged.
    */
  lemma GeneralBucketIsIsolated(cfg: Config, items: seq<Item>, p: Pubkey)
    requires IsPubkey(p) && AuthorsAreValid(items)
    ensures DecisionsOn(cfg, items, p) == DecisionsOn(cfg, Keep(items, GeneralEventsOf(cfg, p)), p)
  {
    var keep := GeneralEventsOf(cfg, p);
    forall i | 0 <= i < |items| && items[i].Event? && !keep(items[i].e)
      ensures DrawOf(cfg, items[i].e).None? || DrawOf(cfg, items[i].e).value.key != p
    {
      KeysApart(items[i].e.pubkey, p);
    }
    DroppingOtherKeys(cfg, items, p, keep);
    KeyIsItsOwnBucket(cfg, items, p);
    KeyIsItsOwnBucket(cfg, Keep(items, keep), p);
  }

  /** The same for a pubkey's collaboration events: general events and other pubkeys do not matter. */
  lemma CollabBucketIsIsolated(cfg: Config, items: seq<Item>, p: Pubkey)
    requires IsPubkey(p) && AuthorsAreValid(items)
    ensures DecisionsOn(cfg, items, COLLAB_PREFIX + p)
         == DecisionsOn(cfg, Keep(items, CollabEventsOf(cfg, p)), COLLAB_PREFIX + p)
  {
    var key := COLLAB_PREFIX + p;
    var keep := CollabEventsOf(cfg, p);
    forall i | 0 <= i < |items| && items[i].Event? && !keep(items[i].e)
      ensures DrawOf(cfg, items[i].e).None? || DrawOf(cfg, items[i].e).value.key != key
    {
      KeysApart(p, items[i].e.pubkey);
    }
    DroppingOtherKeys(cfg, items, key, keep);
    KeyIsItsOwnBucket(cfg, items, key);
    KeyIsItsOwnBucket(cfg, Keep(items, keep), key);
  }

  // ---------- the bucket theorems, on the shared map ----------

  /** While a pubkey's rate stays fixed, sweeping the shared map admits at most what an unswept map would have. */
  lemma SweepingTheMapNeverLoosens(cfg: Config, items: seq<Item>, key: string, rate: nat)
    requires Fixed(ActsOn(cfg, items, key), rate)
    ensures Count(DecisionsOn(cfg, items, key)) <= Count(DecisionsOn(cfg, WithoutSweeps(items), key))
  {
    var acts := ActsOn(cfg, items, key);
    KeyIsItsOwnBucket(cfg, items, key);
    KeyIsItsOwnBucket(cfg, WithoutSweeps(items), key);
    ActsWithoutSweeps(cfg, items, key);
    CountIsAdmitted(acts);
    CountIsAdmitted(Unswept(acts));
    SweepingNeverLoosensIff(MAX_IDLE);
  }

  /** How many decisions let the event through. */
  function Count(refused: seq<bool>): nat {
    if refused == [] then 0 else Count(refused[..|refused| - 1]) + if refused[|refused| - 1] then 0 else 1
  }

  lemma {:induction false} CountIsAdmitted(acts: seq<Act>)
    ensures Count(Refusals(acts)) == Admitted(acts, MAX_IDLE)
  {
    if acts != [] {
      var init := acts[..|acts| - 1];
      CountIsAdmitted(init);
      var r, r' := Refusals(init), Refusals(acts);
      assert r' != r ==> r'[..|r'| - 1] == r;
    }
  }

  function TimeOf(item: Item): real {
    if item.Event? then item.e.at else item.at
  }

  /** In time order between start and end, with no draw on this key at a higher rate than top. */
  ghost predicate DrawsUpTo(cfg: Config, items: seq<Item>, key: string, top: nat, start: real, end: real) {
    && (forall i | 0 <= i < |items| :: start <= TimeOf(items[i]) <= end)
    && (forall i, j | 0 <= i < j < |items| :: TimeOf(items[i]) <= TimeOf(items[j]))
    && forall i | 0 <= i < |items| && items[i].Event? ::
         var draw := DrawOf(cfg, items[i].e);
         draw.Some? && draw.value.key == key ==> draw.value.rate <= top
  }

  lemma {:induction false} ActsUpTo(cfg: Config, items: seq<Item>, key: string, top: nat, start: real, end: real)
    requires DrawsUpTo(cfg, items, key, top, start, end)
    ensures var acts := ActsOn(cfg, items, key);
            && RatesUpTo(acts, top)
            && (forall a | a in acts :: start <= a.at <= end)
            && (acts != [] ==> items != [] && acts[|acts| - 1].at <= TimeOf(items[|items| - 1]))
  {
    hide DrawOf;
    if items != [] {
      var init, last := items[..|items| - 1], items[|items| - 1];
      ActsUpTo(cfg, init, key, top, start, end);
      assert init != [] ==> TimeOf(items[|init| - 1]) <= TimeOf(last);
      assert DrawsUpTo(cfg, items, key, top, start, end);
      var acts, acts' := ActsOn(cfg, init, key), ActsOn(cfg, items, key);
      if acts' != acts {
        assert acts' == acts + [acts'[|acts|]] && acts'[|acts|].at == TimeOf(last);
      }
    }
  }

  /**
    * Whatever levels a pubkey moves through, and whatever rates its bucket was made with, between start and end one key
    * of the shared map lets at most 2L + L * (end - start) events through, L being the highest rate it was drawn at.
    */
  lemma KeyRateBound(cfg: Config, items: seq<Item>, key: string, top: nat, start: real, end: real)
    requires start <= end && DrawsUpTo(cfg, items, key, top, start, end)
    ensures Count(DecisionsOn(cfg, items, key)) as real <= 2.0 * top as real + (end - start) * top as real
  {
    hide Admitted, RatesUpTo, DrawsUpTo, DecisionsOn, ActsOn, Refusals;
    var acts := ActsOn(cfg, items, key);
    ActsUpTo(cfg, items, key, top, start, end);
    KeyIsItsOwnBucket(cfg, items, key);
    CountIsAdmitted(acts);
    assert OpensAt(acts, 0, start);
    RateBound(acts, 0, top, MAX_IDLE, start, end);
    assert acts[..0] == [];
    NothingAdmitted();
  }

  lemma NothingAdmitted()
    ensures Admitted([], MAX_IDLE) == 0
  {}

  function WithoutSweeps(items: seq<Item>): seq<Item> {
    if items == [] then []
    else
      var init := WithoutSweeps(items[..|items| - 1]);
      if items[|items| - 1].Event? then init + [items[|items| - 1]] else init
  }

  lemma {:induction false} ActsWithoutSweeps(cfg: Config, items: seq<Item>, key: string)
    ensures ActsOn(cfg, WithoutSweeps(items), key) == Unswept(ActsOn(cfg, items, key))
  {
    if items != [] {
      var init, last := items[..|items| - 1], items[|items| - 1];
      ActsWithoutSweeps(cfg, init, key);
      var w := WithoutSweeps(init);
      assert (w + [last])[..|w|] == w;
      var acts, acts' := ActsOn(cfg, init, key), ActsOn(cfg, items, key);
      assert acts' != acts ==> acts'[..|acts'| - 1] == acts;
    }
  }
}
