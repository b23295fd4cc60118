/** One rate bucket: lazy refill, burst cap, and what removing idle buckets does to the limit. Times are in seconds. */
module TokenBucket {
  import opened Options

  datatype Bucket = Bucket(tokens: real, lastTime: real, limit: real)

  /** What can happen to one key: an event of that rate asks to be published, or the sweeper passes. */
  datatype Act = Request(at: real, rate: nat) | Sweep(at: real)

  const MAX_IDLE: real := 600.0

  /** Tokens gained in a stretch of time. */
  function Earned(elapsed: real, limit: real): real {
    elapsed * limit
  }

  function Refilled(b: Bucket, now: real): real {
    var filled := b.tokens + Earned(now - b.lastTime, b.limit);
    if filled > b.limit * 2.0 then b.limit * 2.0 else filled
  }

  predicate Admits(b: Bucket, now: real) {
    Refilled(b, now) >= 1.0
  }

  function Allow(b: Bucket, now: real): Bucket {
    b.(lastTime := now, tokens := if Admits(b, now) then Refilled(b, now) - 1.0 else Refilled(b, now))
  }

  /** The stored bucket, or a new one. */
  function GetOrCreate(b: Option<Bucket>, rate: nat, now: real): Bucket {
    if b.Some? then b.value else Bucket(rate as real, now, rate as real)
  }

  predicate Idle(b: Bucket, now: real, maxIdle: real) {
    b.lastTime < now - maxIdle
  }

  function StepBucket(b: Option<Bucket>, act: Act, maxIdle: real): Option<Bucket> {
    match act
    case Request(at, rate) => Some(Allow(GetOrCreate(b, rate, at), at))
    case Sweep(at) => if b.Some? && Idle(b.value, at, maxIdle) then None else b
  }

  predicate AdmitsAct(b: Option<Bucket>, act: Act) {
    act.Request? && Admits(GetOrCreate(b, act.rate, act.at), act.at)
  }

  function After(acts: seq<Act>, maxIdle: real): Option<Bucket> {
    if acts == [] then None
    else StepBucket(After(acts[..|acts| - 1], maxIdle), acts[|acts| - 1], maxIdle)
  }

  /** How many events got through. */
  function Admitted(acts: seq<Act>, maxIdle: real): nat {
    if acts == [] then 0
    else
      var init, last := acts[..|acts| - 1], acts[|acts| - 1];
      Admitted(init, maxIdle) + if AdmitsAct(After(init, maxIdle), last) then 1 else 0
  }

  /** In time order, and every request at the same rate (a fixed trust level), at least one event per second. */
  ghost predicate Fixed(acts: seq<Act>, rate: nat) {
    && rate >= 1
    && (forall i, j | 0 <= i < j < |acts| :: acts[i].at <= acts[j].at)
    && (forall i | 0 <= i < |acts| && acts[i].Request? :: acts[i].rate == rate)
  }

  lemma EarnedFacts(elapsed: real, limit: real)
    requires 0.0 <= elapsed && 0.0 <= limit
    ensures 0.0 <= Earned(elapsed, limit)
    ensures 1.0 <= elapsed ==> limit <= Earned(elapsed, limit)
  {
    if 1.0 <= elapsed {
      assert (elapsed - 1.0) * limit >= 0.0;
    }
  }

  // ---------- every bucket ----------

  ghost predicate BucketInv(b: Option<Bucket>, rate: nat, now: real) {
    b.Some? ==>
      && b.value.limit == rate as real
      && 0.0 <= b.value.tokens <= 2.0 * rate as real
      && b.value.lastTime <= now
  }

  lemma {:induction false} BucketStaysValid(acts: seq<Act>, rate: nat, maxIdle: real)
    requires Fixed(acts, rate) && acts != []
    ensures BucketInv(After(acts, maxIdle), rate, acts[|acts| - 1].at)
    ensures acts[|acts| - 1].Request? ==>
              After(acts, maxIdle).Some? && After(acts, maxIdle).value.lastTime == acts[|acts| - 1].at
  {
    hide Earned;
    var init, last := acts[..|acts| - 1], acts[|acts| - 1];
    if init != [] {
      BucketStaysValid(init, rate, maxIdle);
      assert acts[|init| - 1].at <= last.at;
    }
    var b := After(init, maxIdle);
    if last.Request? {
      var c := GetOrCreate(b, last.rate, last.at);
      EarnedFacts(last.at - c.lastTime, c.limit);
    }
  }

  // ---------- sweeping never loosens the limit ----------

  function Unswept(acts: seq<Act>): seq<Act> {
    if acts == [] then []
    else
      var init := Unswept(acts[..|acts| - 1]);
      if acts[|acts| - 1].Request? then init + [acts[|acts| - 1]] else init
  }

  /** Swept state on the left, unswept state on the right, the counts beside them, at a time `now`. */
  ghost predicate NeverLooser(b1: Option<Bucket>, n1: nat, b2: Option<Bucket>, n2: nat, rate: nat, now: real) {
    && BucketInv(b1, rate, now) && BucketInv(b2, rate, now)
    && n1 <= n2
    && (b1.Some? ==> b2.Some? && b1.value.lastTime == b2.value.lastTime
                     && b1.value.tokens + n1 as real <= b2.value.tokens + n2 as real)
    && (b1.None? && b2.Some? ==> b2.value.lastTime + 1.0 <= now && n1 as real <= b2.value.tokens + n2 as real)
  }

  lemma SweepKeepsNeverLooser(b1: Option<Bucket>, n1: nat, b2: Option<Bucket>, n2: nat,
                              rate: nat, now: real, at: real, maxIdle: real)
    requires NeverLooser(b1, n1, b2, n2, rate, now) && now <= at && 1.0 <= maxIdle
    ensures NeverLooser(StepBucket(b1, Sweep(at), maxIdle), n1, b2, n2, rate, at)
  {}

  lemma RequestKeepsNeverLooser(b1: Option<Bucket>, n1: nat, b2: Option<Bucket>, n2: nat,
                                rate: nat, now: real, at: real, maxIdle: real)
    requires NeverLooser(b1, n1, b2, n2, rate, now) && now <= at && rate >= 1
    ensures var r := Request(at, rate);
            NeverLooser(StepBucket(b1, r, maxIdle), n1 + (if AdmitsAct(b1, r) then 1 else 0),
                        StepBucket(b2, r, maxIdle), n2 + (if AdmitsAct(b2, r) then 1 else 0), rate, at)
  {
    hide Earned;
    var c1, c2 := GetOrCreate(b1, rate, at), GetOrCreate(b2, rate, at);
    EarnedFacts(at - c1.lastTime, c1.limit);
    EarnedFacts(at - c2.lastTime, c2.limit);
    NothingEarnedAtOnce(rate as real);
    assert Refilled(c1, at) + n1 as real <= Refilled(c2, at) + n2 as real;
    if AdmitsAct(b1, Request(at, rate)) && !AdmitsAct(b2, Request(at, rate)) {
      assert n1 as real < n2 as real;
    }
  }

  lemma NothingEarnedAtOnce(limit: real)
    ensures Earned(0.0, limit) == 0.0
  {}

  lemma {:induction false} SweptRunIsNeverLooser(acts: seq<Act>, rate: nat, maxIdle: real)
    requires Fixed(acts, rate) && acts != [] && 1.0 <= maxIdle
    ensures NeverLooser(After(acts, maxIdle), Admitted(acts, maxIdle),
                        After(Unswept(acts), maxIdle), Admitted(Unswept(acts), maxIdle), rate, acts[|acts| - 1].at)
  {
    hide Earned, NeverLooser, StepBucket, After, Admitted, Unswept;
    var init, last := acts[..|acts| - 1], acts[|acts| - 1];
    assert acts == init + [last];
    var u := Unswept(init);
    var now := if init == [] then last.at else init[|init| - 1].at;
    if init == [] {
      NothingYet(rate, now, maxIdle);
    } else {
      SweptRunIsNeverLooser(init, rate, maxIdle);
    }
    AfterOneMore(init, last, maxIdle);
    if last.Request? {
      RequestKeepsNeverLooser(After(init, maxIdle), Admitted(init, maxIdle), After(u, maxIdle), Admitted(u, maxIdle),
                              rate, now, last.at, maxIdle);
      AfterOneMore(u, last, maxIdle);
    } else {
      SweepKeepsNeverLooser(After(init, maxIdle), Admitted(init, maxIdle), After(u, maxIdle), Admitted(u, maxIdle),
                            rate, now, last.at, maxIdle);
    }
  }

  lemma NothingYet(rate: nat, now: real, maxIdle: real)
    ensures NeverLooser(After([], maxIdle), Admitted([], maxIdle),
                        After(Unswept([]), maxIdle), Admitted(Unswept([]), maxIdle), rate, now)
  {}

  /** A new bucket of one event per second lets one event through and is empty then. */
  lemma NewBucketIsSpent(at: real, maxIdle: real)
    ensures AdmitsAct(None, Request(at, 1))
    ensures StepBucket(None, Request(at, 1), maxIdle) == Some(Bucket(0.0, at, 1.0))
  {
    NothingEarnedAtOnce(1.0);
  }

  /** An empty bucket refuses within the second, and is swept once it is too old. */
  lemma SpentBucket(at: real, maxIdle: real)
    requires 0.0 <= at < 1.0 && maxIdle < at
    ensures !AdmitsAct(Some(Bucket(0.0, 0.0, 1.0)), Request(at, 1))
    ensures StepBucket(Some(Bucket(0.0, 0.0, 1.0)), Sweep(at), maxIdle).None?
    ensures !AdmitsAct(Some(Bucket(0.0, 0.0, 1.0)), Sweep(at))
  {
    assert Earned(at, 1.0) == at;
  }

  /** Early sweeping would loosen the limit: a request, a sweep within the second, and the next request gets through. */
  lemma EarlySweepLoosens(maxIdle: real)
    requires maxIdle < 1.0
    ensures var t := if maxIdle < 0.0 then 0.5 else (maxIdle + 1.0) / 2.0;
            var acts := [Request(0.0, 1), Sweep(t), Request(t, 1)];
            Fixed(acts, 1) && Admitted(acts, maxIdle) > Admitted(Unswept(acts), maxIdle)
  {
    hide StepBucket, AdmitsAct, After, Admitted, Unswept;
    var t := if maxIdle < 0.0 then 0.5 else (maxIdle + 1.0) / 2.0;
    var r0, r1 := Request(0.0, 1), Request(t, 1);
    NewBucketIsSpent(0.0, maxIdle);
    NewBucketIsSpent(t, maxIdle);
    SpentBucket(t, maxIdle);
    NoActs(maxIdle);
    AfterOneMore([], r0, maxIdle);
    AfterOneMore([r0], Sweep(t), maxIdle);
    AfterOneMore([r0, Sweep(t)], r1, maxIdle);
    AfterOneMore([r0], r1, maxIdle);
    assert [] + [r0] == [r0] && [r0] + [Sweep(t)] == [r0, Sweep(t)];
    assert [r0, Sweep(t)] + [r1] == [r0, Sweep(t), r1] && [r0] + [r1] == [r0, r1];
  }

  lemma NoActs(maxIdle: real)
    ensures After([], maxIdle) == None && Admitted([], maxIdle) == 0 && Unswept([]) == []
  {}

  lemma AfterOneMore(acts: seq<Act>, act: Act, maxIdle: real)
    ensures After(acts + [act], maxIdle) == StepBucket(After(acts, maxIdle), act, maxIdle)
    ensures Admitted(acts + [act], maxIdle)
         == Admitted(acts, maxIdle) + if AdmitsAct(After(acts, maxIdle), act) then 1 else 0
    ensures Unswept(acts + [act]) == if act.Request? then Unswept(acts) + [act] else Unswept(acts)
  {
    assert (acts + [act])[..|acts|] == acts;
  }

  /** Sweeping is safe at every rate exactly when buckets are left alone for a second or more; the relay waits 600. */
  lemma SweepingNeverLoosensIff(maxIdle: real)
    ensures (forall acts, rate | Fixed(acts, rate) :: Admitted(acts, maxIdle) <= Admitted(Unswept(acts), maxIdle))
            <==> maxIdle >= 1.0
    ensures MAX_IDLE >= 1.0
  {
    if maxIdle >= 1.0 {
      forall acts, rate | Fixed(acts, rate) ensures Admitted(acts, maxIdle) <= Admitted(Unswept(acts), maxIdle) {
        if acts != [] {
          SweptRunIsNeverLooser(acts, rate, maxIdle);
        }
      }
    } else {
      EarlySweepLoosens(maxIdle);
      var t := if maxIdle < 0.0 then 0.5 else (maxIdle + 1.0) / 2.0;
      assert Fixed([Request(0.0, 1), Sweep(t), Request(t, 1)], 1);
    }
  }

  // ---------- rate bounds ----------

  /** In time order, and no request at a higher rate than this; trust levels, and so rates, may change at any time. */
  ghost predicate RatesUpTo(acts: seq<Act>, top: nat) {
    && (forall i, j | 0 <= i < j < |acts| :: acts[i].at <= acts[j].at)
    && (forall i | 0 <= i < |acts| && acts[i].Request? :: acts[i].rate <= top)
  }

  /** A bucket keeps the rate it was made with, whatever its owner's level has become. */
  ghost predicate BucketUpTo(b: Option<Bucket>, top: nat, now: real) {
    b.Some? ==>
      && 0.0 <= b.value.limit <= top as real
      && 0.0 <= b.value.tokens <= 2.0 * top as real
      && b.value.lastTime <= now
  }

  lemma EarnedIsProduct(elapsed: real, limit: real)
    ensures Earned(elapsed, limit) == elapsed * limit
  {}

  lemma ProductsGrow(x: real, a: real, b: real)
    requires 0.0 <= x && 0.0 <= a <= b
    ensures 0.0 <= x * a <= x * b
  {
    assert x * (b - a) >= 0.0;
  }

  lemma EarnedGrows(elapsed: real, limit: real, top: real)
    requires 0.0 <= elapsed && 0.0 <= limit <= top
    ensures 0.0 <= Earned(elapsed, limit) <= Earned(elapsed, top)
  {
    hide Earned;
    EarnedIsProduct(elapsed, limit);
    EarnedIsProduct(elapsed, top);
    ProductsGrow(elapsed, limit, top);
  }

  lemma StepStaysUpTo(b: Option<Bucket>, act: Act, top: nat, now: real, maxIdle: real)
    requires BucketUpTo(b, top, now) && now <= act.at && (act.Request? ==> act.rate <= top)
    ensures BucketUpTo(StepBucket(b, act, maxIdle), top, act.at)
  {
    hide Earned;
    if act.Request? {
      var c := GetOrCreate(b, act.rate, act.at);
      EarnedGrows(act.at - c.lastTime, c.limit, top as real);
    }
  }

  lemma {:induction false} BucketStaysUpTo(acts: seq<Act>, top: nat, maxIdle: real)
    requires RatesUpTo(acts, top) && acts != []
    ensures BucketUpTo(After(acts, maxIdle), top, acts[|acts| - 1].at)
  {
    hide BucketUpTo, StepBucket;
    var init, last := acts[..|acts| - 1], acts[|acts| - 1];
    if init == [] {
      NoBucketUpTo(top, last.at);
      StepStaysUpTo(None, last, top, last.at, maxIdle);
    } else {
      BucketStaysUpTo(init, top, maxIdle);
      assert acts[|init| - 1].at <= last.at;
      StepStaysUpTo(After(init, maxIdle), last, top, init[|init| - 1].at, maxIdle);
    }
  }

  lemma NoBucketUpTo(top: nat, now: real)
    ensures BucketUpTo(None, top, now)
  {}

  /** From the start of a window on: what was admitted plus what is left is at most two seconds' worth plus earnings. */
  ghost predicate Within(b: Option<Bucket>, admitted: int, rate: nat, start: real, now: real) {
    && 0 <= admitted
    && (b.Some? && b.value.lastTime < start ==> admitted == 0)
    && (b.Some? && b.value.lastTime >= start ==>
          b.value.tokens + admitted as real <= 2.0 * rate as real + Earned(b.value.lastTime - start, rate as real))
    && (b.None? ==> admitted == 0
                    || (start + 1.0 <= now && admitted as real <= rate as real + Earned(now - start, rate as real)))
  }

  lemma EarnedAddsUp(x: real, y: real, limit: real)
    ensures Earned(x, limit) + Earned(y, limit) == Earned(x + y, limit)
  {}

  /** acts[i..] are the acts at or after `start`. */
  ghost predicate OpensAt(acts: seq<Act>, i: nat, start: real) {
    i <= |acts| && forall j | 0 <= j < |acts| :: start <= acts[j].at <==> i <= j
  }

  lemma {:induction false} WindowInvariant(acts: seq<Act>, i: nat, rate: nat, maxIdle: real, start: real)
    requires RatesUpTo(acts, rate) && 1.0 <= maxIdle && OpensAt(acts, i, start) && i < |acts|
    ensures Within(After(acts, maxIdle), Admitted(acts, maxIdle) - Admitted(acts[..i], maxIdle),
                   rate, start, acts[|acts| - 1].at)
  {
    hide Earned, Within, StepBucket, AdmitsAct;
    var init, last := acts[..|acts| - 1], acts[|acts| - 1];
    assert init[..i] == acts[..i];
    var b, n := After(init, maxIdle), Admitted(init, maxIdle) - Admitted(acts[..i], maxIdle);
    if init != [] {
      BucketStaysUpTo(init, rate, maxIdle);
      assert acts[|init| - 1].at <= last.at;
    }
    if i == |init| {
      assert init == acts[..i];
      WindowOpens(b, rate, start, last.at);
    } else {
      WindowInvariant(init, i, rate, maxIdle, start);
      WithinLater(b, n, rate, start, init[|init| - 1].at, last.at);
    }
    WindowStep(b, n, rate, start, last, maxIdle);
  }

  lemma WindowOpens(b: Option<Bucket>, rate: nat, start: real, now: real)
    requires b.Some? ==> b.value.lastTime < start
    ensures Within(b, 0, rate, start, now)
  {}

  lemma WithinLater(b: Option<Bucket>, n: int, rate: nat, start: real, now: real, later: real)
    requires Within(b, n, rate, start, now) && now <= later
    ensures Within(b, n, rate, start, later)
  {
    hide Earned;
    EarnedFacts(later - now, rate as real);
    EarnedAddsUp(now - start, later - now, rate as real);
    assert now - start + (later - now) == later - start;
  }

  lemma WindowStep(b: Option<Bucket>, n: int, rate: nat, start: real, act: Act, maxIdle: real)
    requires Within(b, n, rate, start, act.at) && BucketUpTo(b, rate, act.at)
    requires start <= act.at && 1.0 <= maxIdle
    requires act.Request? ==> act.rate <= rate
    ensures Within(StepBucket(b, act, maxIdle), n + (if AdmitsAct(b, act) then 1 else 0), rate, start, act.at)
  {
    hide Earned;
    var limit := rate as real;
    EarnedFacts(act.at - start, limit);
    if b.Some? {
      var gone := act.at - b.value.lastTime;
      EarnedGrows(gone, b.value.limit, limit);
      EarnedFacts(gone, limit);
      EarnedAddsUp(b.value.lastTime - start, gone, limit);
      assert b.value.lastTime - start + gone == act.at - start;
    } else {
      NothingEarnedAtOnce(if act.Request? then act.rate as real else limit);
    }
  }

  /**
    * If no request comes at a higher rate than L, at most 2L + L*(end - start) events get through in any stretch of
    * time, swept or not, however often the trust level changes below that.
    */
  lemma RateBound(acts: seq<Act>, i: nat, rate: nat, maxIdle: real, start: real, end: real)
    requires RatesUpTo(acts, rate) && 1.0 <= maxIdle && OpensAt(acts, i, start)
    requires start <= end && forall a | a in acts :: a.at <= end
    ensures (Admitted(acts, maxIdle) - Admitted(acts[..i], maxIdle)) as real
         <= 2.0 * rate as real + (end - start) * rate as real
  {
    hide Earned, After, Admitted, Within, BucketUpTo;
    EarnedFacts(end - start, rate as real);
    EarnedIsProduct(end - start, rate as real);
    if i == |acts| {
      assert acts[..i] == acts;
    } else {
      assert acts[|acts| - 1] in acts;
      WindowInvariant(acts, i, rate, maxIdle, start);
      BucketStaysUpTo(acts, rate, maxIdle);
      WithinBound(After(acts, maxIdle), Admitted(acts, maxIdle) - Admitted(acts[..i], maxIdle), rate, start,
                  acts[|acts| - 1].at, end);
    }
  }

  lemma WithinBound(b: Option<Bucket>, n: int, rate: nat, start: real, now: real, end: real)
    requires Within(b, n, rate, start, now) && BucketUpTo(b, rate, now) && start <= now <= end
    ensures n as real <= 2.0 * rate as real + Earned(end - start, rate as real)
  {
    hide Earned;
    var limit := rate as real;
    WithinLater(b, n, rate, start, now, end);
    EarnedFacts(end - start, limit);
    if b.Some? && b.value.lastTime >= start {
      EarnedFacts(end - b.value.lastTime, limit);
      EarnedAddsUp(b.value.lastTime - start, end - b.value.lastTime, limit);
      assert b.value.lastTime - start + (end - b.value.lastTime) == end - start;
    }
  }

  /** A request at least 1/L after the previous act on its bucket, or with no bucket yet, is never refused. */
  lemma SpacedRequestsPass(acts: seq<Act>, rate: nat, maxIdle: real)
    requires Fixed(acts, rate) && acts != [] && acts[|acts| - 1].Request?
    requires var b := After(acts[..|acts| - 1], maxIdle);
             b.Some? ==> (acts[|acts| - 1].at - b.value.lastTime) * rate as real >= 1.0
    ensures Admitted(acts, maxIdle) == Admitted(acts[..|acts| - 1], maxIdle) + 1
  {
    hide Earned, After, Refilled;
    var init, last := acts[..|acts| - 1], acts[|acts| - 1];
    assert init + [last] == acts;
    AfterOneMore(init, last, maxIdle);
    if init != [] {
      BucketStaysValid(init, rate, maxIdle);
    } else {
      NoBucketAtFirst(maxIdle);
    }
    if After(init, maxIdle).Some? {
      EarnedIsProduct(last.at - After(init, maxIdle).value.lastTime, rate as real);
    }
    SpacedRequestPasses(After(init, maxIdle), rate, last);
  }

  lemma NoBucketAtFirst(maxIdle: real)
    ensures After([], maxIdle).None?
  {}

  lemma SpacedRequestPasses(b: Option<Bucket>, rate: nat, act: Act)
    requires act.Request? && act.rate == rate && rate >= 1
    requires b.Some? ==> b.value.limit == rate as real && 0.0 <= b.value.tokens
    requires b.Some? ==> Earned(act.at - b.value.lastTime, rate as real) >= 1.0
    ensures AdmitsAct(b, act)
  {
    hide Earned;
    NothingEarnedAtOnce(rate as real);
  }

  // ---------- bursts ----------

  /** How many of k requests at one instant get through. */
  function BurstAdmitted(b: Bucket, now: real, k: nat): nat
    decreases k
  {
    if k == 0 then 0 else (if Admits(b, now) then 1 else 0) + BurstAdmitted(Allow(b, now), now, k - 1)
  }

  function Min(a: int, b: int): int {
    if a < b then a else b
  }

  /** A burst gets exactly the whole tokens the bucket holds at that instant. */
  lemma {:induction false} BurstIsWholeTokens(b: Bucket, now: real, k: nat)
    requires 0.0 <= Refilled(b, now)
    ensures BurstAdmitted(b, now, k) == Min(k, Refilled(b, now).Floor)
    decreases k
  {
    if k > 0 {
      NothingEarnedAtOnce(b.limit);
      assert Refilled(Allow(b, now), now) == Allow(b, now).tokens;
      BurstIsWholeTokens(Allow(b, now), now, k - 1);
    }
  }

  /** A new pubkey gets one second's worth at once; after two idle seconds the burst is two seconds' worth. */
  lemma BurstSizes(rate: nat, b: Bucket, now: real, k: nat)
    requires b.limit == rate as real && 0.0 <= b.tokens && b.lastTime + 2.0 <= now
    ensures BurstAdmitted(GetOrCreate(None, rate, now), now, k) == Min(k, rate)
    ensures BurstAdmitted(b, now, k) == Min(k, 2 * rate)
  {
    hide Earned;
    NothingEarnedAtOnce(rate as real);
    BurstIsWholeTokens(GetOrCreate(None, rate, now), now, k);
    EarnedFacts(now - b.lastTime - 1.0, b.limit);
    EarnedFacts(1.0, b.limit);
    EarnedAddsUp(1.0, now - b.lastTime - 1.0, b.limit);
    assert 1.0 + (now - b.lastTime - 1.0) == now - b.lastTime;
    BurstIsWholeTokens(b, now, k);
  }
}
