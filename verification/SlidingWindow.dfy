/** The distributed limiter: a sorted set of admission times per key, pruned on every call and expired when idle. */
module SlidingWindow {
  import opened Options

  /** A Redis sorted set whose members are their own scores, and the time at which the key expires. */
  datatype Log = Log(entries: set<int>, expiresAt: Option<int>)

  const EMPTY: Log := Log({}, None)

  /** Which of the three Redis calls fail. */
  datatype Faults = Faults(pipeline: bool, add: bool, expire: bool)

  const NO_FAULTS: Faults := Faults(false, false, false)

  /** What Redis still has of the key at that time. */
  function Live(log: Log, now: int): Log {
    if log.expiresAt.Some? && log.expiresAt.value <= now then EMPTY else log
  }

  /** Removing the old entries; a sorted set left without entries is no longer a key, and loses its expiry. */
  function Pruned(log: Log, windowStart: int): Log {
    var left := set t | t in log.entries && !(0 <= t <= windowStart);
    if left == {} then EMPTY else Log(left, log.expiresAt)
  }

  /** The window size and the number of admissions it may hold (limit times burst). */
  datatype Limits = Limits(window: int, cap: int)

  predicate Admits(log: Log, now: int, l: Limits, f: Faults) {
    f.pipeline || |Pruned(Live(log, now), now - l.window).entries| < l.cap
  }

  function AfterAllow(log: Log, now: int, l: Limits, f: Faults): Log {
    if f.pipeline then Live(log, now)
    else
      var pruned := Pruned(Live(log, now), now - l.window);
      if |pruned.entries| >= l.cap then pruned
      else
        var added := if f.add then pruned else pruned.(entries := pruned.entries + {now});
        if f.expire || added.entries == {} then added else added.(expiresAt := Some(now + 2 * l.window))
  }

  class Limiter {
    const limits: Limits
    var keys: map<string, Log>

    constructor (limits: Limits)
      ensures this.limits == limits && keys == map[]
    {
      this.limits := limits;
      keys := map[];
    }

    ghost function LogOf(key: string): Log
      reads this
    {
      if key in keys then keys[key] else EMPTY
    }

    method Allow(key: string, now: int, f: Faults) returns (ok: bool)
      modifies this
      ensures ok == Admits(old(LogOf(key)), now, limits, f)
      ensures LogOf(key) == AfterAllow(old(LogOf(key)), now, limits, f)
      ensures forall k | k != key :: LogOf(k) == old(LogOf(k))
    {
      var log := if key in keys then keys[key] else EMPTY;
      log := Live(log, now);
      keys := keys[key := log];
      if f.pipeline {
        return true;
      }
      var windowStart := now - limits.window;
      log := Pruned(log, windowStart);
      keys := keys[key := log];
      if |log.entries| >= limits.cap {
        return false;
      }
      if !f.add {
        log := log.(entries := log.entries + {now});
      }
      if !f.expire && log.entries != {} {
        log := log.(expiresAt := Some(now + 2 * limits.window));
      }
      keys := keys[key := log];
      return true;
    }
  }

  /**
    * One call, whichever Redis calls fail. When the window cannot be read the request passes and nothing is recorded;
    * otherwise what was recorded in the last window decides, and an admission is recorded unless that very call fails.
    */
  lemma CallsFailOpen(log: Log, now: int, l: Limits, f: Faults)
    requires forall t | t in log.entries :: 0 <= t
    ensures var kept := if log.expiresAt.Some? && log.expiresAt.value <= now then {} else log.entries;
            var recent := set t | t in kept && now - l.window < t;
            if f.pipeline then Admits(log, now, l, f) && AfterAllow(log, now, l, f).entries == kept
            else && (Admits(log, now, l, f) <==> |recent| < l.cap)
                 && AfterAllow(log, now, l, f).entries == if |recent| < l.cap && !f.add then recent + {now} else recent
    ensures Admits(log, now, l, f) && !f.pipeline && !f.add && !f.expire ==>
              AfterAllow(log, now, l, f).expiresAt == Some(now + 2 * l.window)
  {
    var kept := if log.expiresAt.Some? && log.expiresAt.value <= now then {} else log.entries;
    assert Pruned(Live(log, now), now - l.window).entries == set t | t in kept && now - l.window < t;
  }

  // ---------- the specification: the times admitted so far ----------

  /** How many of the times lie in (from, to]. */
  function CountIn(times: seq<int>, from: int, to: int): nat {
    if times == [] then 0
    else CountIn(times[..|times| - 1], from, to) + if from < times[|times| - 1] <= to then 1 else 0
  }

  /** A sliding window without pruning or expiry: admit while the last window holds fewer than the cap. */
  function SpecAdmitted(times: seq<int>, l: Limits): seq<int> {
    if times == [] then []
    else
      var init, now := SpecAdmitted(times[..|times| - 1], l), times[|times| - 1];
      if CountIn(init, now - l.window, now) < l.cap then init + [now] else init
  }

  function LogAfter(times: seq<int>, l: Limits): Log {
    if times == [] then EMPTY else AfterAllow(LogAfter(times[..|times| - 1], l), times[|times| - 1], l, NO_FAULTS)
  }

  /** What the limiter admits of a sequence of requests. */
  function Admitted(times: seq<int>, l: Limits): seq<int> {
    if times == [] then []
    else
      var before, now := times[..|times| - 1], times[|times| - 1];
      if Admits(LogAfter(before, l), now, l, NO_FAULTS) then Admitted(before, l) + [now] else Admitted(before, l)
  }

  ghost predicate InOrder(times: seq<int>) {
    (forall i | 0 <= i < |times| :: 0 <= times[i]) && (forall i | 0 < i < |times| :: times[i - 1] <= times[i])
  }

  ghost predicate Strict(times: seq<int>) {
    InOrder(times) && forall i | 0 < i < |times| :: times[i - 1] < times[i]
  }

  // ---------- counting ----------

  function Within(times: seq<int>, from: int, to: int): set<int> {
    set t | t in times && from < t <= to
  }

  lemma {:induction false} LastIsLatest(times: seq<int>)
    requires Strict(times) && times != []
    ensures forall i | 0 <= i < |times| - 1 :: times[i] < times[|times| - 1]
    ensures Strict(times[..|times| - 1])
  {
    var init, last := times[..|times| - 1], times[|times| - 1];
    if init != [] {
      LastIsLatest(init);
      assert times[|init| - 1] < last;
      forall i | 0 <= i < |init| ensures times[i] < last {
        assert times[i] == init[i];
      }
    }
  }

  lemma {:induction false} DistinctTimesCount(times: seq<int>, from: int, to: int)
    requires Strict(times)
    ensures CountIn(times, from, to) == |Within(times, from, to)|
  {
    if times == [] {
      assert Within(times, from, to) == {};
    } else {
      hide Strict;
      var init, last := times[..|times| - 1], times[|times| - 1];
      LastIsLatest(times);
      DistinctTimesCount(init, from, to);
      assert last !in init;
      assert forall t :: t in times <==> t in init || t == last;
      if from < last <= to {
        assert Within(times, from, to) == Within(init, from, to) + {last};
      } else {
        assert Within(times, from, to) == Within(init, from, to);
      }
    }
  }

  // ---------- what the log holds ----------

  /** The log holds every admitted instant that can still matter, and no other; calls may share instants. */
  ghost predicate HoldsInstants(log: Log, admitted: seq<int>, last: int, l: Limits) {
    && (forall t | t in log.entries :: t in admitted)
    && (forall t | t in admitted && t > last - l.window :: t in log.entries)
    && (log.entries != {} ==> admitted != [] && log.expiresAt == Some(admitted[|admitted| - 1] + 2 * l.window))
    && InOrder(admitted)
    && UpTo(admitted, last)
  }

  lemma {:induction false} LastIsNotEarlier(times: seq<int>, i: nat)
    requires InOrder(times) && i < |times|
    ensures times[i] <= times[|times| - 1]
    decreases |times| - i
  {
    if i < |times| - 1 {
      LastIsNotEarlier(times, i + 1);
    }
  }

  lemma LiveInstants(log: Log, admitted: seq<int>, last: int, now: int, l: Limits)
    requires HoldsInstants(log, admitted, last, l) && last <= now && 0 < l.window
    ensures Pruned(Live(log, now), now - l.window).entries == Within(admitted, now - l.window, now)
    ensures HoldsInstants(Pruned(Live(log, now), now - l.window), admitted, now, l)
  {
    var pruned := Pruned(Live(log, now), now - l.window);
    forall t | t in Within(admitted, now - l.window, now)
      ensures t in pruned.entries
    {
      var i: nat :| i < |admitted| && admitted[i] == t;
      LastIsNotEarlier(admitted, i);
      assert t in log.entries;
    }
    forall t | t in pruned.entries
      ensures t in Within(admitted, now - l.window, now)
    {
      var i :| 0 <= i < |admitted| && admitted[i] == t;
    }
  }

  lemma AddingHolds(log: Log, admitted: seq<int>, now: int, l: Limits)
    requires HoldsInstants(log, admitted, now, l) && 0 <= now
    ensures HoldsInstants(Log(log.entries + {now}, Some(now + 2 * l.window)), admitted + [now], now, l)
  {
    var more := admitted + [now];
    assert forall t :: t in more <==> t in admitted || t == now;
    forall i | 0 < i < |more|
      ensures more[i - 1] <= more[i]
    {
      assert i < |admitted| ==> more[i - 1] == admitted[i - 1] && more[i] == admitted[i];
    }
  }

  lemma HoldsFacts(log: Log, admitted: seq<int>, last: int, now: int, l: Limits)
    requires HoldsInstants(log, admitted, last, l) && last <= now
    ensures InOrder(admitted) && UpTo(admitted, now)
  {}

  lemma AllowHolds(log: Log, admitted: seq<int>, last: int, now: int, l: Limits)
    requires HoldsInstants(log, admitted, last, l) && last <= now && 0 < l.window && 0 <= now
    ensures Admits(log, now, l, NO_FAULTS) <==> |Within(admitted, now - l.window, now)| < l.cap
    ensures HoldsInstants(AfterAllow(log, now, l, NO_FAULTS),
                          if Admits(log, now, l, NO_FAULTS) then admitted + [now] else admitted, now, l)
  {
    hide Live, Pruned, HoldsInstants, Admits, AfterAllow, Within;
    LiveInstants(log, admitted, last, now, l);
    AllowCases(log, now, l);
    if Admits(log, now, l, NO_FAULTS) {
      AddingHolds(Pruned(Live(log, now), now - l.window), admitted, now, l);
    }
  }

  lemma NoInstantsYet(now: int, l: Limits)
    ensures HoldsInstants(EMPTY, [], now, l)
  {}

  lemma AllowCases(log: Log, now: int, l: Limits)
    ensures var pruned := Pruned(Live(log, now), now - l.window);
            && (Admits(log, now, l, NO_FAULTS) <==> |pruned.entries| < l.cap)
            && AfterAllow(log, now, l, NO_FAULTS) == if Admits(log, now, l, NO_FAULTS)
               then Log(pruned.entries + {now}, Some(now + 2 * l.window)) else pruned
  {}

  lemma InitInOrder(times: seq<int>)
    requires InOrder(times) && times != []
    ensures var init, now := times[..|times| - 1], times[|times| - 1];
            && 0 <= now && InOrder(init) && (init != [] ==> init[|init| - 1] <= now)
            && (Strict(times) ==> Strict(init) && (init != [] ==> init[|init| - 1] < now))
  {}

  lemma {:induction false} RunHoldsInstants(times: seq<int>, l: Limits)
    requires InOrder(times) && 0 < l.window && times != []
    ensures HoldsInstants(LogAfter(times, l), Admitted(times, l), times[|times| - 1], l)
  {
    hide HoldsInstants, AfterAllow, Admits, InOrder;
    InitInOrder(times);
    var init, now := times[..|times| - 1], times[|times| - 1];
    var last := if init == [] then now else init[|init| - 1];
    if init == [] {
      NoInstantsYet(now, l);
    } else {
      RunHoldsInstants(init, l);
    }
    AllowHolds(LogAfter(init, l), Admitted(init, l), last, now, l);
  }

  /** One call of a run: it is admitted exactly when fewer than the cap of admitted instants lie in the last window. */
  lemma OneCall(times: seq<int>, l: Limits)
    requires InOrder(times) && 0 < l.window && times != []
    ensures var admitted, now := Admitted(times[..|times| - 1], l), times[|times| - 1];
            && InOrder(admitted) && UpTo(admitted, now)
            && Admitted(times, l)
               == if |Within(admitted, now - l.window, now)| < l.cap then admitted + [now] else admitted
  {
    hide AfterAllow, Admits, InOrder, UpTo, Within;
    InitInOrder(times);
    var init, now := times[..|times| - 1], times[|times| - 1];
    var last := if init == [] then now else init[|init| - 1];
    if init == [] {
      NoInstantsYet(now, l);
    } else {
      RunHoldsInstants(init, l);
    }
    HoldsFacts(LogAfter(init, l), Admitted(init, l), last, now, l);
    AllowHolds(LogAfter(init, l), Admitted(init, l), last, now, l);
  }

  // ---------- pruning and expiry are unobservable ----------

  lemma StrictExtends(times: seq<int>, now: int)
    requires Strict(times) && 0 <= now
    requires times != [] ==> times[|times| - 1] < now
    ensures Strict(times + [now])
  {
    var more := times + [now];
    forall i | 0 < i < |more| ensures more[i - 1] < more[i] {
      assert i < |times| ==> more[i - 1] == times[i - 1] && more[i] == times[i];
    }
  }

  /** At strictly increasing times, or with a cap of at most one, no instant is admitted twice. */
  lemma {:induction false} AdmittedIsStrict(times: seq<int>, l: Limits)
    requires InOrder(times) && 0 < l.window && (l.cap <= 1 || Strict(times))
    ensures Strict(Admitted(times, l))
    ensures Strict(times) ==> forall t | t in Admitted(times, l) :: t in times
  {
    hide InOrder, Strict, UpTo, Within, Admitted, SpecAdmitted;
    if times == [] {
      NothingAsked(l);
      NothingIsStrict();
    } else {
      InitInOrder(times);
      AdmittedIsStrict(times[..|times| - 1], l);
      OneCall(times, l);
      LastAdmission(times, l);
    }
  }

  lemma NothingIsStrict()
    ensures Strict([])
  {}

  lemma LastAdmission(times: seq<int>, l: Limits)
    requires InOrder(times) && times != [] && 0 < l.window && (l.cap <= 1 || Strict(times))
    requires var admitted := Admitted(times[..|times| - 1], l);
             && Strict(admitted) && UpTo(admitted, times[|times| - 1])
             && (Strict(times) ==> forall t | t in admitted :: t in times[..|times| - 1])
    ensures var admitted, now := Admitted(times[..|times| - 1], l), times[|times| - 1];
            |Within(admitted, now - l.window, now)| < l.cap ==> Strict(admitted + [now])
    ensures times[|times| - 1] in times
  {
    hide Admitted;
    var init, now := times[..|times| - 1], times[|times| - 1];
    var admitted := Admitted(init, l);
    if |Within(admitted, now - l.window, now)| < l.cap {
      if admitted != [] && admitted[|admitted| - 1] == now {
        assert now in admitted && now in Within(admitted, now - l.window, now);
        LastIsLatest(times);
        assert false;
      }
      StrictExtends(admitted, now);
    }
  }

  /**
    * Called at strictly increasing times, or with a cap of at most one, the limiter admits exactly what the plain
    * sliding window admits.
    */
  lemma {:induction false} PruningIsUnobservable(times: seq<int>, l: Limits)
    requires InOrder(times) && 0 < l.window && (l.cap <= 1 || Strict(times))
    ensures Admitted(times, l) == SpecAdmitted(times, l)
  {
    hide InOrder, Strict, UpTo, Within, CountIn, Admitted, SpecAdmitted;
    if times == [] {
      NothingAsked(l);
    } else {
      var init, now := times[..|times| - 1], times[|times| - 1];
      InitInOrder(times);
      PruningIsUnobservable(init, l);
      AdmittedIsStrict(init, l);
      OneCall(times, l);
      DistinctTimesCount(Admitted(init, l), now - l.window, now);
      SpecOneCall(times, l);
    }
  }

  lemma NothingAsked(l: Limits)
    ensures Admitted([], l) == SpecAdmitted([], l) == []
  {}

  lemma SpecOneCall(times: seq<int>, l: Limits)
    requires times != []
    ensures var admitted, now := SpecAdmitted(times[..|times| - 1], l), times[|times| - 1];
            SpecAdmitted(times, l)
            == if CountIn(admitted, now - l.window, now) < l.cap then admitted + [now] else admitted
  {
    hide CountIn;
  }

  function MaxAdmissions(l: Limits): nat {
    if l.cap < 0 then 0 else l.cap
  }

  // ---------- any order of calls: what is bounded is instants ----------

  lemma NothingWithin(from: int, to: int)
    ensures Within([], from, to) == {}
  {}

  /** One more admission, while fewer than the cap of instants lie in the last window, keeps every window within it. */
  lemma OneMoreInstant(admitted: seq<int>, now: int, l: Limits, to: int)
    requires 0 < l.window && UpTo(admitted, now) && |Within(admitted, now - l.window, now)| < l.cap
    requires |Within(admitted, to - l.window, to)| <= l.cap
    ensures |Within(admitted + [now], to - l.window, to)| <= l.cap
  {
    var more := Within(admitted + [now], to - l.window, to);
    if to - l.window < now <= to {
      var recent := Within(admitted, now - l.window, now);
      assert more <= recent + {now};
      SubsetIsSmaller(more, recent + {now});
      assert |recent + {now}| <= |recent| + 1;
    } else {
      assert more == Within(admitted, to - l.window, to);
    }
  }

  /**
    * For calls in any non-decreasing order, shared instants included, no window of that length ever holds admissions at
    * more than limit times burst different instants.
    */
  lemma {:induction false} InstantsAreBounded(times: seq<int>, l: Limits, to: int)
    requires InOrder(times) && 0 < l.window
    ensures |Within(Admitted(times, l), to - l.window, to)| <= MaxAdmissions(l)
  {
    hide InOrder, Within, UpTo, Admitted, SpecAdmitted;
    if times == [] {
      NothingAsked(l);
      NothingWithin(to - l.window, to);
    } else {
      InitInOrder(times);
      InstantsAreBounded(times[..|times| - 1], l, to);
      OneCall(times, l);
      var admitted, now := Admitted(times[..|times| - 1], l), times[|times| - 1];
      if |Within(admitted, now - l.window, now)| < l.cap {
        OneMoreInstant(admitted, now, l, to);
      }
    }
  }

  // ---------- the bound ----------

  ghost predicate UpTo(times: seq<int>, last: int) {
    forall i | 0 <= i < |times| :: times[i] <= last
  }

  /** How many of the calls admitted in the window that ends at `to`. */
  function WindowCount(times: seq<int>, l: Limits, to: int): nat {
    CountIn(Admitted(times, l), to - l.window, to)
  }

  ghost predicate WindowBoundHolds(l: Limits) {
    forall times, to | InOrder(times) :: WindowCount(times, l, to) <= MaxAdmissions(l)
  }

  /**
    * No window of that length ever holds more than the cap, when no two calls share an instant or the cap is at most
    * one: no instant is admitted twice then.
    */
  lemma WindowBound(times: seq<int>, l: Limits, to: int)
    requires InOrder(times) && 0 < l.window && (l.cap <= 1 || Strict(times))
    ensures WindowCount(times, l, to) <= MaxAdmissions(l)
  {
    hide Admitted, CountIn, Within;
    AdmittedIsStrict(times, l);
    DistinctTimesCount(Admitted(times, l), to - l.window, to);
    InstantsAreBounded(times, l, to);
  }

  /** k requests at the instant t. */
  function Instant(t: int, k: nat): seq<int> {
    seq(k, _ => t)
  }

  /** Requests at one instant share one sorted-set member: from a cap of 2 on, all of them get through. */
  lemma {:induction false} SameInstantUndercounts(l: Limits, k: nat)
    requires l.cap >= 2 && 0 < l.window
    ensures LogAfter(Instant(l.window, k), l) == if k == 0 then EMPTY else Log({l.window}, Some(3 * l.window))
    ensures Admitted(Instant(l.window, k), l) == Instant(l.window, k)
  {
    if k > 0 {
      SameInstantUndercounts(l, k - 1);
      var init := Instant(l.window, k - 1);
      assert Instant(l.window, k)[..k - 1] == init;
      SameInstantAgain(LogAfter(init, l), l);
      assert init + [l.window] == Instant(l.window, k);
    }
  }

  lemma SameInstantAgain(log: Log, l: Limits)
    requires l.cap >= 2 && 0 < l.window
    requires log == EMPTY || log == Log({l.window}, Some(3 * l.window))
    ensures Admits(log, l.window, l, NO_FAULTS)
    ensures AfterAllow(log, l.window, l, NO_FAULTS) == Log({l.window}, Some(3 * l.window))
  {
    var pruned := Pruned(Live(log, l.window), 0);
    assert pruned.entries == log.entries;
    assert |log.entries| <= 1;
    assert pruned.entries + {l.window} == {l.window};
  }

  lemma {:induction false} InstantCount(t: int, k: nat, from: int)
    requires from < t
    ensures CountIn(Instant(t, k), from, t) == k
  {
    if k > 0 {
      InstantCount(t, k - 1, from);
      assert Instant(t, k)[..k - 1] == Instant(t, k - 1);
    }
  }

  lemma InstantInOrder(t: nat, k: nat)
    ensures InOrder(Instant(t, k))
  {}

  /** If calls may share an instant, the bound holds for every sequence of calls exactly when the cap is at most one. */
  lemma WindowBoundIff(l: Limits)
    requires 0 < l.window
    ensures WindowBoundHolds(l) <==> l.cap <= 1
  {
    hide Admitted, CountIn, InOrder, LogAfter, Instant;
    if l.cap <= 1 {
      forall times, to | InOrder(times)
        ensures WindowCount(times, l, to) <= MaxAdmissions(l)
      {
        WindowBound(times, l, to);
      }
    } else {
      SameInstantUndercounts(l, l.cap + 1);
      var times := Instant(l.window, l.cap + 1);
      InstantCount(l.window, l.cap + 1, 0);
      assert InOrder(times) by { InstantInOrder(l.window, l.cap + 1); }
      var to := l.window;
      assert WindowCount(times, l, to) == l.cap + 1 by { assert to - l.window == 0; }
    }
  }
}
