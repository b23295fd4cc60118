/** A row of the claims table: the conditional INSERT, and who is the holder after any arrivals. */
module ArbiterClaims {
  import opened Options
  import SortSlice

  type TaskId = string

  /** Event ids are only ever compared, so any total order will do. */
  type EventId = nat

  datatype Claim = Claim(taskId: TaskId, eventId: EventId, claimant: string)

  datatype Row = Row(eventId: EventId, claimant: string, claimedAt: int)

  /** Milliseconds. */
  const DEFAULT_SETTLE_WINDOW: int := 10000

  /** The INSERT writes: nobody holds it yet, or a lower id meets a row that is younger than the window. */
  predicate Fires(row: Option<Row>, c: Claim, now: int, window: int) {
    row.None? || (row.value.eventId > c.eventId && row.value.claimedAt > now - window)
  }

  function Upsert(row: Option<Row>, c: Claim, now: int, window: int): Option<Row> {
    if Fires(row, c, now, window) then Some(Row(c.eventId, c.claimant, now)) else row
  }

  class ClaimStore {
    const settleWindow: int
    var rows: map<TaskId, Row>

    constructor (window: int)
      ensures rows == map[]
      ensures settleWindow == if window <= 0 then 10000 else window
    {
      settleWindow := if window <= 0 then DEFAULT_SETTLE_WINDOW else window;
      rows := map[];
    }

    ghost function RowOf(task: TaskId): Option<Row>
      reads this
    {
      if task in rows then Some(rows[task]) else None
    }

    /** The INSERT ... ON CONFLICT statement; None stands for "no rows returned". */
    method Insert(c: Claim, now: int) returns (holder: Option<EventId>)
      modifies this
      ensures RowOf(c.taskId) == Upsert(old(RowOf(c.taskId)), c, now, settleWindow)
      ensures forall t | t != c.taskId :: RowOf(t) == old(RowOf(t))
      ensures holder == if Fires(old(RowOf(c.taskId)), c, now, settleWindow) then Some(c.eventId) else None
    {
      if c.taskId !in rows {
        rows := rows[c.taskId := Row(c.eventId, c.claimant, now)];
        return Some(c.eventId);
      }
      var row := rows[c.taskId];
      if row.eventId > c.eventId && row.claimedAt > now - settleWindow {
        rows := rows[c.taskId := row.(eventId := c.eventId, claimant := c.claimant, claimedAt := now)];
        return Some(rows[c.taskId].eventId);
      }
      return None;
    }

    method HolderOf(task: TaskId) returns (holder: Option<EventId>)
      ensures holder == if RowOf(task).Some? then Some(RowOf(task).value.eventId) else None
    {
      if task in rows {
        return Some(rows[task].eventId);
      }
      return None;
    }
  }

  // ---------- the client-side tie-break ----------

  /** Sorts a copy by event id and takes its head. */
  method Winner(claims: seq<Claim>) returns (winner: Option<Claim>)
    ensures winner.None? <==> claims == []
    ensures winner.Some? ==> IsWinner(claims, winner.value)
  {
    if |claims| == 0 {
      return None;
    }
    var sorted := SortSlice.Sort(claims, (a: Claim, b: Claim) => a.eventId < b.eventId);
    HeadIsWinner(claims, sorted);
    return Some(sorted[0]);
  }

  predicate IsWinner(claims: seq<Claim>, c: Claim) {
    c in claims && forall d | d in claims :: c.eventId <= d.eventId
  }

  lemma HeadIsWinner(claims: seq<Claim>, sorted: seq<Claim>)
    requires claims != [] && multiset(sorted) == multiset(claims)
    requires SortSlice.IsSorted(sorted, (a: Claim, b: Claim) => a.eventId < b.eventId)
    ensures sorted != [] && IsWinner(claims, sorted[0])
  {
    assert |multiset(sorted)| == |multiset(claims)| == |claims|;
    forall d | d in claims
      ensures sorted[0].eventId <= d.eventId
    {
      assert d in multiset(sorted);
    }
    assert sorted[0] in multiset(claims);
  }

  // ---------- arrivals and successive holders ----------

  /** An INSERT that ran at that time. */
  datatype Arrival = Arrival(claim: Claim, at: int)

  ghost predicate InOrder(arrivals: seq<Arrival>) {
    forall i, j | 0 <= i < j < |arrivals| :: arrivals[i].at <= arrivals[j].at
  }

  /** The successive rows of a task id, oldest first. */
  function Holders(arrivals: seq<Arrival>, window: int): seq<Row> {
    if arrivals == [] then []
    else
      var init, last := arrivals[..|arrivals| - 1], arrivals[|arrivals| - 1];
      var before := Holders(init, window);
      if Fires(Current(before), last.claim, last.at, window)
      then before + [Row(last.claim.eventId, last.claim.claimant, last.at)]
      else before
  }

  function Current(holders: seq<Row>): Option<Row> {
    if holders == [] then None else Some(holders[|holders| - 1])
  }

  function Ids(arrivals: seq<Arrival>): set<EventId> {
    set a | a in arrivals :: a.claim.eventId
  }

  /** Each holder has a lower id than the one before, and came within a window of it. */
  ghost predicate Descending(h: seq<Row>, window: int) {
    forall i | 0 < i < |h| ::
      h[i].eventId < h[i - 1].eventId && h[i - 1].claimedAt <= h[i].claimedAt < h[i - 1].claimedAt + window
  }

  /** There is a holder from the first arrival on, and every change of holder is a step down within the window. */
  lemma {:induction false} HoldersDescend(arrivals: seq<Arrival>, window: int)
    requires InOrder(arrivals)
    ensures var h := Holders(arrivals, window);
            && Descending(h, window)
            && (h == [] <==> arrivals == [])
            && (h != [] ==> h[0].eventId == arrivals[0].claim.eventId && h[0].claimedAt == arrivals[0].at
                            && h[|h| - 1].claimedAt <= arrivals[|arrivals| - 1].at)
  {
    hide Descending;
    if arrivals == [] {
      assert Descending([], window) by { NobodyYet(window); }
    } else {
      var init, last := arrivals[..|arrivals| - 1], arrivals[|arrivals| - 1];
      HoldersDescend(init, window);
      var h := Holders(init, window);
      assert init != [] ==> arrivals[|init| - 1].at <= last.at;
      if Fires(Current(h), last.claim, last.at, window) {
        OneMoreHolder(h, Row(last.claim.eventId, last.claim.claimant, last.at), window);
      }
    }
  }

  lemma NobodyYet(window: int)
    ensures Descending([], window)
  {}

  lemma OneMoreHolder(h: seq<Row>, r: Row, window: int)
    requires Descending(h, window)
    requires h != [] ==> r.eventId < h[|h| - 1].eventId
    requires h != [] ==> h[|h| - 1].claimedAt <= r.claimedAt < h[|h| - 1].claimedAt + window
    ensures Descending(h + [r], window)
  {
    var h' := h + [r];
    forall i | 0 < i < |h'|
      ensures h'[i].eventId < h'[i - 1].eventId && h'[i - 1].claimedAt <= h'[i].claimedAt < h'[i - 1].claimedAt + window
    {
      assert i < |h| ==> h'[i] == h[i] && h'[i - 1] == h[i - 1];
    }
  }

  lemma {:induction false} HoldersAreClaims(arrivals: seq<Arrival>, window: int)
    ensures forall r | r in Holders(arrivals, window) :: r.eventId in Ids(arrivals)
  {
    if arrivals != [] {
      var init, last := arrivals[..|arrivals| - 1], arrivals[|arrivals| - 1];
      HoldersAreClaims(init, window);
      assert last in arrivals && last.claim.eventId in Ids(arrivals);
      forall id | id in Ids(init) ensures id in Ids(arrivals) {
        var a :| a in init && a.claim.eventId == id;
        assert a in arrivals;
      }
    }
  }

  lemma {:induction false} LaterIsLower(h: seq<Row>, window: int, i: nat, j: nat)
    requires Descending(h, window) && i < j < |h|
    ensures h[j].eventId < h[i].eventId && h[i].claimedAt <= h[j].claimedAt
  {
    if i < j - 1 {
      LaterIsLower(h, window, i, j - 1);
    }
  }

  lemma {:induction false} DescendingCount(h: seq<Row>, window: int, ids: set<EventId>)
    requires Descending(h, window)
    requires forall i | 0 <= i < |h| :: h[i].eventId in ids
    ensures |h| <= |ids|
  {
    if h != [] {
      var init, last := h[..|h| - 1], h[|h| - 1];
      forall i | 0 <= i < |init| ensures init[i].eventId in ids - {last.eventId} {
        LaterIsLower(h, window, i, |h| - 1);
      }
      DescendingCount(init, window, ids - {last.eventId});
    }
  }

  lemma {:induction false} TimesAddUp(h: seq<Row>, window: int, j: nat)
    requires Descending(h, window)
    requires 0 < j < |h|
    ensures h[j].claimedAt < h[0].claimedAt + j * window
  {
    if j > 1 {
      TimesAddUp(h, window, j - 1);
    }
  }

  /** k distinct ids displace the holder at most k-1 times, every time before first claim + (k-1) windows. */
  lemma DisplacementsAreBounded(arrivals: seq<Arrival>, window: int, j: nat)
    requires InOrder(arrivals) && 0 < window
    requires 0 < j < |Holders(arrivals, window)|
    ensures |Holders(arrivals, window)| - 1 <= |Ids(arrivals)| - 1
    ensures Holders(arrivals, window)[j].claimedAt < arrivals[0].at + (|Ids(arrivals)| - 1) * window
  {
    hide Holders, Descending, Ids;
    var h := Holders(arrivals, window);
    HoldersDescend(arrivals, window);
    HoldersAreClaims(arrivals, window);
    DescendingCount(h, window, Ids(arrivals));
    TimesAddUp(h, window, j);
  }

  /** A row that has stood for a full window is final: no later arrival changes it. */
  lemma {:induction false} FinalAfterWindow(arrivals: seq<Arrival>, more: seq<Arrival>, window: int)
    requires arrivals != [] && InOrder(arrivals)
    requires forall a | a in more :: a.at >= Current(Holders(arrivals, window)).value.claimedAt + window
    ensures Holders(arrivals, window) != []
    ensures Holders(arrivals + more, window) == Holders(arrivals, window)
  {
    HoldersDescend(arrivals, window);
    if more == [] {
      assert arrivals + more == arrivals;
    } else {
      var init, last := more[..|more| - 1], more[|more| - 1];
      FinalAfterWindow(arrivals, init, window);
      assert (arrivals + more)[..|arrivals + more| - 1] == arrivals + init;
      assert last in more;
    }
  }

  // ---------- agreement with the client-side tie-break ----------

  function Claims(arrivals: seq<Arrival>): seq<Claim> {
    if arrivals == [] then [] else Claims(arrivals[..|arrivals| - 1]) + [arrivals[|arrivals| - 1].claim]
  }

  lemma {:induction false} ClaimsAreThose(arrivals: seq<Arrival>)
    ensures forall c :: c in Claims(arrivals) <==> exists a :: a in arrivals && a.claim == c
  {
    if arrivals != [] {
      var init, last := arrivals[..|arrivals| - 1], arrivals[|arrivals| - 1];
      ClaimsAreThose(init);
      assert forall a | a in arrivals :: a in init || a == last;
      forall c | c in Claims(init) ensures exists a :: a in arrivals && a.claim == c {
        var a :| a in init && a.claim == c;
        assert a in arrivals;
      }
      assert last in arrivals;
    }
  }

  /** arrivals[i] is the first arrival of the lowest id. */
  ghost predicate FirstOfLowest(arrivals: seq<Arrival>, i: nat) {
    && i < |arrivals|
    && (forall a | a in arrivals :: arrivals[i].claim.eventId <= a.claim.eventId)
    && (forall j | 0 <= j < i :: arrivals[j].claim.eventId != arrivals[i].claim.eventId)
  }

  /** The table agrees with Winner exactly when the lowest claim's first INSERT fired. */
  lemma {:induction false} HolderIsWinnerIff(arrivals: seq<Arrival>, window: int, i: nat)
    requires InOrder(arrivals) && FirstOfLowest(arrivals, i)
    ensures Holders(arrivals, window) != []
    ensures Current(Holders(arrivals, window)).value.eventId == arrivals[i].claim.eventId
            <==> Fires(Current(Holders(arrivals[..i], window)), arrivals[i].claim, arrivals[i].at, window)
  {
    hide Descending, Ids;
    HoldersDescend(arrivals, window);
    var init, last := arrivals[..|arrivals| - 1], arrivals[|arrivals| - 1];
    HoldersDescend(init, window);
    if i == |arrivals| - 1 {
      if init != [] {
        CurrentIsClaimed(init, window);
      }
    } else {
      assert init[..i] == arrivals[..i];
      assert arrivals[i] == init[i];
      HolderIsWinnerIff(init, window, i);
      if !Fires(Current(Holders(arrivals[..i], window)), arrivals[i].claim, arrivals[i].at, window) {
        LowestBlockedStaysBlocked(init, window, i);
      }
    }
  }

  lemma CurrentIsClaimed(arrivals: seq<Arrival>, window: int)
    requires InOrder(arrivals) && arrivals != []
    ensures Holders(arrivals, window) != []
    ensures exists j :: 0 <= j < |arrivals|
              && arrivals[j].claim.eventId == Current(Holders(arrivals, window)).value.eventId
  {
    HoldersDescend(arrivals, window);
    HoldersAreClaims(arrivals, window);
    var id := Current(Holders(arrivals, window)).value.eventId;
    assert id in Ids(arrivals);
    var a :| a in arrivals && a.claim.eventId == id;
    var j :| 0 <= j < |arrivals| && arrivals[j] == a;
  }

  /** If the lowest claim found a row that was already final, that row stays. */
  lemma LowestBlockedStaysBlocked(arrivals: seq<Arrival>, window: int, i: nat)
    requires InOrder(arrivals) && FirstOfLowest(arrivals, i)
    requires !Fires(Current(Holders(arrivals[..i], window)), arrivals[i].claim, arrivals[i].at, window)
    ensures Holders(arrivals, window) == Holders(arrivals[..i], window)
    ensures Holders(arrivals, window) != []
    ensures Current(Holders(arrivals, window)).value.claimedAt + window <= arrivals[i].at
  {
    hide Descending, Ids;
    var before := arrivals[..i];
    HoldersDescend(before, window);
    CurrentIsClaimed(before, window);
    var more := arrivals[i..];
    assert forall a | a in more :: a.at >= arrivals[i].at;
    FinalAfterWindow(before, more, window);
    assert before + more == arrivals;
  }

  /** If every claim arrives less than one window after the first, the holder is the Winner, in any arrival order. */
  lemma HolderIsWinner(arrivals: seq<Arrival>, window: int, winner: Claim)
    requires InOrder(arrivals) && arrivals != []
    requires forall a | a in arrivals :: a.at < arrivals[0].at + window
    requires IsWinner(Claims(arrivals), winner)
    ensures Holders(arrivals, window) != []
    ensures Current(Holders(arrivals, window)).value.eventId == winner.eventId
  {
    ClaimsAreThose(arrivals);
    var i := FirstIndex(arrivals, winner.eventId);
    forall a | a in arrivals ensures winner.eventId <= a.claim.eventId {
      assert a.claim in Claims(arrivals);
    }
    HolderIsWinnerIff(arrivals, window, i);
    var before := arrivals[..i];
    HoldersDescend(before, window);
    if before != [] {
      CurrentIsClaimed(before, window);
      FirstHolderIsOldest(before, window);
      assert arrivals[i] in arrivals;
    }
  }

  lemma FirstHolderIsOldest(arrivals: seq<Arrival>, window: int)
    requires InOrder(arrivals) && arrivals != []
    ensures Holders(arrivals, window) != []
    ensures arrivals[0].at <= Current(Holders(arrivals, window)).value.claimedAt
  {
    HoldersDescend(arrivals, window);
    var h := Holders(arrivals, window);
    if |h| > 1 {
      LaterIsLower(h, window, 0, |h| - 1);
    }
  }

  lemma {:induction false} FirstIndex(arrivals: seq<Arrival>, id: EventId) returns (i: nat)
    requires exists a :: a in arrivals && a.claim.eventId == id
    ensures i < |arrivals| && arrivals[i].claim.eventId == id
    ensures forall j | 0 <= j < i :: arrivals[j].claim.eventId != id
  {
    i := 0;
    while arrivals[i].claim.eventId != id
      invariant i < |arrivals|
      invariant forall j | 0 <= j < i :: arrivals[j].claim.eventId != id
      decreases |arrivals| - i
    {
      if i + 1 == |arrivals| {
        assert forall j | 0 <= j < |arrivals| :: arrivals[j].claim.eventId != id;
        assert false;
      }
      i := i + 1;
    }
  }
}
