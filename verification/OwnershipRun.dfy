/**
  * Runs of the ownership gate: the stored kind 39000 events decide who may write the next one.
  * The store holds one row per author, as an addressable store does, and answers queries in any order.
  */
module OwnershipRun {
  import opened Keys
  import opened Options
  import opened Ownership
  import opened ProofOfWork

  const QUERY_LIMIT: nat := 100

  /** The stored events of one d-tag, keyed by author. */
  type Rows = map<Pubkey, Event>

  ghost predicate Keyed(rows: Rows) {
    && (forall p | p in rows :: rows[p].pubkey == p)
    && (forall p, q | p in rows && q in rows && rows[p].id == rows[q].id :: p == q)
  }

  /** A query result: distinct stored events in some order, all of them unless there are more than the limit. */
  ghost predicate Answers(rows: Rows, events: seq<Event>) {
    && (forall e | e in events :: e.pubkey in rows && rows[e.pubkey] == e)
    && (forall i, j | 0 <= i < j < |events| :: events[i] != events[j])
    && |events| == if |rows| <= QUERY_LIMIT then |rows| else QUERY_LIMIT
  }

  /**
    * One accepted event, signed by a key: the gate read some answer and let it pass; the store kept it, or ignored
    * it as outdated.
    */
  ghost predicate Accept(prefix: string, rows: Rows, e: Event, rows': Rows) {
    && IsPubkey(e.pubkey)
    && (exists events :: Answers(rows, events)
          && !RejectExternalMetadata("", Store(events, []), NewFormat(prefix), KIND_GROUP_METADATA, e.pubkey))
    && (forall p | p in rows :: rows[p].id != e.id)
    && (rows' == rows[e.pubkey := e] || (e.pubkey in rows && rows' == rows))
  }

  function RowSuccessor(rows: Rows): Pubkey -> string {
    p => if p in rows then TagValue(rows[p].tags, TRANSFER_TO) else ""
  }

  function RowChain(rows: Rows, genesis: Pubkey): (chain: seq<Pubkey>)
    ensures chain != []
  {
    Chain(RowSuccessor(rows), [genesis], MAX_TRANSFER_DEPTH)
  }

  /** Every stored author lies on the current chain, and the chain starts with a stored event of the genesis owner. */
  ghost predicate Inv(genesis: Pubkey, rows: Rows) {
    && Keyed(rows)
    && (forall p | p in rows :: p in RowChain(rows, genesis))
    && (rows != map[] ==> genesis in rows)
  }

  // ---------- no more than 21 authors, so the query limit never truncates ----------

  lemma {:induction false} ElementsAtMostLength(path: seq<Pubkey>)
    ensures |set p | p in path| <= |path|
  {
    if path == [] {
      assert (set p | p in path) == {};
    } else {
      var init, last := path[..|path| - 1], path[|path| - 1];
      ElementsAtMostLength(init);
      assert (set p | p in path) == (set p | p in init) + {last};
    }
  }

  lemma AtMost21Authors(genesis: Pubkey, rows: Rows)
    requires Inv(genesis, rows)
    ensures |rows| <= MAX_TRANSFER_DEPTH + 1 < QUERY_LIMIT
  {
    var chain := RowChain(rows, genesis);
    ChainShape(RowSuccessor(rows), [genesis], MAX_TRANSFER_DEPTH);
    ElementsAtMostLength(chain);
    SubsetIsSmaller(rows.Keys, set p | p in chain);
  }

  lemma {:induction false} DistinctCount(events: seq<Event>)
    requires forall i, j | 0 <= i < j < |events| :: events[i] != events[j]
    requires forall e, f | e in events && f in events && e.pubkey == f.pubkey :: e == f
    ensures |set e | e in events :: e.pubkey| == |events|
  {
    if events != [] {
      var init, last := events[..|events| - 1], events[|events| - 1];
      DistinctCount(init);
      assert (set e | e in events :: e.pubkey) == (set e | e in init :: e.pubkey) + {last.pubkey};
      assert forall e | e in init :: e in events && e != last;
    } else {
      assert (set e | e in events :: e.pubkey) == {};
    }
  }

  /** Below the limit an answer holds every stored row. */
  lemma AnswerIsComplete(rows: Rows, events: seq<Event>)
    requires Answers(rows, events) && |rows| <= QUERY_LIMIT
    ensures forall p | p in rows :: rows[p] in events
  {
    DistinctCount(events);
    var authors := set e | e in events :: e.pubkey;
    SubsetIsSmaller(authors, rows.Keys);
    forall p | p in rows ensures rows[p] in events {
      assert p in authors;
    }
  }

  /** What the gate resolves from any answer is the end of the chain through the rows. */
  lemma AnswerResolves(prefix: string, genesis: Pubkey, rows: Rows, events: seq<Event>)
    requires Keyed(rows) && Answers(rows, events) && |rows| <= QUERY_LIMIT
    requires forall p | p in rows && MatchesPrefix(p, prefix) :: p == genesis
    requires MatchesPrefix(genesis, prefix)
    ensures ResolveOwner(NewFormat(prefix), events) ==
            if genesis in rows then Last(RowChain(rows, genesis)) else PREFIX_MARK + prefix
  {
    AnswerIsComplete(rows, events);
    GenesisFound(events, prefix, genesis);
    if genesis in rows {
      forall p ensures RowSuccessor(rows)(p) == SuccessorIn(events)(p) {
        LatestIsNewest(events, p);
      }
      ChainReadsItself(RowSuccessor(rows), SuccessorIn(events), [genesis], MAX_TRANSFER_DEPTH);
    }
  }

  // ---------- one accepted event ----------

  /** Following a chain to its end and then going on is following it all along. */
  lemma {:induction false} ChainResumes(next: Pubkey -> string, next': Pubkey -> string, path: seq<Pubkey>, hops: nat)
    requires path != [] && NoRepeats(path)
    requires var chain := Chain(next, path, hops);
             forall p | p in chain && p != Last(chain) :: next'(p) == next(p)
    ensures var chain := Chain(next, path, hops);
            |chain| - |path| <= hops && Chain(next', path, hops) == Chain(next', chain, hops - (|chain| - |path|))
    decreases hops
  {
    var chain := Chain(next, path, hops);
    ChainShape(next, path, hops);
    if hops > 0 {
      var successor := next(Last(path));
      if successor != "" && successor !in path {
        assert path[|path| - 1] == chain[|path| - 1] && chain[|path|] == successor by {
          assert path + [successor] <= chain;
        }
        assert Last(path) != Last(chain);
        ChainResumes(next, next', path + [successor], hops - 1);
      }
    }
  }

  /**
    * A new event of the current owner leaves the chain as it is or adds exactly one link, to the successor
    * that event names. Everything stored stays on the chain.
    */
  lemma OwnerWrites(genesis: Pubkey, rows: Rows, e: Event)
    requires Inv(genesis, rows)
    requires e.pubkey == Last(RowChain(rows, genesis))
    requires forall p | p in rows :: rows[p].id != e.id
    requires genesis in rows || e.pubkey == genesis
    ensures var rows', successor := rows[e.pubkey := e], TagValue(e.tags, TRANSFER_TO);
            && Inv(genesis, rows')
            && (RowChain(rows', genesis) == RowChain(rows, genesis)
                || (successor != "" && RowChain(rows', genesis) == RowChain(rows, genesis) + [successor]))
  {
    hide Chain, TagValue, Keyed;
    var rows' := rows[e.pubkey := e];
    KeyedAfterWrite(rows, e);
    ChainAfterWrite(genesis, rows, e);
    assert RowChain(rows, genesis) <= RowChain(rows', genesis);
    assert forall p | p in RowChain(rows, genesis) :: p in RowChain(rows', genesis);
  }

  lemma KeyedAfterWrite(rows: Rows, e: Event)
    requires Keyed(rows) && forall p | p in rows :: rows[p].id != e.id
    ensures Keyed(rows[e.pubkey := e])
  {}

  lemma ChainAfterWrite(genesis: Pubkey, rows: Rows, e: Event)
    requires forall p | p in rows :: p in RowChain(rows, genesis)
    requires e.pubkey == Last(RowChain(rows, genesis))
    ensures var rows', successor := rows[e.pubkey := e], TagValue(e.tags, TRANSFER_TO);
            || RowChain(rows', genesis) == RowChain(rows, genesis)
            || (successor != "" && RowChain(rows', genesis) == RowChain(rows, genesis) + [successor])
  {
    hide Chain, TagValue;
    var chain := RowChain(rows, genesis);
    var next, next' := RowSuccessor(rows), RowSuccessor(rows[e.pubkey := e]);
    ChainShape(next, [genesis], MAX_TRANSFER_DEPTH);
    ChainResumes(next, next', [genesis], MAX_TRANSFER_DEPTH);
    LastHop(next', chain, MAX_TRANSFER_DEPTH - (|chain| - 1));
  }

  /** From the end of the chain there is at most one more hop, when the new end has stored nothing yet. */
  lemma LastHop(next: Pubkey -> string, chain: seq<Pubkey>, hops: nat)
    requires chain != []
    requires next(Last(chain)) in chain || next(next(Last(chain))) == ""
    ensures var successor := next(Last(chain));
            Chain(next, chain, hops) == chain
            || (successor != "" && Chain(next, chain, hops) == chain + [successor])
  {
    var successor := next(Last(chain));
    if hops > 0 && successor != "" && successor !in chain {
      assert Last(chain + [successor]) == successor;
      assert Chain(next, chain + [successor], hops - 1) == chain + [successor];
    }
  }

  /** The stored transfers name no successor that reads as a prefix signal. */
  ghost predicate PlainTransfers(rows: Rows) {
    forall p | p in rows :: !ReadsAsPrefix(TagValue(rows[p].tags, TRANSFER_TO))
  }

  lemma OwnerIsPlain(prefix: string, genesis: Pubkey, rows: Rows)
    requires PlainTransfers(rows) && IsPubkey(genesis)
    ensures !ReadsAsPrefix(Last(RowChain(rows, genesis)))
  {
    ChainShape(RowSuccessor(rows), [genesis], MAX_TRANSFER_DEPTH);
    var chain := RowChain(rows, genesis);
    if |chain| > 1 {
      assert Last(chain) == RowSuccessor(rows)(chain[|chain| - 2]);
    }
  }

  /** What an accepted event does to the owner. */
  ghost predicate OwnerMoves(genesis: Pubkey, rows: Rows, e: Event, rows': Rows) {
    || Last(RowChain(rows', genesis)) == Last(RowChain(rows, genesis))
    || (Last(RowChain(rows', genesis)) == TagValue(e.tags, TRANSFER_TO)
        && RowChain(rows', genesis) == RowChain(rows, genesis) + [TagValue(e.tags, TRANSFER_TO)])
  }

  lemma AcceptKeepsInv(prefix: string, genesis: Pubkey, rows: Rows, e: Event, rows': Rows)
    requires MatchesPrefix(genesis, prefix) && IsPubkey(genesis)
    requires forall p | (p in rows || p == e.pubkey) && MatchesPrefix(p, prefix) :: p == genesis
    requires Inv(genesis, rows) && PlainTransfers(rows)
    requires Accept(prefix, rows, e, rows')
    ensures Inv(genesis, rows') && OwnerMoves(genesis, rows, e, rows')
    ensures e.pubkey == Last(RowChain(rows, genesis))
  {
    hide Chain, TagValue, Keyed;
    AcceptedIsOwner(prefix, genesis, rows, e, rows');
    OwnerWrites(genesis, rows, e);
  }

  lemma AcceptedIsOwner(prefix: string, genesis: Pubkey, rows: Rows, e: Event, rows': Rows)
    requires MatchesPrefix(genesis, prefix) && IsPubkey(genesis)
    requires forall p | (p in rows || p == e.pubkey) && MatchesPrefix(p, prefix) :: p == genesis
    requires Inv(genesis, rows) && PlainTransfers(rows)
    requires Accept(prefix, rows, e, rows')
    ensures e.pubkey == Last(RowChain(rows, genesis)) && (genesis in rows || e.pubkey == genesis)
  {
    hide Chain, TagValue, Keyed, ReadsAsPrefix, IsPubkey;
    AtMost21Authors(genesis, rows);
    var events :| Answers(rows, events)
      && !RejectExternalMetadata("", Store(events, []), NewFormat(prefix), KIND_GROUP_METADATA, e.pubkey);
    assert Keyed(rows);
    AnswerResolves(prefix, genesis, rows, events);
    if rows == map[] {
      assert (PREFIX_MARK + prefix)[7..] == prefix;
      EmptyChain(genesis);
    } else {
      OwnerIsPlain(prefix, genesis, rows);
      var owner := Last(RowChain(rows, genesis));
      if HasPrefix(owner, PREFIX_MARK) && MatchesPrefix(e.pubkey, owner[7..]) {
        MatchMeansPrefixSignal(owner, e.pubkey);
      }
    }
  }

  lemma EmptyChain(genesis: Pubkey)
    ensures RowChain(map[], genesis) == [genesis]
  {}

  // ---------- whole runs ----------

  /** A run from the empty store: states[i] becomes states[i + 1] by accepting events[i]. */
  ghost predicate Run(prefix: string, states: seq<Rows>, events: seq<Event>) {
    && |states| == |events| + 1
    && states[0] == map[]
    && forall i | 0 <= i < |events| :: Accept(prefix, states[i], events[i], states[i + 1])
  }

  /** The authors of the run match the prefix in one pubkey only, and no accepted event names a prefix signal. */
  ghost predicate WellFormed(prefix: string, genesis: Pubkey, events: seq<Event>) {
    && MatchesPrefix(genesis, prefix) && IsPubkey(genesis)
    && (forall i | 0 <= i < |events| && MatchesPrefix(events[i].pubkey, prefix) :: events[i].pubkey == genesis)
    && (forall i | 0 <= i < |events| :: !ReadsAsPrefix(TagValue(events[i].tags, TRANSFER_TO)))
  }

  lemma AcceptStores(prefix: string, rows: Rows, e: Event, rows': Rows)
    requires Accept(prefix, rows, e, rows')
    ensures rows' == rows[e.pubkey := e] || rows' == rows
  {}

  lemma {:induction false} RowsComeFromRun(prefix: string, states: seq<Rows>, events: seq<Event>, k: nat)
    requires Run(prefix, states, events) && k < |states|
    ensures forall p | p in states[k] :: exists i :: 0 <= i < k && events[i].pubkey == p && states[k][p] == events[i]
  {
    hide Accept;
    if k > 0 {
      RowsComeFromRun(prefix, states, events, k - 1);
      AcceptStores(prefix, states[k - 1], events[k - 1], states[k]);
      forall p | p in states[k]
        ensures exists i :: 0 <= i < k && events[i].pubkey == p && states[k][p] == events[i]
      {
        if p == events[k - 1].pubkey && states[k][p] == events[k - 1] {
        } else {
          assert p in states[k - 1] && states[k][p] == states[k - 1][p];
        }
      }
    }
  }

  /** What a well-formed run has stored, and stores next, meets the conditions of one accepted event. */
  lemma RunIsWellFormed(prefix: string, genesis: Pubkey, states: seq<Rows>, events: seq<Event>, k: nat)
    requires Run(prefix, states, events) && WellFormed(prefix, genesis, events) && k < |events|
    ensures MatchesPrefix(genesis, prefix) && IsPubkey(genesis)
    ensures forall p | (p in states[k] || p == events[k].pubkey) && MatchesPrefix(p, prefix) :: p == genesis
    ensures PlainTransfers(states[k])
    ensures Accept(prefix, states[k], events[k], states[k + 1])
  {
    hide Accept, MatchesPrefix, ReadsAsPrefix, IsPubkey, TagValue;
    RowsComeFromRun(prefix, states, events, k);
  }

  /**
    * In every gate-accepted run: all stored authors lie on the current chain, only the current owner writes,
    * each accepted event keeps the owner or moves it one hop to the successor it names, and there are never
    * more than 21 stored authors.
    */
  lemma {:induction false} OwnershipSafety(prefix: string, genesis: Pubkey, states: seq<Rows>, events: seq<Event>,
                                           k: nat)
    requires Run(prefix, states, events) && WellFormed(prefix, genesis, events) && k < |states|
    ensures Inv(genesis, states[k]) && |states[k]| <= 21
    ensures forall i | 0 <= i < k ::
              events[i].pubkey == Last(RowChain(states[i], genesis))
              && OwnerMoves(genesis, states[i], events[i], states[i + 1])
  {
    hide Accept, MatchesPrefix, ReadsAsPrefix, IsPubkey, PlainTransfers, WellFormed, Chain, TagValue, OwnerMoves;
    if k > 0 {
      OwnershipSafety(prefix, genesis, states, events, k - 1);
      RunIsWellFormed(prefix, genesis, states, events, k - 1);
      AcceptKeepsInv(prefix, genesis, states[k - 1], events[k - 1], states[k]);
    }
    AtMost21Authors(genesis, states[k]);
  }

  /** A former owner is never the owner again while the run goes on: chains only grow. */
  lemma {:induction false} ChainsOnlyGrow(prefix: string, genesis: Pubkey, states: seq<Rows>, events: seq<Event>,
                                          i: nat, k: nat)
    requires Run(prefix, states, events) && WellFormed(prefix, genesis, events) && i <= k < |states|
    ensures RowChain(states[i], genesis) <= RowChain(states[k], genesis)
    decreases k - i
  {
    hide Accept, MatchesPrefix, ReadsAsPrefix, IsPubkey, PlainTransfers, WellFormed, RowChain;
    if i < k {
      ChainsOnlyGrow(prefix, genesis, states, events, i, k - 1);
      OwnershipSafety(prefix, genesis, states, events, k - 1);
      RunIsWellFormed(prefix, genesis, states, events, k - 1);
      StepGrowsChain(prefix, genesis, states[k - 1], events[k - 1], states[k]);
    }
  }

  lemma StepGrowsChain(prefix: string, genesis: Pubkey, rows: Rows, e: Event, rows': Rows)
    requires MatchesPrefix(genesis, prefix) && IsPubkey(genesis)
    requires forall p | (p in rows || p == e.pubkey) && MatchesPrefix(p, prefix) :: p == genesis
    requires Inv(genesis, rows) && PlainTransfers(rows) && Accept(prefix, rows, e, rows')
    ensures RowChain(rows, genesis) <= RowChain(rows', genesis)
  {
    AcceptKeepsInv(prefix, genesis, rows, e, rows');
    if rows == map[] {
      EmptyChain(genesis);
    }
    OwnerWrites(genesis, rows, e);
  }

  // ---------- exactly which transfers keep ownership ----------

  lemma TransferRead(tags: seq<seq<string>>, successor: string)
    requires tags == [[TRANSFER_TO, successor]]
    ensures TagValue(tags, TRANSFER_TO) == successor
  {
    assert tags[0][1] == successor;
  }

  lemma OneHop(next: Pubkey -> string, genesis: Pubkey, successor: string)
    requires next(genesis) == successor && successor != "" && successor != genesis && next(successor) == ""
    ensures Chain(next, [genesis], MAX_TRANSFER_DEPTH) == [genesis, successor]
  {
    assert [genesis] + [successor] == [genesis, successor];
    assert Chain(next, [genesis, successor], MAX_TRANSFER_DEPTH - 1) == [genesis, successor];
  }

  lemma FirstAccepted(genesis: Pubkey, first: Event, prefix: string)
    requires MatchesPrefix(genesis, prefix) && IsPubkey(genesis) && first.pubkey == genesis
    ensures Accept(prefix, map[], first, map[genesis := first])
  {
    hide IsPubkey;
    var none: seq<Event> := [];
    assert (PREFIX_MARK + prefix)[7..] == prefix;
    assert Answers(map[], none);
    assert !RejectExternalMetadata("", Store(none, []), NewFormat(prefix), KIND_GROUP_METADATA, genesis);
  }

  /** Once the genesis owner has transferred to a prefix signal, that signal is the owner. */
  lemma SignalOwns(genesis: Pubkey, first: Event, signal: string)
    requires IsPubkey(genesis) && ReadsAsPrefix(signal)
    requires first.pubkey == genesis && first.tags == [[TRANSFER_TO, signal]]
    ensures RowChain(map[genesis := first], genesis) == [genesis, signal]
  {
    TransferRead(first.tags, signal);
    KeyIsNoPrefixSignal(genesis);
    OneHop(RowSuccessor(map[genesis := first]), genesis, signal);
  }

  /** And any key with its 16 digits is accepted next. */
  lemma MatchAccepted(genesis: Pubkey, author: Pubkey, first: Event, second: Event, prefix: string, signal: string)
    requires MatchesPrefix(genesis, prefix) && IsPubkey(genesis) && ReadsAsPrefix(signal)
    requires first.pubkey == genesis && first.tags == [[TRANSFER_TO, signal]] && first.id != second.id
    requires IsPubkey(author) && second.pubkey == author && MatchesPrefix(author, signal[7..])
    ensures Accept(prefix, map[genesis := first], second, map[genesis := first][author := second])
  {
    hide IsPubkey;
    var rows: Rows := map[genesis := first];
    SignalOwns(genesis, first, signal);
    PrefixSignalIsMarked(signal);
    var answer := [first];
    assert Answers(rows, answer);
    AnswerResolves(prefix, genesis, rows, answer);
    assert !RejectExternalMetadata("", Store(answer, []), NewFormat(prefix), KIND_GROUP_METADATA, author);
  }

  /** Every event of the run was written by the owner of its moment. */
  ghost predicate OwnersWrite(genesis: Pubkey, states: seq<Rows>, events: seq<Event>)
    requires |states| == |events| + 1
  {
    forall i | 0 <= i < |events| :: events[i].pubkey == Last(RowChain(states[i], genesis))
  }

  /** A run whose accepted transfers are all among the allowed values, and whose prefix one author matches. */
  ghost predicate AllowedRun(prefix: string, genesis: Pubkey, allowed: string -> bool,
                             states: seq<Rows>, events: seq<Event>) {
    && Run(prefix, states, events)
    && (forall i | 0 <= i < |events| && MatchesPrefix(events[i].pubkey, prefix) :: events[i].pubkey == genesis)
    && (forall i | 0 <= i < |events| :: allowed(TagValue(events[i].tags, TRANSFER_TO)))
  }

  ghost predicate AlwaysOwnersWrite(prefix: string, genesis: Pubkey, allowed: string -> bool) {
    forall states, events | AllowedRun(prefix, genesis, allowed, states, events) :: OwnersWrite(genesis, states, events)
  }

  /**
    * Two events that break ownership: the genesis owner transfers to the signal, and a key with its digits is stored
    * without being the owner - a stranger, or the genesis owner again when the digits are its own.
    */
  lemma SignalBreaksOwnership(prefix: string, genesis: Pubkey, signal: string)
    returns (states: seq<Rows>, events: seq<Event>)
    requires IsPubkey(genesis) && MatchesPrefix(genesis, prefix) && ReadsAsPrefix(signal)
    ensures Run(prefix, states, events) && |events| == 2 && !OwnersWrite(genesis, states, events)
    ensures forall i | 0 <= i < 2 :: TagValue(events[i].tags, TRANSFER_TO) == signal
    ensures events[0].pubkey == genesis
    ensures MatchesPrefix(events[1].pubkey, prefix) ==> events[1].pubkey == genesis
    ensures signal[7..] != prefix ==> events[1].pubkey !in RowChain(states[2], genesis)
  {
    hide IsPubkey, ReadsAsPrefix;
    PrefixSignalIsMarked(signal);
    var author := genesis;
    if signal[7..] != prefix {
      author := Impostor(signal);
    }
    var tags := [[TRANSFER_TO, signal]];
    var first, second := Event(1, genesis, 10, tags), Event(2, author, 11, tags);
    FirstAccepted(genesis, first, prefix);
    MatchAccepted(genesis, author, first, second, prefix, signal);
    SignalOwns(genesis, first, signal);
    TransferRead(tags, signal);
    KeyIsNoPrefixSignal(author);
    KeyIsNoPrefixSignal(genesis);
    var rows: Rows := map[genesis := first][author := second];
    states, events := [map[], map[genesis := first], rows], [first, second];
    assert events[1].pubkey != Last(RowChain(states[1], genesis));
    if signal[7..] != prefix {
      assert author != genesis;
      OneHop(RowSuccessor(rows), genesis, signal);
    }
  }

  /**
    * The exact condition on runs: whatever transfer values are let in, every event is written by the owner of its
    * moment in every run, if and only if none of the values is "prefix:" with 16 hexadecimal digits.
    */
  lemma OwnersWriteIff(prefix: string, genesis: Pubkey, allowed: string -> bool)
    requires IsPubkey(genesis) && MatchesPrefix(genesis, prefix)
    ensures AlwaysOwnersWrite(prefix, genesis, allowed) <==> forall x | allowed(x) :: !ReadsAsPrefix(x)
  {
    hide IsPubkey, ReadsAsPrefix, MatchesPrefix, Accept, OwnersWrite;
    if forall x | allowed(x) :: !ReadsAsPrefix(x) {
      forall states, events | AllowedRun(prefix, genesis, allowed, states, events)
        ensures OwnersWrite(genesis, states, events)
      {
        AllowedRunsKeepOwners(prefix, genesis, allowed, states, events);
      }
    } else {
      var x :| allowed(x) && ReadsAsPrefix(x);
      var states, events := SignalBreaksOwnership(prefix, genesis, x);
      assert AllowedRun(prefix, genesis, allowed, states, events);
    }
  }

  lemma AllowedRunsKeepOwners(prefix: string, genesis: Pubkey, allowed: string -> bool,
                              states: seq<Rows>, events: seq<Event>)
    requires IsPubkey(genesis) && MatchesPrefix(genesis, prefix) && forall x | allowed(x) :: !ReadsAsPrefix(x)
    requires AllowedRun(prefix, genesis, allowed, states, events)
    ensures OwnersWrite(genesis, states, events)
  {
    hide IsPubkey, ReadsAsPrefix, MatchesPrefix, Accept, OwnerMoves, RowChain;
    OwnershipSafety(prefix, genesis, states, events, |events|);
  }

  // ---------- groups with an older d-tag ----------

  /** The pubkeys that the tags name. */
  function Named(tags: seq<seq<string>>): set<string> {
    if tags == [] then {}
    else Named(tags[1..]) + if |tags[0]| >= 2 then {tags[0][1]} else {}
  }

  lemma {:induction false} NamedIsSmall(tags: seq<seq<string>>)
    ensures |Named(tags)| <= |tags|
  {
    if tags != [] {
      NamedIsSmall(tags[1..]);
    }
  }

  lemma {:induction false} NamedHoldsAll(tags: seq<seq<string>>, i: nat)
    requires i < |tags| && |tags[i]| >= 2
    ensures tags[i][1] in Named(tags)
  {
    if i > 0 {
      NamedHoldsAll(tags[1..], i - 1);
    }
  }

  lemma UnnamedIsNotListed(tags: seq<seq<string>>, pubkey: Pubkey)
    requires pubkey !in Named(tags)
    ensures !ListsAsMemberWriter(tags, pubkey)
  {
    forall i | 0 <= i < |tags| && |tags[i]| >= 2
      ensures tags[i][1] != pubkey
    {
      NamedHoldsAll(tags, i);
    }
  }

  /** No stored admin list has as many tags as there are keys, less two. */
  ghost predicate FewerTagsThanKeys(store: StoreView) {
    store.Store? ==> forall e | e in store.admins :: |e.tags| + 2 < Pow2(4 * KEY_LENGTH)
  }

  /** A key that differs from the relay's and begins with none of the given 16 characters. */
  lemma OtherStart(relayPubkey: Pubkey, start: string) returns (key: Pubkey)
    ensures IsPubkey(key) && key != relayPubkey && !MatchesPrefix(key, start)
  {
    var zero, one := seq(16, _ => '0'), seq(16, _ => '1');
    var z, z', o, o' := Padded(zero), Padded(zero + "1"), Padded(one), Padded(one + "1");
    assert z[16] == '0' && z'[16] == '1' && o[16] == '0' && o'[16] == '1';
    assert z[..16] == zero && z'[..16] == zero && o[..16] == one && o'[..16] == one && zero[0] != one[0];
    if start == zero {
      key := if o == relayPubkey then o' else o;
    } else {
      key := if z == relayPubkey then z' else z;
    }
  }

  /** A key that is none of these and that no tag names. */
  lemma Unlisted(relayPubkey: Pubkey, owner: string, tags: seq<seq<string>>) returns (key: Pubkey)
    requires |tags| + 2 < Pow2(4 * KEY_LENGTH)
    ensures IsPubkey(key) && key != relayPubkey && key != owner && !ListsAsMemberWriter(tags, key)
  {
    hide Pow2, IsPubkey;
    NamedIsSmall(tags);
    var avoid := Named(tags) + {relayPubkey} + {owner};
    assert |avoid| <= |tags| + 2;
    key := FreshKey(avoid);
    UnnamedIsNotListed(tags, key);
  }

  lemma ManyKeys()
    ensures 2 < Pow2(4 * KEY_LENGTH)
  {
    SmallPowers();
    Pow2Grows(4, 4 * KEY_LENGTH);
  }

  /** Some key other than the relay's is refused, whatever the store says. */
  lemma SomebodyIsRefused(relayPubkey: Pubkey, store: StoreView, kind: int) returns (stranger: Pubkey)
    requires IsGroupMetadataKind(kind) && !store.NoStore? && FewerTagsThanKeys(store)
    ensures IsPubkey(stranger) && stranger != relayPubkey
    ensures RejectExternalMetadata(relayPubkey, store, Legacy, kind, stranger)
  {
    hide Pow2, IsPubkey, ResolveOwner, ListsAsMemberWriter, MatchesPrefix;
    stranger := OtherStart(relayPubkey, "");
    if store.Store? {
      var owner := ResolveOwner(Legacy, store.metadata);
      if HasPrefix(owner, PREFIX_MARK) {
        stranger := OtherStart(relayPubkey, owner[7..]);
      } else {
        var latest := LatestFrom(store.admins, owner);
        LatestIsNewest(store.admins, owner);
        ManyKeys();
        assert latest.Some? ==> |latest.value.tags| + 2 < Pow2(4 * KEY_LENGTH);
        stranger := Unlisted(relayPubkey, owner, if latest.Some? then latest.value.tags else []);
      }
    }
  }

  /**
    * Groups with an older d-tag are documented as allowed through. For every metadata kind every key but the relay's is
    * let through exactly when the gate has no store to ask.
    */
  lemma LegacyAllowedIff(relayPubkey: Pubkey, store: StoreView, kind: int)
    requires IsGroupMetadataKind(kind) && FewerTagsThanKeys(store)
    ensures (forall p: Pubkey | IsPubkey(p) && p != relayPubkey ::
               !RejectExternalMetadata(relayPubkey, store, Legacy, kind, p))
            <==> store.NoStore?
  {
    hide IsPubkey;
    if !store.NoStore? {
      var stranger := SomebodyIsRefused(relayPubkey, store, kind);
    }
  }

  /**
    * Who does pass when the store has events: whoever the transfers lead to from the author of the oldest event, and
    * that owner's delegated admins for the member list - nobody while there is no event at all.
    */
  lemma LegacyPassesIff(relayPubkey: Pubkey, metadata: seq<Event>, admins: seq<Event>, kind: int, pubkey: Pubkey,
                        oldest: Event)
    requires IsGroupMetadataKind(kind) && IsPubkey(pubkey) && pubkey != relayPubkey
    requires UniqueIds(metadata) && SignedByKeys(admins)
    requires oldest in metadata && forall e | e in metadata :: !Newer(oldest, e)
    ensures var owner := Last(OwnerChain(metadata, oldest.pubkey));
            !ReadsAsPrefix(owner) ==>
              (!RejectExternalMetadata(relayPubkey, Store(metadata, admins), Legacy, kind, pubkey)
               <==> pubkey == owner
                    || (kind == KIND_GROUP_MEMBERS && IsDelegatedMemberWriter(admins, pubkey, owner)))
    ensures RejectExternalMetadata(relayPubkey, Store([], admins), Legacy, kind, pubkey)
  {
    EarliestIsFirst(metadata);
    assert oldest.id == Earliest(metadata).id;
    if !ReadsAsPrefix(Last(OwnerChain(metadata, oldest.pubkey))) {
      RulesHoldFor(Legacy, metadata, admins, kind, pubkey);
    }
  }
}
