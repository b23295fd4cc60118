/** Who owns a group: the transfer chain through the stored kind 39000 events, and the gate built on it. */
module Ownership {
  import opened Keys
  import opened Options
  import SortSlice

  datatype Event = Event(id: nat, pubkey: Pubkey, createdAt: int, tags: seq<seq<string>>)

  /** A d-tag after pattern matching: no tag, one that embeds an owner prefix, or an older one without. */
  datatype DTag = Missing | NewFormat(prefix: string) | Legacy

  const MAX_TRANSFER_DEPTH: nat := 20
  const KIND_GROUP_METADATA: int := 39000
  const KIND_GROUP_MEMBERS: int := 39002
  const TRANSFER_TO: string := "transfer-to"

  // ---------- tags and latest events ----------

  /** The value of the first tag with that name, or "". */
  function TagValue(tags: seq<seq<string>>, name: string): string {
    if tags == [] then ""
    else if |tags[0]| >= 2 && tags[0][0] == name then tags[0][1]
    else TagValue(tags[1..], name)
  }

  /** What the value means: of the tags with two or more elements and that name, the first one's second element. */
  lemma {:induction false} TagValueIsTheFirst(tags: seq<seq<string>>, name: string)
    ensures || (TagValue(tags, name) == "" && forall i | 0 <= i < |tags| :: |tags[i]| < 2 || tags[i][0] != name)
            || (exists i :: 0 <= i < |tags| && |tags[i]| >= 2 && tags[i][0] == name
                            && TagValue(tags, name) == tags[i][1]
                            && forall j | 0 <= j < i :: |tags[j]| < 2 || tags[j][0] != name)
  {
    if tags != [] && !(|tags[0]| >= 2 && tags[0][0] == name) {
      var rest := tags[1..];
      TagValueIsTheFirst(rest, name);
      if exists i :: 0 <= i < |rest| && |rest[i]| >= 2 && rest[i][0] == name {
        var i :| 0 <= i < |rest| && |rest[i]| >= 2 && rest[i][0] == name && TagValue(rest, name) == rest[i][1]
                 && forall j | 0 <= j < i :: |rest[j]| < 2 || rest[j][0] != name;
        assert tags[i + 1] == rest[i];
        assert forall j | 0 <= j < i + 1 :: j == 0 || tags[j] == rest[j - 1];
      } else {
        assert forall i | 0 <= i < |tags| :: i == 0 || tags[i] == rest[i - 1];
      }
    }
  }

  /** The tags of that name that carry a value, in order. */
  function TagsNamed(tags: seq<seq<string>>, name: string): (named: seq<seq<string>>)
    ensures forall t | t in named :: |t| >= 2 && t[0] == name
  {
    if tags == [] then []
    else if |tags[0]| >= 2 && tags[0][0] == name then [tags[0]] + TagsNamed(tags[1..], name)
    else TagsNamed(tags[1..], name)
  }

  lemma {:induction false} TagValueReadsOneName(tags: seq<seq<string>>, name: string)
    ensures TagValue(tags, name) == if TagsNamed(tags, name) == [] then "" else TagsNamed(tags, name)[0][1]
  {
    if tags != [] {
      TagValueReadsOneName(tags[1..], name);
    }
  }

  predicate Newer(a: Event, b: Event) {
    a.createdAt > b.createdAt || (a.createdAt == b.createdAt && a.id > b.id)
  }

  predicate UniqueIds(events: seq<Event>) {
    forall e, f | e in events && f in events && e.id == f.id :: e == f
  }

  function LatestFrom(events: seq<Event>, pubkey: Pubkey): Option<Event> {
    if events == [] then None
    else
      var last := events[|events| - 1];
      var rest := LatestFrom(events[..|events| - 1], pubkey);
      if last.pubkey == pubkey && (rest.None? || Newer(last, rest.value)) then Some(last) else rest
  }

  /** What LatestFrom means: an event of that author that no other event of the author is newer than. */
  lemma {:induction false} LatestIsNewest(events: seq<Event>, pubkey: Pubkey)
    ensures var r := LatestFrom(events, pubkey);
            && (r.None? <==> forall e | e in events :: e.pubkey != pubkey)
            && (r.Some? ==> r.value in events && r.value.pubkey == pubkey
                            && forall e | e in events && e.pubkey == pubkey ::
                                 e.createdAt < r.value.createdAt
                                 || (e.createdAt == r.value.createdAt && e.id <= r.value.id))
  {
    if events != [] {
      var init, last := events[..|events| - 1], events[|events| - 1];
      LatestIsNewest(init, pubkey);
      assert forall e | e in events :: e in init || e == last;
      assert forall e | e in init :: e in events;
    }
  }

  /** With unique ids the newest event is determined by the set of events alone. */
  lemma LatestIsUnique(events: seq<Event>, pubkey: Pubkey, e: Event)
    requires UniqueIds(events)
    requires e in events && e.pubkey == pubkey
    requires forall f | f in events && f.pubkey == pubkey :: !Newer(f, e)
    ensures LatestFrom(events, pubkey) == Some(e)
  {
    LatestIsNewest(events, pubkey);
    assert LatestFrom(events, pubkey).value.id == e.id;
  }

  method GetTagValue(event: Event, name: string) returns (value: string)
    ensures value == TagValue(event.tags, name)
    ensures || (value == "" && forall i | 0 <= i < |event.tags| :: |event.tags[i]| < 2 || event.tags[i][0] != name)
            || (exists i :: 0 <= i < |event.tags| && |event.tags[i]| >= 2 && event.tags[i][0] == name
                            && value == event.tags[i][1]
                            && forall j | 0 <= j < i :: |event.tags[j]| < 2 || event.tags[j][0] != name)
  {
    TagValueIsTheFirst(event.tags, name);
    for i := 0 to |event.tags|
      invariant TagValue(event.tags, name) == TagValue(event.tags[i..], name)
    {
      if |event.tags[i]| >= 2 && event.tags[i][0] == name {
        return event.tags[i][1];
      }
    }
    return "";
  }

  /** Collects the author's events, sorts them newest first and takes the head of the sorted slice. */
  method LatestEventFrom(events: seq<Event>, pubkey: Pubkey) returns (latest: Option<Event>)
    requires UniqueIds(events)
    ensures latest == LatestFrom(events, pubkey)
  {
    var candidates := [];
    for i := 0 to |events|
      invariant forall e :: e in candidates <==> e in events[..i] && e.pubkey == pubkey
    {
      if events[i].pubkey == pubkey {
        candidates := candidates + [events[i]];
      }
    }
    LatestIsNewest(events, pubkey);
    if |candidates| == 0 {
      assert forall e | e in events :: e.pubkey != pubkey;
      return None;
    }
    var sorted := SortSlice.Sort(candidates, (a: Event, b: Event) => Newer(a, b));
    HeadIsNewest(candidates, sorted);
    LatestIsUnique(events, pubkey, sorted[0]);
    return Some(sorted[0]);
  }

  lemma HeadIsNewest(candidates: seq<Event>, sorted: seq<Event>)
    requires candidates != [] && multiset(sorted) == multiset(candidates)
    requires SortSlice.IsSorted(sorted, (a: Event, b: Event) => Newer(a, b))
    ensures sorted != [] && sorted[0] in candidates
    ensures forall e | e in candidates :: !Newer(e, sorted[0])
  {
    assert |multiset(sorted)| == |multiset(candidates)| == |candidates|;
    forall e | e in candidates
      ensures !Newer(e, sorted[0])
    {
      assert e in multiset(sorted);
    }
    assert sorted[0] in multiset(candidates);
  }

  // ---------- the transfer chain ----------

  /** Where an author passes ownership on to, "" for nowhere. */
  function Successor(events: seq<Event>, pubkey: Pubkey): string {
    match LatestFrom(events, pubkey)
    case None => ""
    case Some(e) => TagValue(e.tags, TRANSFER_TO)
  }

  function Last(path: seq<Pubkey>): Pubkey
    requires path != []
  {
    path[|path| - 1]
  }

  /** The walk: hop to the named successor until there is none, it was visited, or the hops run out. */
  function Chain(next: Pubkey -> string, path: seq<Pubkey>, hops: nat): (chain: seq<Pubkey>)
    requires path != []
    ensures path <= chain
    decreases hops
  {
    if hops == 0 then path
    else
      var successor := next(Last(path));
      if successor == "" || successor in path then path
      else Chain(next, path + [successor], hops - 1)
  }

  function SuccessorIn(events: seq<Event>): Pubkey -> string {
    p => Successor(events, p)
  }

  function OwnerChain(events: seq<Event>, genesis: Pubkey): (chain: seq<Pubkey>)
    ensures chain != []
  {
    Chain(SuccessorIn(events), [genesis], MAX_TRANSFER_DEPTH)
  }

  ghost predicate NoRepeats(path: seq<Pubkey>) {
    forall i, j | 0 <= i < j < |path| :: path[i] != path[j]
  }

  /** The walk visits no pubkey twice, takes at most its hops, and every link is a signed transfer. */
  lemma {:induction false} ChainShape(next: Pubkey -> string, path: seq<Pubkey>, hops: nat)
    requires path != [] && NoRepeats(path)
    ensures var chain := Chain(next, path, hops);
            && NoRepeats(chain)
            && |chain| <= |path| + hops
            && forall i | |path| <= i < |chain| :: chain[i] == next(chain[i - 1]) && chain[i] != ""
    decreases hops
  {
    if hops > 0 {
      var successor := next(Last(path));
      if successor != "" && successor !in path {
        var longer := path + [successor];
        ChainShape(next, longer, hops - 1);
        var chain := Chain(next, longer, hops - 1);
        assert chain[|path|] == longer[|path|] && chain[|path| - 1] == longer[|path| - 1];
      }
    }
  }

  /** And it stops for one of three reasons only: its hops are used up, nobody is named, or a visited pubkey is. */
  lemma {:induction false} ChainGoesOn(next: Pubkey -> string, path: seq<Pubkey>, hops: nat)
    requires path != []
    ensures var chain := Chain(next, path, hops);
            |chain| == |path| + hops || next(Last(chain)) == "" || next(Last(chain)) in chain
    decreases hops
  {
    if hops > 0 {
      var successor := next(Last(path));
      if successor != "" && successor !in path {
        ChainGoesOn(next, path + [successor], hops - 1);
      }
    }
  }

  /** The owner of a group: the end of a chain of signed transfers, cut at 20 of them. */
  lemma OwnerEndsTheChain(events: seq<Event>, genesis: Pubkey)
    ensures var chain := OwnerChain(events, genesis);
            && chain[0] == genesis && |chain| <= 21
            && (forall i | 0 < i < |chain| :: chain[i] == Successor(events, chain[i - 1]))
            && (|chain| == 21 || Successor(events, Last(chain)) == "" || Successor(events, Last(chain)) in chain)
  {
    hide Successor;
    ChainShape(SuccessorIn(events), [genesis], MAX_TRANSFER_DEPTH);
    ChainGoesOn(SuccessorIn(events), [genesis], MAX_TRANSFER_DEPTH);
  }

  /** The walk only reads the successors of the pubkeys it visits. */
  lemma {:induction false} ChainReadsItself(next: Pubkey -> string, next': Pubkey -> string, path: seq<Pubkey>,
                                            hops: nat)
    requires path != []
    requires forall p | p in Chain(next, path, hops) :: next(p) == next'(p)
    ensures Chain(next', path, hops) == Chain(next, path, hops)
    decreases hops
  {
    assert Last(path) == Chain(next, path, hops)[|path| - 1];
    if hops > 0 {
      var successor := next(Last(path));
      if successor != "" && successor !in path {
        ChainReadsItself(next, next', path + [successor], hops - 1);
      }
    }
  }

  method WalkTransferChain(events: seq<Event>, genesis: Pubkey) returns (owner: Pubkey)
    requires UniqueIds(events)
    ensures owner == Last(OwnerChain(events, genesis))
  {
    hide LatestFrom, TagValue, UniqueIds;
    owner := genesis;
    var visited := {genesis};
    ghost var path := [genesis];
    var depth := 0;
    while depth < MAX_TRANSFER_DEPTH
      invariant depth <= MAX_TRANSFER_DEPTH
      invariant path != [] && owner == Last(path)
      invariant forall p :: p in visited <==> p in path
      invariant OwnerChain(events, genesis) == Chain(SuccessorIn(events), path, MAX_TRANSFER_DEPTH - depth)
    {
      var latest := LatestEventFrom(events, owner);
      if latest.None? {
        return;
      }
      var successor := GetTagValue(latest.value, TRANSFER_TO);
      if successor == "" {
        return;
      }
      if successor in visited {
        return;
      }
      visited := visited + {successor};
      owner := successor;
      path := path + [successor];
      depth := depth + 1;
    }
  }

  // ---------- resolving the owner ----------

  predicate MatchesPrefix(pubkey: Pubkey, prefix: string) {
    |pubkey| >= 16 && pubkey[..16] == prefix
  }

  function GenesisByPrefix(events: seq<Event>, prefix: string): Option<Pubkey> {
    if events == [] then None
    else if MatchesPrefix(events[0].pubkey, prefix) then Some(events[0].pubkey)
    else GenesisByPrefix(events[1..], prefix)
  }

  function Earliest(events: seq<Event>): Event
    requires events != []
  {
    if |events| == 1 then events[0]
    else
      var last := events[|events| - 1];
      var rest := Earliest(events[..|events| - 1]);
      if last.createdAt < rest.createdAt || (last.createdAt == rest.createdAt && last.id < rest.id) then last else rest
  }

  method EarliestEvent(events: seq<Event>) returns (earliest: Event)
    requires events != []
    ensures earliest == Earliest(events)
  {
    earliest := events[0];
    for i := 1 to |events|
      invariant earliest == Earliest(events[..i])
    {
      assert events[..i + 1][..i] == events[..i];
      var evt := events[i];
      if evt.createdAt < earliest.createdAt {
        earliest := evt;
      } else if evt.createdAt == earliest.createdAt && evt.id < earliest.id {
        earliest := evt;
      }
    }
    assert events[..|events|] == events;
  }

  const PREFIX_MARK: string := "prefix:"

  /** The resolved owner; "" when there is none, "prefix:..." while only the d-tag's prefix is known. */
  function ResolveOwner(dTag: DTag, events: seq<Event>): string
    requires !dTag.Missing?
  {
    match dTag
    case NewFormat(prefix) =>
      (match GenesisByPrefix(events, prefix)
       case None => PREFIX_MARK + prefix
       case Some(genesis) => Last(OwnerChain(events, genesis)))
    case Legacy =>
      if events == [] then "" else Last(OwnerChain(events, Earliest(events).pubkey))
  }

  // ---------- what the owner does not depend on ----------

  predicate SameEvents(a: seq<Event>, b: seq<Event>) {
    (forall e | e in a :: e in b) && (forall e | e in b :: e in a)
  }

  /** At most one author matches the prefix. */
  predicate PrefixNames(events: seq<Event>, prefix: string, genesis: Pubkey) {
    forall e | e in events && MatchesPrefix(e.pubkey, prefix) :: e.pubkey == genesis
  }

  /** Should several pubkeys match the prefix, the first event of the answer decides. */
  lemma {:induction false} GenesisIsTheFirst(events: seq<Event>, prefix: string)
    ensures match GenesisByPrefix(events, prefix)
            case None => forall i | 0 <= i < |events| :: |events[i].pubkey| < 16 || events[i].pubkey[..16] != prefix
            case Some(genesis) =>
              exists i :: 0 <= i < |events| && events[i].pubkey == genesis
                && |genesis| >= 16 && genesis[..16] == prefix
                && forall j | 0 <= j < i :: |events[j].pubkey| < 16 || events[j].pubkey[..16] != prefix
  {
    if events != [] && !MatchesPrefix(events[0].pubkey, prefix) {
      var rest := events[1..];
      GenesisIsTheFirst(rest, prefix);
      if genesis :| GenesisByPrefix(rest, prefix) == Some(genesis) {
        var i :| 0 <= i < |rest| && rest[i].pubkey == genesis && |genesis| >= 16 && genesis[..16] == prefix
                 && forall j | 0 <= j < i :: |rest[j].pubkey| < 16 || rest[j].pubkey[..16] != prefix;
        assert events[i + 1] == rest[i];
        assert forall j | 0 <= j < i + 1 :: j == 0 || events[j] == rest[j - 1];
      } else {
        assert forall i | 0 <= i < |events| :: i == 0 || events[i] == rest[i - 1];
      }
    }
  }

  lemma {:induction false} GenesisFound(events: seq<Event>, prefix: string, genesis: Pubkey)
    requires PrefixNames(events, prefix, genesis)
    ensures GenesisByPrefix(events, prefix) ==
            if exists e :: e in events && MatchesPrefix(e.pubkey, prefix) then Some(genesis) else None
  {
    if events != [] {
      assert events[0] in events;
      assert forall e | e in events[1..] :: e in events;
      assert forall e | e in events :: e == events[0] || e in events[1..];
      GenesisFound(events[1..], prefix, genesis);
    }
  }

  lemma {:induction false} EarliestIsFirst(events: seq<Event>)
    requires events != []
    ensures Earliest(events) in events
    ensures forall e | e in events ::
              Earliest(events).createdAt < e.createdAt
              || (Earliest(events).createdAt == e.createdAt && Earliest(events).id <= e.id)
  {
    if |events| > 1 {
      var init, last := events[..|events| - 1], events[|events| - 1];
      EarliestIsFirst(init);
      assert forall e | e in events :: e in init || e == last;
    }
  }

  lemma SameLatest(a: seq<Event>, b: seq<Event>, p: Pubkey)
    requires SameEvents(a, b) && UniqueIds(a)
    ensures LatestFrom(a, p) == LatestFrom(b, p)
  {
    LatestIsNewest(a, p);
    LatestIsNewest(b, p);
    if LatestFrom(b, p).Some? {
      LatestIsUnique(a, p, LatestFrom(b, p).value);
    }
  }

  /** The order in which the query returns the events does not matter. */
  lemma OwnerIgnoresOrder(dTag: DTag, a: seq<Event>, b: seq<Event>, genesis: Pubkey)
    requires !dTag.Missing? && SameEvents(a, b) && UniqueIds(a)
    requires dTag.NewFormat? ==> PrefixNames(a, dTag.prefix, genesis)
    ensures ResolveOwner(dTag, a) == ResolveOwner(dTag, b)
  {
    forall g ensures OwnerChain(a, g) == OwnerChain(b, g) {
      forall p ensures SuccessorIn(a)(p) == SuccessorIn(b)(p) {
        SameLatest(a, b, p);
      }
      ChainReadsItself(SuccessorIn(a), SuccessorIn(b), [g], MAX_TRANSFER_DEPTH);
    }
    match dTag
    case NewFormat(prefix) =>
      GenesisFound(a, prefix, genesis);
      GenesisFound(b, prefix, genesis);
    case Legacy =>
      assert a == [] <==> b == [] by {
        if a != [] { assert a[0] in b; }
        if b != [] { assert b[0] in a; }
      }
      if a != [] {
        EarliestIsFirst(a);
        EarliestIsFirst(b);
        assert Earliest(a).id == Earliest(b).id;
      }
  }

  /** The same events, up to tags that are not transfers: any number of other tags may be added, dropped or changed. */
  ghost predicate SameTransfers(a: seq<Event>, b: seq<Event>) {
    && |a| == |b|
    && forall i | 0 <= i < |a| ::
         && a[i].id == b[i].id && a[i].pubkey == b[i].pubkey && a[i].createdAt == b[i].createdAt
         && TagsNamed(a[i].tags, "transfer-to") == TagsNamed(b[i].tags, "transfer-to")
  }

  lemma {:induction false} LatestOfSameTransfers(a: seq<Event>, b: seq<Event>, p: Pubkey)
    requires SameTransfers(a, b)
    ensures LatestFrom(a, p).None? == LatestFrom(b, p).None?
    ensures LatestFrom(a, p).Some? ==>
              var e, f := LatestFrom(a, p).value, LatestFrom(b, p).value;
              e.id == f.id && e.createdAt == f.createdAt
              && TagsNamed(e.tags, "transfer-to") == TagsNamed(f.tags, "transfer-to")
  {
    hide TagsNamed;
    if a != [] {
      assert SameTransfers(a[..|a| - 1], b[..|b| - 1]);
      LatestOfSameTransfers(a[..|a| - 1], b[..|b| - 1], p);
    }
  }

  lemma {:induction false} EarliestOfSameTransfers(a: seq<Event>, b: seq<Event>)
    requires SameTransfers(a, b) && a != []
    ensures Earliest(a).id == Earliest(b).id && Earliest(a).createdAt == Earliest(b).createdAt
    ensures Earliest(a).pubkey == Earliest(b).pubkey
  {
    hide TagsNamed;
    if |a| > 1 {
      assert SameTransfers(a[..|a| - 1], b[..|b| - 1]);
      EarliestOfSameTransfers(a[..|a| - 1], b[..|b| - 1]);
    }
  }

  lemma {:induction false} GenesisOfSameTransfers(a: seq<Event>, b: seq<Event>, prefix: string)
    requires SameTransfers(a, b)
    ensures GenesisByPrefix(a, prefix) == GenesisByPrefix(b, prefix)
  {
    hide TagsNamed;
    if a != [] {
      assert SameTransfers(a[1..], b[1..]);
      GenesisOfSameTransfers(a[1..], b[1..], prefix);
    }
  }

  /** The owner depends on no tag but the transfers: names, pictures and the d-tag itself never move ownership. */
  lemma OwnerReadsTransfersOnly(dTag: DTag, a: seq<Event>, b: seq<Event>)
    requires !dTag.Missing? && SameTransfers(a, b)
    ensures ResolveOwner(dTag, a) == ResolveOwner(dTag, b)
  {
    hide SameTransfers, TagsNamed, LatestFrom, Earliest, GenesisByPrefix, Chain;
    forall p ensures SuccessorIn(a)(p) == SuccessorIn(b)(p) {
      LatestOfSameTransfers(a, b, p);
      if LatestFrom(a, p).Some? {
        TagValueReadsOneName(LatestFrom(a, p).value.tags, TRANSFER_TO);
        TagValueReadsOneName(LatestFrom(b, p).value.tags, TRANSFER_TO);
      }
    }
    forall g ensures OwnerChain(a, g) == OwnerChain(b, g) {
      ChainReadsItself(SuccessorIn(a), SuccessorIn(b), [g], MAX_TRANSFER_DEPTH);
    }
    match dTag
    case NewFormat(prefix) => GenesisOfSameTransfers(a, b, prefix);
    case Legacy =>
      SameLength(a, b);
      if a != [] {
        EarliestOfSameTransfers(a, b);
      }
  }

  lemma SameLength(a: seq<Event>, b: seq<Event>)
    requires SameTransfers(a, b)
    ensures |a| == |b|
  {}

  /** Keeping only each author's latest event, as an addressable store does, leaves the owner unchanged. */
  lemma OwnerNeedsOnlyLatest(a: seq<Event>, b: seq<Event>, prefix: string, genesis: Pubkey)
    requires UniqueIds(a) && PrefixNames(a, prefix, genesis)
    requires forall e | e in b :: e in a
    requires forall p | LatestFrom(a, p).Some? :: LatestFrom(a, p).value in b
    ensures ResolveOwner(NewFormat(prefix), a) == ResolveOwner(NewFormat(prefix), b)
  {
    forall p ensures SuccessorIn(a)(p) == SuccessorIn(b)(p) {
      LatestIsNewest(a, p);
      LatestIsNewest(b, p);
      if LatestFrom(a, p).Some? {
        LatestIsUnique(b, p, LatestFrom(a, p).value);
      }
    }
    GenesisFound(a, prefix, genesis);
    GenesisFound(b, prefix, genesis);
    forall e | e in a && MatchesPrefix(e.pubkey, prefix)
      ensures exists f :: f in b && MatchesPrefix(f.pubkey, prefix)
    {
      LatestIsNewest(a, e.pubkey);
      assert LatestFrom(a, e.pubkey).value in b;
    }
    ChainReadsItself(SuccessorIn(a), SuccessorIn(b), [genesis], MAX_TRANSFER_DEPTH);
  }

  /** Events of authors who are not on the chain cannot change the owner, wherever the query places them. */
  lemma OwnerIgnoresOutsiders(a: seq<Event>, b: seq<Event>, prefix: string, genesis: Pubkey)
    requires UniqueIds(b) && PrefixNames(b, prefix, genesis)
    requires exists e :: e in a && MatchesPrefix(e.pubkey, prefix)
    requires forall e | e in a :: e in b
    requires forall e | e in b && e !in a :: e.pubkey !in OwnerChain(a, genesis)
    ensures ResolveOwner(NewFormat(prefix), a) == ResolveOwner(NewFormat(prefix), b)
  {
    forall p | p in OwnerChain(a, genesis) ensures SuccessorIn(a)(p) == SuccessorIn(b)(p) {
      LatestIsNewest(a, p);
      LatestIsNewest(b, p);
      if LatestFrom(a, p).Some? {
        LatestIsUnique(b, p, LatestFrom(a, p).value);
      }
    }
    GenesisFound(a, prefix, genesis);
    GenesisFound(b, prefix, genesis);
    ChainReadsItself(SuccessorIn(a), SuccessorIn(b), [genesis], MAX_TRANSFER_DEPTH);
  }

  // ---------- the write gate ----------

  predicate IsGroupMetadataKind(kind: int) {
    39000 <= kind <= 39009
  }

  predicate GrantsMemberWrites(permission: string) {
    permission == "add-user" || permission == "remove-user"
  }

  /** Some p-tag of the admin list names the pubkey with a member-writing permission. */
  predicate ListsAsMemberWriter(tags: seq<seq<string>>, pubkey: Pubkey) {
    exists i, j :: 0 <= i < |tags| && 2 <= j < |tags[i]|
      && tags[i][0] == "p" && tags[i][1] == pubkey && GrantsMemberWrites(tags[i][j])
  }

  method ScanAdminList(tags: seq<seq<string>>, pubkey: Pubkey) returns (found: bool)
    ensures found <==> ListsAsMemberWriter(tags, pubkey)
  {
    for i := 0 to |tags|
      invariant !ListsAsMemberWriter(tags[..i], pubkey)
    {
      var tag := tags[i];
      assert forall k | 0 <= k < i :: tags[..i][k] == tags[..i + 1][k];
      if |tag| < 2 || tag[0] != "p" || tag[1] != pubkey {
        continue;
      }
      for j := 2 to |tag|
        invariant forall k | 2 <= k < j :: !GrantsMemberWrites(tag[k])
      {
        if GrantsMemberWrites(tag[j]) {
          return true;
        }
      }
    }
    assert tags[..|tags|] == tags;
    return false;
  }

  predicate IsDelegatedMemberWriter(admins: seq<Event>, pubkey: Pubkey, owner: Pubkey) {
    var latest := LatestFrom(admins, owner);
    latest.Some? && ListsAsMemberWriter(latest.value.tags, pubkey)
  }

  predicate HasPrefix(s: string, prefix: string) {
    |s| >= |prefix| && s[..|prefix|] == prefix
  }

  predicate IsAuthorizedWriter(dTag: DTag, metadata: seq<Event>, admins: seq<Event>, kind: int, pubkey: Pubkey)
    requires !dTag.Missing?
  {
    var owner := ResolveOwner(dTag, metadata);
    if owner == "" then false
    else if HasPrefix(owner, PREFIX_MARK) then MatchesPrefix(pubkey, owner[7..])
    else if pubkey == owner then true
    else kind == KIND_GROUP_MEMBERS && IsDelegatedMemberWriter(admins, pubkey, owner)
  }

  /** What the gate can read: no store configured, a failing store, or the two query results. */
  datatype StoreView = NoStore | StoreError | Store(metadata: seq<Event>, admins: seq<Event>)

  /** True when the event is refused. */
  predicate RejectExternalMetadata(relayPubkey: Pubkey, store: StoreView, dTag: DTag, kind: int, pubkey: Pubkey) {
    if !IsGroupMetadataKind(kind) then false
    else if relayPubkey != "" && pubkey == relayPubkey then false
    else if dTag.Missing? then true
    else
      match store
      case Store(metadata, admins) => !IsAuthorizedWriter(dTag, metadata, admins, kind, pubkey)
      case StoreError => true
      case NoStore => dTag.NewFormat? && !MatchesPrefix(pubkey, dTag.prefix)
  }

  /** A string that the gate reads as "any key with these 16 leading digits". */
  predicate ReadsAsPrefix(owner: string) {
    HasPrefix(owner, PREFIX_MARK) && |owner| == 23 && AllHex(owner[7..])
  }

  /** Among keys, only such a string has any that match it as a prefix signal. */
  lemma MatchMeansPrefixSignal(owner: string, key: Pubkey)
    requires IsPubkey(key) && HasPrefix(owner, PREFIX_MARK) && MatchesPrefix(key, owner[7..])
    ensures ReadsAsPrefix(owner)
  {
    assert forall i | 0 <= i < 16 :: owner[7..][i] == key[i];
  }

  lemma KeyIsNoPrefixSignal(key: Pubkey)
    requires IsPubkey(key)
    ensures !HasPrefix(key, PREFIX_MARK) && key != ""
  {
    assert HexDigit(key[1]) && key[..7][1] == key[1];
  }

  /** A key that a prefix signal lets pass and that is not the signal. */
  lemma Impostor(owner: string) returns (key: Pubkey)
    requires ReadsAsPrefix(owner)
    ensures IsPubkey(key) && MatchesPrefix(key, owner[7..]) && key != owner
  {
    key := Padded(owner[7..]);
  }

  /**
    * The documented rule for kind 39000 is "current owner only". Once the group exists, the gate keeps it for every key
    * exactly when the resolved owner is not "prefix:" with 16 hexadecimal digits, which a transfer-to tag can make it.
    */
  lemma OwnerOnlyRule(dTag: DTag, metadata: seq<Event>, admins: seq<Event>)
    requires !dTag.Missing?
    ensures (forall p: Pubkey | IsPubkey(p) :: IsAuthorizedWriter(dTag, metadata, admins, KIND_GROUP_METADATA, p)
                                               ==> p == ResolveOwner(dTag, metadata))
            <==> !ReadsAsPrefix(ResolveOwner(dTag, metadata))
  {
    hide ResolveOwner, IsPubkey, ReadsAsPrefix, MatchesPrefix;
    var owner := ResolveOwner(dTag, metadata);
    if ReadsAsPrefix(owner) {
      var impostor := Impostor(owner);
      PrefixSignalIsMarked(owner);
      assert IsAuthorizedWriter(dTag, metadata, admins, KIND_GROUP_METADATA, impostor);
    } else {
      forall p: Pubkey | IsPubkey(p) && IsAuthorizedWriter(dTag, metadata, admins, KIND_GROUP_METADATA, p)
        ensures p == owner
      {
        if HasPrefix(owner, PREFIX_MARK) {
          MatchMeansPrefixSignal(owner, p);
        }
      }
    }
  }

  lemma PrefixSignalIsMarked(owner: string)
    requires ReadsAsPrefix(owner)
    ensures HasPrefix(owner, PREFIX_MARK) && owner != ""
  {}

  ghost predicate SignedByKeys(events: seq<Event>) {
    forall e | e in events :: IsPubkey(e.pubkey)
  }

  /** The documented rules: the owner writes every metadata kind, a delegated admin the member list, nobody else. */
  ghost predicate FollowsRules(dTag: DTag, metadata: seq<Event>, kind: int)
    requires !dTag.Missing?
  {
    forall admins: seq<Event>, p: Pubkey | IsPubkey(p) && SignedByKeys(admins) ::
      IsAuthorizedWriter(dTag, metadata, admins, kind, p)
      <==> p == ResolveOwner(dTag, metadata)
           || (kind == KIND_GROUP_MEMBERS && IsDelegatedMemberWriter(admins, p, ResolveOwner(dTag, metadata)))
  }

  lemma OnlyKeysDelegate(admins: seq<Event>, pubkey: Pubkey, owner: string)
    requires SignedByKeys(admins) && IsDelegatedMemberWriter(admins, pubkey, owner)
    ensures IsPubkey(owner)
  {
    LatestIsNewest(admins, owner);
  }

  /** One key and one admin list: the rules hold unless the owner is a prefix signal. */
  lemma RulesHoldFor(dTag: DTag, metadata: seq<Event>, admins: seq<Event>, kind: int, p: Pubkey)
    requires !dTag.Missing? && IsPubkey(p) && SignedByKeys(admins)
    requires !ReadsAsPrefix(ResolveOwner(dTag, metadata))
    ensures IsAuthorizedWriter(dTag, metadata, admins, kind, p)
            <==> p == ResolveOwner(dTag, metadata)
                 || (kind == KIND_GROUP_MEMBERS && IsDelegatedMemberWriter(admins, p, ResolveOwner(dTag, metadata)))
  {
    hide ResolveOwner, IsPubkey, ReadsAsPrefix, MatchesPrefix, IsDelegatedMemberWriter, SignedByKeys;
    var owner := ResolveOwner(dTag, metadata);
    KeyIsNoPrefixSignal(p);
    if IsDelegatedMemberWriter(admins, p, owner) {
      OnlyKeysDelegate(admins, p, owner);
      KeyIsNoPrefixSignal(owner);
    }
    if owner != "" && HasPrefix(owner, PREFIX_MARK) && MatchesPrefix(p, owner[7..]) {
      MatchMeansPrefixSignal(owner, p);
    }
  }

  /**
    * For every kind, and every key and admin list that signatures let through, the gate follows the rules exactly when
    * the resolved owner is not "prefix:" with 16 hexadecimal digits.
    */
  lemma RulesHoldIff(dTag: DTag, metadata: seq<Event>, kind: int)
    requires !dTag.Missing?
    ensures FollowsRules(dTag, metadata, kind) <==> !ReadsAsPrefix(ResolveOwner(dTag, metadata))
  {
    hide ResolveOwner, IsPubkey, ReadsAsPrefix, MatchesPrefix, SignedByKeys;
    var owner := ResolveOwner(dTag, metadata);
    if ReadsAsPrefix(owner) {
      var impostor := Impostor(owner);
      PrefixSignalIsMarked(owner);
      NobodySigned();
      assert IsAuthorizedWriter(dTag, metadata, [], kind, impostor);
      assert LatestFrom([], owner).None?;
      assert !IsDelegatedMemberWriter([], impostor, owner);
    } else {
      forall admins: seq<Event>, p: Pubkey | IsPubkey(p) && SignedByKeys(admins)
        ensures IsAuthorizedWriter(dTag, metadata, admins, kind, p)
                <==> p == owner || (kind == KIND_GROUP_MEMBERS && IsDelegatedMemberWriter(admins, p, owner))
      {
        RulesHoldFor(dTag, metadata, admins, kind, p);
      }
    }
  }

  lemma NobodySigned()
    ensures SignedByKeys([])
  {}

  /** The admin list of this owner: its newest one. */
  ghost predicate IsAdminList(admins: seq<Event>, owner: Pubkey, e: Event) {
    && e in admins && e.pubkey == owner
    && forall f | f in admins && f.pubkey == owner ::
         f.createdAt < e.createdAt || (f.createdAt == e.createdAt && f.id <= e.id)
  }

  /** Some element from the third on of a p-tag with this pubkey, so whether or not a role comes first. */
  ghost predicate MayEditMembers(tags: seq<seq<string>>, p: Pubkey) {
    exists i, j :: 0 <= i < |tags| && 2 <= j < |tags[i]| && tags[i][0] == "p" && tags[i][1] == p
      && (tags[i][j] == "add-user" || tags[i][j] == "remove-user")
  }

  /**
    * Who gets metadata events past the gate when it can read the store: the resolved owner, for every kind; and for the
    * member list alone, a key that the owner's newest admin list gives a member-writing permission.
    */
  lemma WhoMayWrite(relayPubkey: Pubkey, metadata: seq<Event>, admins: seq<Event>, dTag: DTag, kind: int, p: Pubkey)
    requires !dTag.Missing? && 39000 <= kind <= 39009 && IsPubkey(p) && p != relayPubkey
    requires SignedByKeys(admins) && UniqueIds(admins) && !ReadsAsPrefix(ResolveOwner(dTag, metadata))
    ensures var owner := ResolveOwner(dTag, metadata);
            !RejectExternalMetadata(relayPubkey, Store(metadata, admins), dTag, kind, p)
            <==> p == owner
                 || (kind == 39002 && exists e :: IsAdminList(admins, owner, e) && MayEditMembers(e.tags, p))
  {
    hide ResolveOwner, IsPubkey, ReadsAsPrefix, MatchesPrefix, SignedByKeys, UniqueIds, IsAuthorizedWriter;
    RulesHoldFor(dTag, metadata, admins, kind, p);
    DelegatedIff(admins, p, ResolveOwner(dTag, metadata));
  }

  lemma DelegatedIff(admins: seq<Event>, p: Pubkey, owner: string)
    requires UniqueIds(admins)
    ensures IsDelegatedMemberWriter(admins, p, owner)
            <==> exists e :: IsAdminList(admins, owner, e) && MayEditMembers(e.tags, p)
  {
    LatestIsNewest(admins, owner);
    var latest := LatestFrom(admins, owner);
    if latest.Some? {
      assert IsAdminList(admins, owner, latest.value);
      forall e | IsAdminList(admins, owner, e)
        ensures e == latest.value
      {
        assert e.id == latest.value.id;
      }
    }
  }

  /** The role label that NIP-29 puts before the permissions changes nothing, unless it reads as a permission itself. */
  lemma RoleLabelIsIgnored(before: seq<seq<string>>, after: seq<seq<string>>, p: Pubkey, q: Pubkey, role: string,
                           permissions: seq<string>)
    requires role != "add-user" && role != "remove-user"
    ensures MayEditMembers(before + [["p", q] + permissions] + after, p)
            <==> MayEditMembers(before + [["p", q, role] + permissions] + after, p)
  {
    var plain, labelled := ["p", q] + permissions, ["p", q, role] + permissions;
    var a, b := before + [plain] + after, before + [labelled] + after;
    assert forall i | 0 <= i < |a| && i != |before| :: a[i] == b[i];
    assert a[|before|] == plain && b[|before|] == labelled;
    assert forall j | 2 <= j < |plain| :: plain[j] == labelled[j + 1];
    assert forall j | 3 <= j < |labelled| :: labelled[j] == plain[j - 1];
  }

  /** What the gate does before it asks anybody, and what it does when it cannot ask. */
  lemma GateWithoutAnswers(relayPubkey: Pubkey, store: StoreView, dTag: DTag, kind: int, p: Pubkey)
    ensures kind < 39000 || 39009 < kind ==> !RejectExternalMetadata(relayPubkey, store, dTag, kind, p)
    ensures p == relayPubkey != "" ==> !RejectExternalMetadata(relayPubkey, store, dTag, kind, p)
    ensures 39000 <= kind <= 39009 && !(p == relayPubkey != "") && (dTag.Missing? || store.StoreError?) ==>
              RejectExternalMetadata(relayPubkey, store, dTag, kind, p)
    ensures 39000 <= kind <= 39009 && !(p == relayPubkey != "") && store.NoStore? && dTag.NewFormat? ==>
              (RejectExternalMetadata(relayPubkey, store, dTag, kind, p) <==> |p| < 16 || p[..16] != dTag.prefix)
  {}

  /** While nothing is stored yet, having a store and having none come to the same for groups that name their owner. */
  lemma EmptyStoreIsPrefixOnly(relayPubkey: Pubkey, admins: seq<Event>, prefix: string, kind: int, p: Pubkey)
    ensures RejectExternalMetadata(relayPubkey, Store([], admins), NewFormat(prefix), kind, p)
            <==> RejectExternalMetadata(relayPubkey, NoStore, NewFormat(prefix), kind, p)
  {
    assert (PREFIX_MARK + prefix)[7..] == prefix;
  }
}
