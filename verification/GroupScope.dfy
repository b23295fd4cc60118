/**
  * What a reader may see of private groups: the ordinary query drops their events one by one, and COUNT subtracts
  * them with a second count under a masked filter. The two have to agree.
  */
module GroupScope {
  import opened Options

  type GroupId = string
  type Pubkey = string
  type Tag = seq<string>

  datatype Group = Group(isPrivate: bool, members: set<Pubkey>)

  type Groups = map<GroupId, Group>

  datatype Event = Event(id: string, pubkey: Pubkey, createdAt: int, kind: int, tags: seq<Tag>)

  /**
    * No kinds means any kind; every tag name asks for one of its values; what the filter says of ids, authors and times
    * is one test.
    */
  datatype Filter = Filter(kinds: seq<int>, tags: map<string, seq<string>>, rest: (string, Pubkey, int) -> bool)

  // ---------- which filters and events are group traffic ----------

  const METADATA_FIRST := 39000
  const METADATA_LAST := 39003

  predicate IsMetadataKind(kind: int) {
    METADATA_FIRST <= kind <= METADATA_LAST
  }

  /** The values the filter asks for under the h tag; empty when it does not mention it. */
  function HTags(f: Filter): seq<string> {
    if "h" in f.tags then f.tags["h"] else []
  }

  predicate IsGroupFilter(groups: Groups, f: Filter) {
    (exists k | k in f.kinds :: IsMetadataKind(k)) || (exists id | id in HTags(f) :: id in groups)
  }

  predicate CanRead(groups: Groups, id: GroupId, reader: Pubkey) {
    id in groups && groups[id].isPrivate ==> reader != "" && reader in groups[id].members
  }

  predicate Names(tag: Tag, name: string) {
    |tag| >= 2 && tag[0] == name
  }

  predicate Visible(groups: Groups, e: Event, reader: Pubkey) {
    forall tag | tag in e.tags && Names(tag, "h") :: CanRead(groups, tag[1], reader)
  }

  // ---------- exact filter semantics ----------

  predicate HasTag(e: Event, name: string, values: seq<string>) {
    exists tag | tag in e.tags :: Names(tag, name) && tag[1] in values
  }

  predicate Matches(f: Filter, e: Event) {
    && (f.kinds == [] || e.kind in f.kinds)
    && f.rest(e.id, e.pubkey, e.createdAt)
    && forall name | name in f.tags :: HasTag(e, name, f.tags[name])
  }

  function Select(store: seq<Event>, p: Event -> bool): seq<Event> {
    if store == [] then []
    else Select(store[..|store| - 1], p) + if p(store[|store| - 1]) then [store[|store| - 1]] else []
  }

  function Found(store: seq<Event>, f: Filter): seq<Event> {
    Select(store, e => Matches(f, e))
  }

  /** The answer a reader is owed: what matches and is visible. */
  function Owed(groups: Groups, store: seq<Event>, f: Filter, reader: Pubkey): seq<Event> {
    Select(store, e => Matches(f, e) && Visible(groups, e, reader))
  }

  /** What matches and must stay hidden from the reader. */
  function Withheld(groups: Groups, store: seq<Event>, f: Filter, reader: Pubkey): seq<Event> {
    Select(store, e => Matches(f, e) && !Visible(groups, e, reader))
  }

  // ---------- the handlers ----------

  function HiddenSet(groups: Groups, reader: Pubkey): set<GroupId> {
    set id | id in groups && groups[id].isPrivate && !(reader != "" && reader in groups[id].members)
  }

  /** Lists the private groups the reader cannot read, in whatever order the map yields them. */
  method HiddenGroups(groups: Groups, reader: Pubkey) returns (ids: seq<GroupId>)
    ensures forall id :: id in ids <==> id in HiddenSet(groups, reader)
  {
    ids := [];
    var todo := groups.Keys;
    while todo != {}
      invariant todo <= groups.Keys
      invariant forall id :: id in ids <==> id in HiddenSet(groups, reader) && id !in todo
      decreases todo
    {
      var id :| id in todo;
      todo := todo - {id};
      if !groups[id].isPrivate {
        continue;
      }
      if reader != "" && reader in groups[id].members {
        continue;
      }
      ids := ids + [id];
    }
  }

  /** Streams the visible matches; a reader who goes away after some of them gets no more. */
  method OrdinaryQuery(groups: Groups, store: seq<Event>, f: Filter, reader: Pubkey, cancelAfter: Option<nat>)
    returns (out: seq<Event>)
    ensures out <= OrdinaryAnswer(groups, store, f, reader)
    ensures cancelAfter.None? ==> out == OrdinaryAnswer(groups, store, f, reader)
  {
    out := [];
    if IsGroupFilter(groups, f) {
      return;
    }
    ghost var owed := Owed(groups, store, f, reader);
    for i := 0 to |store|
      invariant out == Owed(groups, store[..i], f, reader)
    {
      assert store[..i + 1][..i] == store[..i];
      OwedGrows(groups, store, f, reader, i + 1);
      if !Matches(f, store[i]) || !Visible(groups, store[i], reader) {
        continue;
      }
      if cancelAfter.Some? && cancelAfter.value <= |out| {
        OwedGrows(groups, store, f, reader, i);
        return;
      }
      out := out + [store[i]];
    }
    assert store[..|store|] == store;
  }

  /** What a plain REQ gets: nothing when it is a group REQ, which other handlers serve. */
  function OrdinaryAnswer(groups: Groups, store: seq<Event>, f: Filter, reader: Pubkey): seq<Event> {
    if IsGroupFilter(groups, f) then [] else Owed(groups, store, f, reader)
  }

  /** Some h tag of the event names a private group that the reader is not a member of; nobody anonymous is. */
  ghost predicate Secret(groups: Groups, e: Event, reader: Pubkey) {
    exists i :: 0 <= i < |e.tags| && |e.tags[i]| >= 2 && e.tags[i][0] == "h" && e.tags[i][1] in groups
      && groups[e.tags[i][1]].isPrivate && (reader == "" || reader !in groups[e.tags[i][1]].members)
  }

  lemma VisibleIff(groups: Groups, e: Event, reader: Pubkey)
    ensures Visible(groups, e, reader) <==> !Secret(groups, e, reader)
  {
    forall tag | tag in e.tags && Names(tag, "h") && !CanRead(groups, tag[1], reader)
      ensures Secret(groups, e, reader)
    {
      var i :| 0 <= i < |e.tags| && e.tags[i] == tag;
    }
    if Secret(groups, e, reader) {
      var i :| 0 <= i < |e.tags| && |e.tags[i]| >= 2 && e.tags[i][0] == "h" && e.tags[i][1] in groups
        && groups[e.tags[i][1]].isPrivate && (reader == "" || reader !in groups[e.tags[i][1]].members);
      assert e.tags[i] in e.tags && Names(e.tags[i], "h") && !CanRead(groups, e.tags[i][1], reader);
    }
  }

  /** A plain REQ returns exactly the matches that are not secret, unless it is addressed to groups. */
  lemma OrdinaryAnswerIff(groups: Groups, store: seq<Event>, f: Filter, reader: Pubkey, e: Event)
    ensures e in OrdinaryAnswer(groups, store, f, reader)
            <==> e in store && Matches(f, e) && !Secret(groups, e, reader)
                 && (forall k | k in f.kinds :: k < 39000 || 39003 < k)
                 && ("h" in f.tags ==> forall id | id in f.tags["h"] :: id !in groups)
  {
    hide Matches, Visible, Secret;
    VisibleIff(groups, e, reader);
    SelectIff(store, x => Matches(f, x) && Visible(groups, x, reader), e);
  }

  lemma {:induction false} SelectIff(store: seq<Event>, p: Event -> bool, e: Event)
    ensures e in Select(store, p) <==> e in store && p(e)
  {
    if store != [] {
      SelectIff(store[..|store| - 1], p, e);
    }
  }

  /** And secret events leave no trace in it: storing one more changes no answer, wherever it stands. */
  lemma SecretsLeaveNoTrace(groups: Groups, before: seq<Event>, e: Event, after: seq<Event>, f: Filter, reader: Pubkey)
    requires Secret(groups, e, reader)
    ensures OrdinaryAnswer(groups, before + [e] + after, f, reader) == OrdinaryAnswer(groups, before + after, f, reader)
  {
    hide Matches, Visible, Secret;
    VisibleIff(groups, e, reader);
    SelectSkips(before, e, after, x => Matches(f, x) && Visible(groups, x, reader));
  }

  lemma {:induction false} SelectSkips(before: seq<Event>, e: Event, after: seq<Event>, p: Event -> bool)
    requires !p(e)
    ensures Select(before + [e] + after, p) == Select(before + after, p)
  {
    if after == [] {
      assert before + [e] + [] == before + [e] && (before + [e])[..|before|] == before && before + [] == before;
    } else {
      var init := after[..|after| - 1];
      SelectSkips(before, e, init, p);
      assert (before + [e] + after)[..|before| + |after|] == before + [e] + init;
      assert (before + after)[..|before| + |after| - 1] == before + init;
    }
  }

  lemma {:induction false} SelectGrows(store: seq<Event>, p: Event -> bool, n: nat)
    requires n <= |store|
    ensures Select(store[..n], p) <= Select(store, p)
  {
    if n == |store| {
      assert store[..n] == store;
    } else {
      SelectGrows(store[..|store| - 1], p, n);
      assert store[..|store| - 1][..n] == store[..n];
    }
  }

  lemma OwedGrows(groups: Groups, store: seq<Event>, f: Filter, reader: Pubkey, n: nat)
    requires n <= |store|
    ensures Owed(groups, store[..n], f, reader) <= Owed(groups, store, f, reader)
  {
    SelectGrows(store, e => Matches(f, e) && Visible(groups, e, reader), n);
  }

  function Masked(f: Filter, hidden: seq<GroupId>): Filter {
    f.(tags := f.tags["h" := hidden])
  }

  /** The count for a filter, given some enumeration of the hidden groups. */
  function CountWith(groups: Groups, store: seq<Event>, f: Filter, reader: Pubkey, hidden: seq<GroupId>): nat {
    if HTags(f) != [] then
      if exists id | id in HTags(f) :: !CanRead(groups, id, reader) then 0 else |Found(store, f)|
    else
      var n, m := |Found(store, f)|, |Found(store, Masked(f, hidden))|;
      if hidden == [] then n else if m > n then 0 else n - m
  }

  /** COUNT, with either of the two store counts able to fail. */
  method PrivateAwareCount(groups: Groups, store: seq<Event>, f: Filter, reader: Pubkey,
                           firstFails: bool, secondFails: bool)
    returns (count: Option<nat>, ghost hidden: seq<GroupId>)
    ensures forall id :: id in hidden <==> id in HiddenSet(groups, reader)
    ensures count.Some? ==> count.value == CountWith(groups, store, f, reader, hidden)
    ensures count.None?
            <==> (forall id | id in HTags(f) :: CanRead(groups, id, reader))
                 && (firstFails || (secondFails && HTags(f) == [] && hidden != []))
    ensures (exists id | id in HTags(f) :: !CanRead(groups, id, reader)) ==> count == Some(0)
  {
    var ids := HiddenGroups(groups, reader);
    hidden := ids;
    var hs := HTags(f);
    if |hs| > 0 {
      for i := 0 to |hs|
        invariant forall j | 0 <= j < i :: CanRead(groups, hs[j], reader)
      {
        if !CanRead(groups, hs[i], reader) {
          return Some(0), hidden;
        }
      }
      return if firstFails then None else Some(|Found(store, f)|), hidden;
    }
    if firstFails {
      return None, hidden;
    }
    var n := |Found(store, f)|;
    if |ids| == 0 {
      return Some(n), hidden;
    }
    if secondFails {
      return None, hidden;
    }
    var m := |Found(store, Masked(f, ids))|;
    if m > n {
      return Some(0), hidden;
    }
    return Some(n - m), hidden;
  }

  // ---------- COUNT agrees with the query ----------

  ghost predicate ListsHidden(groups: Groups, reader: Pubkey, hidden: seq<GroupId>) {
    forall id :: id in hidden <==> id in HiddenSet(groups, reader)
  }

  lemma {:induction false} SelectSplits(store: seq<Event>, p: Event -> bool, q: Event -> bool, r: Event -> bool)
    requires forall e | e in store :: (p(e) <==> q(e) || r(e)) && !(q(e) && r(e))
    ensures |Select(store, p)| == |Select(store, q)| + |Select(store, r)|
  {
    if store != [] {
      SelectSplits(store[..|store| - 1], p, q, r);
      assert store[|store| - 1] in store;
    }
  }

  lemma {:induction false} SelectCongruence(store: seq<Event>, p: Event -> bool, q: Event -> bool)
    requires forall e | e in store :: p(e) <==> q(e)
    ensures Select(store, p) == Select(store, q)
  {
    if store != [] {
      SelectCongruence(store[..|store| - 1], p, q);
      assert store[|store| - 1] in store;
    }
  }

  lemma HiddenMeansUnreadable(groups: Groups, reader: Pubkey, id: GroupId)
    ensures id in HiddenSet(groups, reader) <==> !CanRead(groups, id, reader)
  {}

  /** The masked filter finds exactly the events that are withheld. */
  lemma MaskedFindsWithheld(groups: Groups, f: Filter, reader: Pubkey, hidden: seq<GroupId>, e: Event)
    requires "h" !in f.tags && ListsHidden(groups, reader, hidden)
    ensures Matches(Masked(f, hidden), e) <==> Matches(f, e) && !Visible(groups, e, reader)
  {
    hide HiddenSet, CanRead;
    var masked := Masked(f, hidden);
    if Matches(masked, e) {
      assert HasTag(e, "h", masked.tags["h"]);
      var tag :| tag in e.tags && Names(tag, "h") && tag[1] in hidden;
      HiddenMeansUnreadable(groups, reader, tag[1]);
      forall name | name in f.tags
        ensures HasTag(e, name, f.tags[name])
      {
        assert masked.tags[name] == f.tags[name];
      }
    }
    if Matches(f, e) && !Visible(groups, e, reader) {
      var tag :| tag in e.tags && Names(tag, "h") && !CanRead(groups, tag[1], reader);
      HiddenMeansUnreadable(groups, reader, tag[1]);
      assert HasTag(e, "h", hidden);
    }
  }

  lemma FoundSplits(groups: Groups, store: seq<Event>, f: Filter, reader: Pubkey)
    ensures |Found(store, f)| == |Owed(groups, store, f, reader)| + |Withheld(groups, store, f, reader)|
  {
    SelectSplits(store, e => Matches(f, e), e => Matches(f, e) && Visible(groups, e, reader),
                 e => Matches(f, e) && !Visible(groups, e, reader));
  }

  lemma MaskedCount(groups: Groups, store: seq<Event>, f: Filter, reader: Pubkey, hidden: seq<GroupId>)
    requires "h" !in f.tags && ListsHidden(groups, reader, hidden)
    ensures Found(store, Masked(f, hidden)) == Withheld(groups, store, f, reader)
  {
    hide Matches, Visible, Masked, ListsHidden;
    forall e | e in store
      ensures Matches(Masked(f, hidden), e) <==> Matches(f, e) && !Visible(groups, e, reader)
    {
      MaskedFindsWithheld(groups, f, reader, hidden, e);
    }
    SelectCongruence(store, e => Matches(Masked(f, hidden), e), e => Matches(f, e) && !Visible(groups, e, reader));
  }

  /** A filter that asks for no value of the h tag at all finds nothing. */
  lemma EmptyTagListFindsNothing(store: seq<Event>, f: Filter)
    requires "h" in f.tags && f.tags["h"] == []
    ensures Found(store, f) == []
  {
    forall e | e in store
      ensures !Matches(f, e)
    {
      assert !HasTag(e, "h", f.tags["h"]);
    }
    SelectCongruence(store, e => Matches(f, e), e => false);
    SelectNone(store);
  }

  lemma {:induction false} SelectNone(store: seq<Event>)
    ensures Select(store, e => false) == []
  {
    if store != [] {
      SelectNone(store[..|store| - 1]);
    }
  }

  lemma NothingHiddenNothingWithheld(groups: Groups, store: seq<Event>, f: Filter, reader: Pubkey)
    requires HiddenSet(groups, reader) == {}
    ensures Withheld(groups, store, f, reader) == []
  {
    forall e | e in store
      ensures Visible(groups, e, reader)
    {
      forall tag | tag in e.tags && Names(tag, "h")
        ensures CanRead(groups, tag[1], reader)
      {
        HiddenMeansUnreadable(groups, reader, tag[1]);
      }
    }
    SelectCongruence(store, e => Matches(f, e) && !Visible(groups, e, reader), e => false);
    SelectNone(store);
  }

  /** Without an h tag the count is what the reader is owed, whatever order the hidden groups are listed in. */
  lemma CountIsOwed(groups: Groups, store: seq<Event>, f: Filter, reader: Pubkey, hidden: seq<GroupId>)
    requires HTags(f) == [] && ListsHidden(groups, reader, hidden)
    ensures CountWith(groups, store, f, reader, hidden) == |Owed(groups, store, f, reader)|
    ensures "h" !in f.tags ==> |Found(store, Masked(f, hidden))| <= |Found(store, f)|
  {
    hide Matches, Visible, Masked, HiddenSet, CanRead, Found, Owed, Withheld;
    FoundSplits(groups, store, f, reader);
    if hidden == [] {
      assert HiddenSet(groups, reader) == {};
      NothingHiddenNothingWithheld(groups, store, f, reader);
    }
    if "h" in f.tags {
      EmptyTagListFindsNothing(store, f);
    } else {
      MaskedCount(groups, store, f, reader, hidden);
    }
  }

  /** The events a reader can see at all. */
  function ReadersView(groups: Groups, store: seq<Event>, reader: Pubkey): seq<Event> {
    Select(store, e => Visible(groups, e, reader))
  }

  lemma SelectOneMore(es: seq<Event>, e: Event, p: Event -> bool)
    ensures Select(es + [e], p) == Select(es, p) + if p(e) then [e] else []
  {
    assert (es + [e])[..|es|] == es;
  }

  lemma {:induction false} SelectTwice(store: seq<Event>, p: Event -> bool, q: Event -> bool, both: Event -> bool)
    requires forall e :: both(e) <==> p(e) && q(e)
    ensures Select(Select(store, p), q) == Select(store, both)
  {
    if store != [] {
      var front, last := store[..|store| - 1], store[|store| - 1];
      SelectTwice(front, p, q, both);
      var kept := Select(front, p);
      if p(last) {
        SelectOneMore(kept, last, q);
      } else {
        assert kept + [] == kept;
      }
    }
  }

  /**
    * A COUNT tells nothing about private groups: two stores that look the same to a reader give the same count, for
    * every filter without an h tag.
    */
  lemma CountRevealsNothing(groups: Groups, store: seq<Event>, store': seq<Event>, f: Filter, reader: Pubkey,
                            hidden: seq<GroupId>, hidden': seq<GroupId>)
    requires HTags(f) == [] && ListsHidden(groups, reader, hidden) && ListsHidden(groups, reader, hidden')
    requires ReadersView(groups, store, reader) == ReadersView(groups, store', reader)
    ensures CountWith(groups, store, f, reader, hidden) == CountWith(groups, store', f, reader, hidden')
  {
    hide CountWith, Matches, Visible, HTags, ListsHidden;
    CountIsOwed(groups, store, f, reader, hidden);
    CountIsOwed(groups, store', f, reader, hidden');
    OwedIsMatchesInView(groups, store, f, reader);
    OwedIsMatchesInView(groups, store', f, reader);
  }

  lemma OwedIsMatchesInView(groups: Groups, store: seq<Event>, f: Filter, reader: Pubkey)
    ensures Owed(groups, store, f, reader) == Select(ReadersView(groups, store, reader), e => Matches(f, e))
  {
    hide Matches, Visible;
    SelectTwice(store, e => Visible(groups, e, reader), e => Matches(f, e),
                e => Matches(f, e) && Visible(groups, e, reader));
  }

  // ---------- filters that do name an h tag ----------

  /**
    * A filter whose h values name no known group is answered event by event, but counted without looking: the count
    * is too high by the matching events that also carry the tag of a group the reader cannot read.
    */
  lemma CountWithHTag(groups: Groups, store: seq<Event>, f: Filter, reader: Pubkey, hidden: seq<GroupId>)
    requires HTags(f) != [] && !IsGroupFilter(groups, f)
    ensures CountWith(groups, store, f, reader, hidden)
            == |OrdinaryAnswer(groups, store, f, reader)| + |Withheld(groups, store, f, reader)|
  {
    hide Owed, Withheld, Found;
    FoundSplits(groups, store, f, reader);
    forall id | id in HTags(f)
      ensures CanRead(groups, id, reader)
    {
      assert id !in groups;
    }
  }

  const SECRET_GROUP: Groups := map["secret" := Group(true, {})]
  const TWO_TAGS: Event := Event("e", "p", 0, 1, [["h", "bucket"], ["h", "secret"]])

  function BucketFilter(): Filter {
    Filter([], map["h" := ["bucket"]], (id: string, author: Pubkey, at: int) => true)
  }

  lemma TwoTagsIsHidden()
    ensures !Visible(SECRET_GROUP, TWO_TAGS, "")
  {
    var tag: Tag := ["h", "secret"];
    assert tag == TWO_TAGS.tags[1] && Names(tag, "h") && !CanRead(SECRET_GROUP, tag[1], "");
  }

  lemma TwoTagsMatches()
    ensures Matches(BucketFilter(), TWO_TAGS)
  {
    var tag: Tag := ["h", "bucket"];
    assert tag == TWO_TAGS.tags[0] && Names(tag, "h");
    assert HasTag(TWO_TAGS, "h", BucketFilter().tags["h"]);
  }

  /** Such an event: one h tag the filter names, another that puts it in a private group. */
  lemma SecondTagIsCounted()
    ensures var f := BucketFilter();
            && HTags(f) != [] && !IsGroupFilter(SECRET_GROUP, f) && ListsHidden(SECRET_GROUP, "", ["secret"])
            && OrdinaryAnswer(SECRET_GROUP, [TWO_TAGS], f, "") == []
            && CountWith(SECRET_GROUP, [TWO_TAGS], f, "", ["secret"]) == 1
  {
    hide Matches, Visible, CountWith, CanRead;
    var f := BucketFilter();
    TwoTagsIsHidden();
    TwoTagsMatches();
    assert [] + [TWO_TAGS] == [TWO_TAGS];
    SelectOneMore([], TWO_TAGS, e => Matches(f, e) && Visible(SECRET_GROUP, e, ""));
    SelectOneMore([], TWO_TAGS, e => Matches(f, e) && !Visible(SECRET_GROUP, e, ""));
    CountWithHTag(SECRET_GROUP, [TWO_TAGS], f, "", ["secret"]);
  }
}
