/** For which filters COUNT is right, agrees with the query, and keeps private groups to itself - over all stores. */
module GroupCountLaws {
  import opened GroupScope

  // ---------- what can be read off a filter and the groups ----------

  /** The reader may read every group the filter names. */
  predicate AllReadable(groups: Groups, f: Filter, reader: Pubkey) {
    forall id | id in HTags(f) :: CanRead(groups, id, reader)
  }

  predicate NoneReadable(groups: Groups, f: Filter, reader: Pubkey) {
    forall id | id in HTags(f) :: !CanRead(groups, id, reader)
  }

  /** Some event could match: no tag is asked for without a value, and ids, authors and times leave room. */
  ghost predicate Satisfiable(f: Filter) {
    (exists id, author, at :: f.rest(id, author, at)) && forall name | name in f.tags :: f.tags[name] != []
  }

  // ---------- one store ----------

  lemma UnreadableIsKnown(groups: Groups, f: Filter, reader: Pubkey)
    requires !AllReadable(groups, f, reader)
    ensures IsGroupFilter(groups, f)
  {}

  /** COUNT against the matching events, when the filter names an h value. */
  lemma CountByName(groups: Groups, store: seq<Event>, f: Filter, reader: Pubkey, hidden: seq<GroupId>)
    requires HTags(f) != []
    ensures CountWith(groups, store, f, reader, hidden)
            == if AllReadable(groups, f, reader)
               then |Owed(groups, store, f, reader)| + |Withheld(groups, store, f, reader)| else 0
  {
    hide Owed, Withheld, Found, CanRead;
    FoundSplits(groups, store, f, reader);
  }

  /**
    * On one store COUNT is the number of matching events the reader may see, for every filter, exactly when the filter
    * names no h value, or names only groups the reader may read and nothing that matches is withheld, or names one the
    * reader may not read and nothing is owed.
    */
  lemma CountIsRightIff(groups: Groups, store: seq<Event>, f: Filter, reader: Pubkey, hidden: seq<GroupId>)
    requires ListsHidden(groups, reader, hidden)
    ensures CountWith(groups, store, f, reader, hidden) == |Owed(groups, store, f, reader)|
            <==> HTags(f) == []
                 || if AllReadable(groups, f, reader) then Withheld(groups, store, f, reader) == []
                    else Owed(groups, store, f, reader) == []
  {
    hide Owed, Withheld, CountWith, ListsHidden, CanRead;
    if HTags(f) == [] {
      CountIsOwed(groups, store, f, reader, hidden);
    } else {
      CountByName(groups, store, f, reader, hidden);
    }
  }

  /** On one store COUNT is the number of events a plain REQ returns, for every filter, exactly in these cases. */
  lemma CountAgreesIff(groups: Groups, store: seq<Event>, f: Filter, reader: Pubkey, hidden: seq<GroupId>)
    requires ListsHidden(groups, reader, hidden)
    ensures CountWith(groups, store, f, reader, hidden) == |OrdinaryAnswer(groups, store, f, reader)|
            <==> || !AllReadable(groups, f, reader)
                 || (IsGroupFilter(groups, f) && Owed(groups, store, f, reader) == []
                     && (HTags(f) == [] || Withheld(groups, store, f, reader) == []))
                 || (!IsGroupFilter(groups, f) && (HTags(f) == [] || Withheld(groups, store, f, reader) == []))
  {
    hide Owed, Withheld, CountWith, ListsHidden, CanRead, IsGroupFilter;
    if !AllReadable(groups, f, reader) {
      UnreadableIsKnown(groups, f, reader);
    }
    if HTags(f) == [] {
      CountIsOwed(groups, store, f, reader, hidden);
    } else {
      CountByName(groups, store, f, reader, hidden);
    }
  }

  // ---------- events that show a filter at work ----------

  /** One tag for each of the names, with a value the filter asks for. */
  lemma TagsFor(f: Filter, names: set<string>) returns (tags: seq<Tag>)
    requires names <= f.tags.Keys && forall name | name in names :: f.tags[name] != []
    ensures forall name | name in names :: exists tag | tag in tags :: Names(tag, name) && tag[1] in f.tags[name]
    ensures forall tag | tag in tags :: |tag| == 2 && tag[0] in names
    decreases names
  {
    tags := [];
    if names != {} {
      var name :| name in names;
      var rest := TagsFor(f, names - {name});
      var tag: Tag := [name, f.tags[name][0]];
      tags := rest + [tag];
      assert tag in tags && Names(tag, name) && tag[1] in f.tags[name];
      forall other | other in names && other != name
        ensures exists t | t in tags :: Names(t, other) && t[1] in f.tags[other]
      {
        var t :| t in rest && Names(t, other) && t[1] in f.tags[other];
        assert t in tags;
      }
    }
  }

  /** A matching event that carries exactly these h tags. */
  lemma SampleEvent(f: Filter, hs: seq<Tag>) returns (e: Event)
    requires Satisfiable(f) && forall tag | tag in hs :: Names(tag, "h")
    requires "h" in f.tags ==> exists tag | tag in hs :: Names(tag, "h") && tag[1] in f.tags["h"]
    ensures Matches(f, e)
    ensures forall tag :: tag in e.tags && Names(tag, "h") <==> tag in hs
  {
    var id, author, at :| f.rest(id, author, at);
    var others := TagsFor(f, f.tags.Keys - {"h"});
    e := Event(id, author, at, if f.kinds == [] then 1 else f.kinds[0], others + hs);
    forall name | name in f.tags
      ensures HasTag(e, name, f.tags[name])
    {
      if name == "h" {
        var tag :| tag in hs && Names(tag, "h") && tag[1] in f.tags["h"];
        assert tag in e.tags && Names(tag, "h");
      } else {
        var tag :| tag in others && Names(tag, name) && tag[1] in f.tags[name];
        assert tag in e.tags;
      }
    }
  }

  lemma MatchMeansSatisfiable(f: Filter, e: Event)
    requires Matches(f, e)
    ensures Satisfiable(f)
  {
    assert f.rest(e.id, e.pubkey, e.createdAt);
    forall name | name in f.tags
      ensures f.tags[name] != []
    {
      assert HasTag(e, name, f.tags[name]);
    }
  }

  /** A filter is satisfiable exactly when some event matches it. */
  lemma SatisfiableIff(f: Filter)
    ensures Satisfiable(f) <==> exists e :: Matches(f, e)
  {
    if Satisfiable(f) {
      var hs: seq<Tag> := if "h" in f.tags then [["h", f.tags["h"][0]]] else [];
      assert "h" in f.tags ==> hs[0] in hs && Names(hs[0], "h") && hs[0][1] in f.tags["h"];
      var e := SampleEvent(f, hs);
    }
    if e :| Matches(f, e) {
      MatchMeansSatisfiable(f, e);
    }
  }

  /** A filter that names a group cannot have all of its groups readable and none. */
  lemma NotBoth(groups: Groups, f: Filter, reader: Pubkey)
    requires HTags(f) != []
    ensures !(AllReadable(groups, f, reader) && NoneReadable(groups, f, reader))
  {
    assert HTags(f)[0] in HTags(f);
  }

  /** Matches and visible: no h tag at all, or one the reader may read. */
  lemma VisibleSample(groups: Groups, f: Filter, reader: Pubkey) returns (e: Event)
    requires Satisfiable(f) && (HTags(f) == [] || !NoneReadable(groups, f, reader))
    ensures Matches(f, e) && Visible(groups, e, reader)
  {
    hide CanRead;
    if HTags(f) == [] {
      e := SampleEvent(f, []);
    } else {
      var id :| id in HTags(f) && CanRead(groups, id, reader);
      var tag: Tag := ["h", id];
      assert tag in [tag] && Names(tag, "h") && tag[1] in f.tags["h"];
      e := SampleEvent(f, [tag]);
    }
  }

  /** Matches and withheld: besides what the filter asks for it carries the tag of a hidden group. */
  lemma HiddenSample(groups: Groups, f: Filter, reader: Pubkey) returns (e: Event)
    requires Satisfiable(f) && HiddenSet(groups, reader) != {}
    ensures Matches(f, e) && !Visible(groups, e, reader)
  {
    hide CanRead, HiddenSet;
    var secret :| secret in HiddenSet(groups, reader);
    HiddenMeansUnreadable(groups, reader, secret);
    var tag: Tag := ["h", secret];
    var hs: seq<Tag> := if "h" in f.tags then [tag, ["h", f.tags["h"][0]]] else [tag];
    assert tag == hs[0];
    assert "h" in f.tags ==> hs[1] in hs && Names(hs[1], "h") && hs[1][1] in f.tags["h"];
    e := SampleEvent(f, hs);
    assert tag in e.tags && Names(tag, "h") && !CanRead(groups, tag[1], reader);
  }

  lemma OneEvent(groups: Groups, f: Filter, reader: Pubkey, e: Event)
    requires Matches(f, e)
    ensures Owed(groups, [e], f, reader) == if Visible(groups, e, reader) then [e] else []
    ensures Withheld(groups, [e], f, reader) == if Visible(groups, e, reader) then [] else [e]
    ensures ReadersView(groups, [e], reader) == if Visible(groups, e, reader) then [e] else []
    ensures ReadersView(groups, [], reader) == []
  {
    hide Matches, Visible;
    assert [] + [e] == [e];
    SelectOneMore([], e, x => Matches(f, x) && Visible(groups, x, reader));
    SelectOneMore([], e, x => Matches(f, x) && !Visible(groups, x, reader));
    SelectOneMore([], e, x => Visible(groups, x, reader));
  }

  lemma {:induction false} ListTheHidden(ids: set<GroupId>) returns (hidden: seq<GroupId>)
    ensures forall id :: id in hidden <==> id in ids
    decreases ids
  {
    hidden := [];
    if ids != {} {
      var id :| id in ids;
      var rest := ListTheHidden(ids - {id});
      hidden := rest + [id];
    }
  }

  // ---------- stores on which there is nothing to go wrong ----------

  lemma NothingMatches(groups: Groups, store: seq<Event>, f: Filter, reader: Pubkey)
    requires !Satisfiable(f)
    ensures Owed(groups, store, f, reader) == [] && Withheld(groups, store, f, reader) == []
  {
    hide Satisfiable, Matches, Visible;
    SatisfiableIff(f);
    SelectCongruence(store, e => Matches(f, e) && Visible(groups, e, reader), e => false);
    SelectCongruence(store, e => Matches(f, e) && !Visible(groups, e, reader), e => false);
    SelectNone(store);
  }

  lemma NothingIsOwed(groups: Groups, store: seq<Event>, f: Filter, reader: Pubkey)
    requires HTags(f) != [] && NoneReadable(groups, f, reader)
    ensures Owed(groups, store, f, reader) == []
  {
    hide CanRead;
    forall e | e in store
      ensures !(Matches(f, e) && Visible(groups, e, reader))
    {
      if Matches(f, e) {
        assert HasTag(e, "h", f.tags["h"]);
        var tag :| tag in e.tags && Names(tag, "h") && tag[1] in f.tags["h"];
      }
    }
    SelectCongruence(store, e => Matches(f, e) && Visible(groups, e, reader), e => false);
    SelectNone(store);
  }

  // ---------- all stores ----------

  /** COUNT is the number of matching events the reader may see, on every store. */
  ghost predicate AlwaysRight(groups: Groups, f: Filter, reader: Pubkey) {
    forall store, hidden | ListsHidden(groups, reader, hidden) ::
      CountWith(groups, store, f, reader, hidden) == |Owed(groups, store, f, reader)|
  }

  /**
    * COUNT is right on every store exactly when the filter names no h value, or nothing can match it, or it names only
    * groups the reader may not read, or only readable ones while no group at all is hidden from the reader.
    */
  lemma AlwaysRightIff(groups: Groups, f: Filter, reader: Pubkey)
    ensures AlwaysRight(groups, f, reader)
            <==> HTags(f) == [] || !Satisfiable(f) || NoneReadable(groups, f, reader)
                 || (AllReadable(groups, f, reader) && HiddenSet(groups, reader) == {})
  {
    hide Satisfiable, Matches, Visible, CountWith, Owed, Withheld, CanRead, HiddenSet, HTags, ListsHidden;
    forall store, hidden | ListsHidden(groups, reader, hidden)
      ensures HTags(f) == [] || !Satisfiable(f) || NoneReadable(groups, f, reader)
              || (AllReadable(groups, f, reader) && HiddenSet(groups, reader) == {})
              ==> CountWith(groups, store, f, reader, hidden) == |Owed(groups, store, f, reader)|
    {
      RightOnStore(groups, store, f, reader, hidden);
    }
    if HTags(f) != [] && Satisfiable(f) && !NoneReadable(groups, f, reader)
       && !(AllReadable(groups, f, reader) && HiddenSet(groups, reader) == {}) {
      var store, hidden := WrongStore(groups, f, reader);
    }
  }

  lemma RightOnStore(groups: Groups, store: seq<Event>, f: Filter, reader: Pubkey, hidden: seq<GroupId>)
    requires ListsHidden(groups, reader, hidden)
    ensures HTags(f) == [] || !Satisfiable(f) || NoneReadable(groups, f, reader)
            || (AllReadable(groups, f, reader) && HiddenSet(groups, reader) == {})
            ==> CountWith(groups, store, f, reader, hidden) == |Owed(groups, store, f, reader)|
  {
    hide Satisfiable, Matches, Visible, CountWith, Owed, Withheld, CanRead, HiddenSet, ListsHidden;
    CountIsRightIff(groups, store, f, reader, hidden);
    if HTags(f) != [] {
      if !Satisfiable(f) {
        NothingMatches(groups, store, f, reader);
      } else if NoneReadable(groups, f, reader) {
        NotBoth(groups, f, reader);
        NothingIsOwed(groups, store, f, reader);
      } else if HiddenSet(groups, reader) == {} {
        NothingHiddenNothingWithheld(groups, store, f, reader);
      }
    }
  }

  lemma WrongStore(groups: Groups, f: Filter, reader: Pubkey) returns (store: seq<Event>, hidden: seq<GroupId>)
    requires HTags(f) != [] && Satisfiable(f) && !NoneReadable(groups, f, reader)
    requires !(AllReadable(groups, f, reader) && HiddenSet(groups, reader) == {})
    ensures ListsHidden(groups, reader, hidden)
    ensures CountWith(groups, store, f, reader, hidden) != |Owed(groups, store, f, reader)|
  {
    hide Satisfiable, Matches, Visible, CountWith, Owed, Withheld, CanRead, HiddenSet;
    hidden := ListTheHidden(HiddenSet(groups, reader));
    var e;
    if AllReadable(groups, f, reader) {
      e := HiddenSample(groups, f, reader);
    } else {
      e := VisibleSample(groups, f, reader);
    }
    store := [e];
    OneEvent(groups, f, reader, e);
    CountIsRightIff(groups, store, f, reader, hidden);
  }

  /** COUNT is the number of events a plain REQ returns, on every store. */
  ghost predicate AlwaysAgrees(groups: Groups, f: Filter, reader: Pubkey) {
    forall store, hidden | ListsHidden(groups, reader, hidden) ::
      CountWith(groups, store, f, reader, hidden) == |OrdinaryAnswer(groups, store, f, reader)|
  }

  /** The filters for which it is: group REQs the reader may read are answered elsewhere, h values count blindly. */
  ghost predicate Agreeable(groups: Groups, f: Filter, reader: Pubkey) {
    || !Satisfiable(f)
    || !AllReadable(groups, f, reader)
    || (!IsGroupFilter(groups, f) && (HTags(f) == [] || HiddenSet(groups, reader) == {}))
  }

  /** COUNT agrees with the plain REQ on every store exactly for the agreeable filters, whatever they ask for. */
  lemma AlwaysAgreesIff(groups: Groups, f: Filter, reader: Pubkey)
    ensures AlwaysAgrees(groups, f, reader) <==> Agreeable(groups, f, reader)
  {
    hide CountWith, OrdinaryAnswer, Agreeable, ListsHidden;
    if Agreeable(groups, f, reader) {
      forall store, hidden | ListsHidden(groups, reader, hidden)
        ensures CountWith(groups, store, f, reader, hidden) == |OrdinaryAnswer(groups, store, f, reader)|
      {
        AgreesOnStore(groups, store, f, reader, hidden);
      }
    } else {
      var store, hidden := DisagreeingStore(groups, f, reader);
    }
  }

  lemma AgreesOnStore(groups: Groups, store: seq<Event>, f: Filter, reader: Pubkey, hidden: seq<GroupId>)
    requires ListsHidden(groups, reader, hidden) && Agreeable(groups, f, reader)
    ensures CountWith(groups, store, f, reader, hidden) == |OrdinaryAnswer(groups, store, f, reader)|
  {
    hide Satisfiable, CountWith, OrdinaryAnswer, Owed, Withheld, CanRead, HiddenSet, ListsHidden, AllReadable;
    CountAgreesIff(groups, store, f, reader, hidden);
    if !Satisfiable(f) {
      NothingMatches(groups, store, f, reader);
    } else if HiddenSet(groups, reader) == {} {
      NothingHiddenNothingWithheld(groups, store, f, reader);
    }
  }

  lemma DisagreeingStore(groups: Groups, f: Filter, reader: Pubkey) returns (store: seq<Event>, hidden: seq<GroupId>)
    requires !Agreeable(groups, f, reader)
    ensures ListsHidden(groups, reader, hidden)
    ensures CountWith(groups, store, f, reader, hidden) != |OrdinaryAnswer(groups, store, f, reader)|
  {
    hide Satisfiable, Matches, Visible, CountWith, OrdinaryAnswer, Owed, Withheld, CanRead, HiddenSet, IsGroupFilter;
    hidden := ListTheHidden(HiddenSet(groups, reader));
    var e;
    if IsGroupFilter(groups, f) {
      if HTags(f) != [] {
        NotBoth(groups, f, reader);
      }
      e := VisibleSample(groups, f, reader);
    } else {
      e := HiddenSample(groups, f, reader);
    }
    store := [e];
    OneEvent(groups, f, reader, e);
    CountAgreesIff(groups, store, f, reader, hidden);
  }

  // ---------- what a COUNT reveals ----------

  /** Two stores look the same to the reader and are counted differently. */
  ghost predicate Distinguishes(groups: Groups, f: Filter, reader: Pubkey, store: seq<Event>, store': seq<Event>,
                                hidden: seq<GroupId>, hidden': seq<GroupId>) {
    && ListsHidden(groups, reader, hidden) && ListsHidden(groups, reader, hidden')
    && ReadersView(groups, store, reader) == ReadersView(groups, store', reader)
    && CountWith(groups, store, f, reader, hidden) != CountWith(groups, store', f, reader, hidden')
  }

  /** The promise that a private group's events cannot come back through a COUNT, broken. */
  ghost predicate Reveals(groups: Groups, f: Filter, reader: Pubkey) {
    exists store, store', hidden, hidden' :: Distinguishes(groups, f, reader, store, store', hidden, hidden')
  }

  /**
    * A COUNT reveals something about events the reader may not see exactly when the filter names h values, all of them
    * readable or unknown, could match something, and some private group is hidden from the reader.
    */
  lemma RevealsIff(groups: Groups, f: Filter, reader: Pubkey)
    ensures Reveals(groups, f, reader)
            <==> HTags(f) != [] && AllReadable(groups, f, reader) && HiddenSet(groups, reader) != {} && Satisfiable(f)
  {
    hide Distinguishes, Satisfiable, AllReadable, HiddenSet, HTags;
    if HTags(f) != [] && AllReadable(groups, f, reader) && HiddenSet(groups, reader) != {} && Satisfiable(f) {
      var e, hidden := RevealingStore(groups, f, reader);
    } else if store, store', hidden, hidden' :| Distinguishes(groups, f, reader, store, store', hidden, hidden') {
      NothingRevealed(groups, f, reader, store, store', hidden, hidden');
      assert false;
    }
  }

  /** The reader sees an empty store in both cases, and the count tells them apart. */
  lemma RevealingStore(groups: Groups, f: Filter, reader: Pubkey) returns (e: Event, hidden: seq<GroupId>)
    requires HTags(f) != [] && AllReadable(groups, f, reader) && HiddenSet(groups, reader) != {} && Satisfiable(f)
    ensures Distinguishes(groups, f, reader, [], [e], hidden, hidden)
  {
    hide Satisfiable, Matches, Visible, CountWith, ReadersView, Owed, Withheld, CanRead, HiddenSet, AllReadable;
    hidden := ListTheHidden(HiddenSet(groups, reader));
    e := HiddenSample(groups, f, reader);
    OneEvent(groups, f, reader, e);
    CountByName(groups, [e], f, reader, hidden);
    CountByName(groups, [], f, reader, hidden);
    NothingInEmptyStore(groups, f, reader);
  }

  lemma NothingInEmptyStore(groups: Groups, f: Filter, reader: Pubkey)
    ensures Owed(groups, [], f, reader) == [] && Withheld(groups, [], f, reader) == []
  {}

  lemma NothingRevealed(groups: Groups, f: Filter, reader: Pubkey, store: seq<Event>, store': seq<Event>,
                        hidden: seq<GroupId>, hidden': seq<GroupId>)
    requires HTags(f) == [] || !AllReadable(groups, f, reader) || HiddenSet(groups, reader) == {} || !Satisfiable(f)
    ensures !Distinguishes(groups, f, reader, store, store', hidden, hidden')
  {
    hide Satisfiable, Matches, Visible, CountWith, Owed, Withheld, CanRead, HiddenSet, AllReadable, ListsHidden;
    hide ReadersView;
    if Distinguishes(groups, f, reader, store, store', hidden, hidden') {
      if HTags(f) == [] {
        CountRevealsNothing(groups, store, store', f, reader, hidden, hidden');
      } else {
        CountByName(groups, store, f, reader, hidden);
        CountByName(groups, store', f, reader, hidden');
        if HiddenSet(groups, reader) == {} {
          NothingHiddenNothingWithheld(groups, store, f, reader);
          NothingHiddenNothingWithheld(groups, store', f, reader);
          OwedIsMatchesInView(groups, store, f, reader);
          OwedIsMatchesInView(groups, store', f, reader);
        } else if !Satisfiable(f) {
          NothingMatches(groups, store, f, reader);
          NothingMatches(groups, store', f, reader);
        }
      }
    }
  }

  /** The smallest case: an unknown h value tells a reader of a private group's event that no query shows them. */
  lemma BucketCountReveals()
    ensures var f := BucketFilter();
            && ReadersView(SECRET_GROUP, [], "") == ReadersView(SECRET_GROUP, [TWO_TAGS], "")
            && CountWith(SECRET_GROUP, [], f, "", ["secret"]) == 0
            && CountWith(SECRET_GROUP, [TWO_TAGS], f, "", ["secret"]) == 1
  {
    hide Matches, Visible, CountWith, CanRead, ReadersView, Owed, Withheld;
    TwoTagsIsHidden();
    TwoTagsMatches();
    SecondTagIsCounted();
    OneEvent(SECRET_GROUP, BucketFilter(), "", TWO_TAGS);
    NothingInEmptyStore(SECRET_GROUP, BucketFilter(), "");
    CountByName(SECRET_GROUP, [], BucketFilter(), "", ["secret"]);
  }
}
