/** The paths of leaves: each spells out the way from the root of the parsed result down to its string. */
module LeafPaths {
  import opened Options
  import opened JsonStrings
  import opened JsonNumbers
  import opened JsonValues
  import opened JsonCanon
  import opened Utf8
  import opened Leaves
  import opened LeafTheorems

  // ---------- The way to a string ----------

  /** One step down: to the value of a key, or into a list, whichever item it is. */
  datatype Hop = Key(name: Text) | Into

  /** A string value and the hops that lead to it. */
  datatype Place = Place(hops: seq<Hop>, text: Text)

  /** Following the hops from `v` can end at the string `text`. */
  ghost predicate Leads(v: Json, hops: seq<Hop>, text: Text)
    decreases |hops|
  {
    if hops == [] then v == Str(text)
    else
      match hops[0]
      case Key(name) =>
        v.Obj? && exists i :: 0 <= i < |v.members| && v.members[i].key == name
                              && Leads(v.members[i].value, hops[1..], text)
      case Into => v.Arr? && exists i :: 0 <= i < |v.items| && Leads(v.items[i], hops[1..], text)
  }

  /** A path is written from its hops: a dot before a key unless nothing is written yet, brackets for a list. */
  function Rendered(hops: seq<Hop>): Text
  {
    if hops == [] then []
    else
      var before := Rendered(hops[..|hops| - 1]);
      match hops[|hops| - 1]
      case Key(name) => if before == [] then name else before + FromString(".") + name
      case Into => before + FromString("[]")
  }

  // ---------- The strings of a value, in order, with their hops ----------

  function Under(hop: Hop, places: seq<Place>): (r: seq<Place>)
    ensures |r| == |places|
    ensures forall i :: 0 <= i < |r| ==> r[i] == Place([hop] + places[i].hops, places[i].text)
  {
    seq(|places|, i requires 0 <= i < |places| => Place([hop] + places[i].hops, places[i].text))
  }

  function Places(v: Json): seq<Place>
    decreases v, 1
  {
    match v
    case Str(text) => [Place([], text)]
    case Arr(items) => ItemPlaces(items)
    case Obj(members) => MemberPlaces(members)
    case _ => []
  }

  function ItemPlaces(items: seq<Json>): seq<Place>
    decreases items, 0
  {
    if items == [] then [] else Under(Into, Places(items[0])) + ItemPlaces(items[1..])
  }

  function MemberPlaces(members: seq<Member>): seq<Place>
    decreases members, 0
  {
    if members == [] then [] else Under(Key(members[0].key), Places(members[0].value)) + MemberPlaces(members[1..])
  }

  /** They are exactly the strings that hops lead to. */
  lemma {:induction false} PlacesAreLed(v: Json, place: Place)
    ensures place in Places(v) <==> Leads(v, place.hops, place.text)
    decreases v, 1
  {
    match v
    case Arr(items) => ItemPlacesAreLed(items, place);
    case Obj(members) => MemberPlacesAreLed(members, place);
    case _ =>
  }

  lemma InUnder(hop: Hop, places: seq<Place>, place: Place)
    ensures place in Under(hop, places) <==>
              place.hops != [] && place.hops[0] == hop && Place(place.hops[1..], place.text) in places
  {
    if place in Under(hop, places) {
      var i :| 0 <= i < |places| && Under(hop, places)[i] == place;
      assert place.hops[1..] == places[i].hops;
    }
    if place.hops != [] && place.hops[0] == hop && Place(place.hops[1..], place.text) in places {
      var i :| 0 <= i < |places| && places[i] == Place(place.hops[1..], place.text);
      assert [hop] + place.hops[1..] == place.hops;
      assert Under(hop, places)[i] == place;
    }
  }

  lemma {:induction false} ItemPlacesAreLed(items: seq<Json>, place: Place)
    ensures place in ItemPlaces(items) <==>
              place.hops != [] && place.hops[0] == Into
              && exists i :: 0 <= i < |items| && Leads(items[i], place.hops[1..], place.text)
    decreases items, 0
  {
    if items != [] {
      ItemPlacesAreLed(items[1..], place);
      InUnder(Into, Places(items[0]), place);
      if place.hops != [] {
        PlacesAreLed(items[0], Place(place.hops[1..], place.text));
        FirstOrLater(items, (item: Json) => Leads(item, place.hops[1..], place.text));
      }
    }
  }

  lemma FirstOrLater<T>(items: seq<T>, holds: T -> bool)
    requires items != []
    ensures (exists i :: 0 <= i < |items| && holds(items[i]))
            <==> holds(items[0]) || exists i :: 0 <= i < |items[1..]| && holds(items[1..][i])
  {
    if i :| 0 <= i < |items| && holds(items[i]) {
      if i > 0 {
        assert items[1..][i - 1] == items[i];
      }
    }
  }

  lemma {:induction false} MemberPlacesAreLed(members: seq<Member>, place: Place)
    ensures place in MemberPlaces(members) <==>
              place.hops != [] && place.hops[0].Key?
              && exists i :: 0 <= i < |members| && members[i].key == place.hops[0].name
                             && Leads(members[i].value, place.hops[1..], place.text)
    decreases members, 0
  {
    if members != [] {
      MemberPlacesAreLed(members[1..], place);
      InUnder(Key(members[0].key), Places(members[0].value), place);
      if place.hops != [] && place.hops[0].Key? {
        PlacesAreLed(members[0].value, Place(place.hops[1..], place.text));
        FirstOrLater(members, (member: Member) =>
                       member.key == place.hops[0].name && Leads(member.value, place.hops[1..], place.text));
      }
    }
  }

  // ---------- Leaf i is at place i ----------

  /** The leaves found below a point whose own hops are `before` are those of `places`, one for one. */
  ghost predicate Matches(leaves: seq<Leaf>, places: seq<Place>, before: seq<Hop>)
  {
    && |leaves| == |places|
    && forall i :: 0 <= i < |leaves| ==>
         leaves[i].path == Rendered(before + places[i].hops) && leaves[i].value == places[i].text
  }

  lemma MatchesConcat(x: seq<Leaf>, y: seq<Leaf>, p: seq<Place>, q: seq<Place>, before: seq<Hop>)
    requires Matches(x, p, before) && Matches(y, q, before)
    ensures Matches(x + y, p + q, before)
  {
    hide Rendered;
  }

  lemma MatchesUnder(leaves: seq<Leaf>, places: seq<Place>, before: seq<Hop>, hop: Hop)
    requires Matches(leaves, places, before + [hop])
    ensures Matches(leaves, Under(hop, places), before)
  {
    hide Rendered;
    forall i | 0 <= i < |leaves| ensures leaves[i].path == Rendered(before + Under(hop, places)[i].hops) {
      assert before + [hop] + places[i].hops == before + ([hop] + places[i].hops);
    }
  }

  lemma RenderedStep(before: seq<Hop>, key: Text)
    ensures MemberPath(Rendered(before), key) == Rendered(before + [Key(key)])
    ensures ItemPath(Rendered(before)) == Rendered(before + [Into])
  {
    assert (before + [Key(key)])[..|before|] == before;
    assert (before + [Into])[..|before|] == before;
    assert FromString(".") == [DOT] && FromString("[]") == [OPEN_LIST, CLOSE_LIST];
  }

  lemma {:induction false} LeavesMatch(v: Json, before: seq<Hop>, at: nat)
    ensures Matches(LeavesOf(v, Rendered(before), at), Places(v), before)
    decreases v, 1
  {
    hide Rendered, ItemPath, MemberPath;
    match v
    case Str(text) =>
      assert before + [] == before;
    case Arr(items) =>
      RenderedStep(before, []);
      ItemLeavesMatch(items, before, at + 1);
    case Obj(members) =>
      MemberLeavesMatch(members, before, at + 1);
    case _ =>
  }

  lemma {:induction false} ItemLeavesMatch(items: seq<Json>, before: seq<Hop>, at: nat)
    ensures Matches(LeavesOfItems(items, Rendered(before + [Into]), at), ItemPlaces(items), before)
    decreases items, 0
  {
    hide Rendered, Matches, LeavesOf, Places, Print;
    if items == [] {
      NothingMatches(before);
    } else {
      var path := Rendered(before + [Into]);
      var next := at + |Print(items[0])| + 1;
      LeavesMatch(items[0], before + [Into], at);
      MatchesUnder(LeavesOf(items[0], path, at), Places(items[0]), before, Into);
      ItemLeavesMatch(items[1..], before, next);
      MatchesConcat(LeavesOf(items[0], path, at), LeavesOfItems(items[1..], path, next),
                    Under(Into, Places(items[0])), ItemPlaces(items[1..]), before);
    }
  }

  lemma NothingMatches(before: seq<Hop>)
    ensures Matches([], [], before)
  {
  }

  lemma {:induction false} MemberLeavesMatch(members: seq<Member>, before: seq<Hop>, at: nat)
    ensures Matches(LeavesOfMembers(members, Rendered(before), at), MemberPlaces(members), before)
    decreases members, 0
  {
    hide Rendered, Matches, LeavesOf, Places, Print, MemberPath;
    if members == [] {
      NothingMatches(before);
    } else {
      var hop := Key(members[0].key);
      var path, inner := Rendered(before), Rendered(before + [hop]);
      var start := ValueAt(members[0], at);
      var next := start + |Print(members[0].value)| + 1;
      RenderedStep(before, members[0].key);
      LeavesMatch(members[0].value, before + [hop], start);
      MatchesUnder(LeavesOf(members[0].value, inner, start), Places(members[0].value), before, hop);
      MemberLeavesMatch(members[1..], before, next);
      MatchesConcat(LeavesOf(members[0].value, inner, start), LeavesOfMembers(members[1..], path, next),
                    Under(hop, Places(members[0].value)), MemberPlaces(members[1..]), before);
    }
  }

  /**
   The leaves of an accepted text: leaf i is string i of its parse, and its path is written from the hops that lead
   there.
  */
  lemma PathsAreRendered(text: Text, reprint: Text -> Text)
    requires Locate(text, reprint).Located?
    ensures var v, leaves := Loads(text, reprint).value, Locate(text, reprint).leaves;
            && |leaves| == |Places(v)|
            && forall i :: 0 <= i < |leaves| ==>
                 leaves[i].path == Rendered(Places(v)[i].hops) && leaves[i].value == Places(v)[i].text
                 && Leads(v, Places(v)[i].hops, leaves[i].value)
  {
    hide Rendered, LeavesOf, Places, Print, Leads;
    var v, leaves := Loads(text, reprint).value, Locate(text, reprint).leaves;
    NothingRendered();
    LeavesMatch(v, [], 0);
    forall i | 0 <= i < |leaves|
      ensures leaves[i].path == Rendered(Places(v)[i].hops)
      ensures Leads(v, Places(v)[i].hops, Places(v)[i].text)
    {
      assert [] + Places(v)[i].hops == Places(v)[i].hops;
      PlacesAreLed(v, Places(v)[i]);
    }
  }

  lemma NothingRendered()
    ensures Rendered([]) == []
  {
  }

  // ---------- One result ----------

  /** The shape of a result with one source: `{"sources":[{"excerpt":...}]}` */
  function OneExcerpt(excerpt: Text): Json
  {
    Obj([Member(FromString("sources"), Arr([Obj([Member(FromString("excerpt"), Str(excerpt))])]))])
  }

  lemma OneExcerptPlaces(excerpt: Text)
    ensures Places(OneExcerpt(excerpt))
            == [Place([Key(FromString("sources")), Into, Key(FromString("excerpt"))], excerpt)]
  {
    var k, l := Key(FromString("sources")), Key(FromString("excerpt"));
    var inner := Member(FromString("excerpt"), Str(excerpt));
    OnePlace(inner);
    OneItemPlace(Obj([inner]));
    OnePlace(Member(FromString("sources"), Arr([Obj([inner])])));
    var root := Place([], excerpt);
    assert Places(Str(excerpt)) == [root] && [l] + root.hops == [l];
    assert Under(l, [root]) == [Place([l], excerpt)];
    assert [Into] + [l] == [Into, l];
    assert [k] + [Into, l] == [k, Into, l];
  }

  lemma OnePlace(member: Member)
    ensures Places(Obj([member])) == Under(Key(member.key), Places(member.value))
  {
    assert [member][1..] == [];
    assert MemberPlaces([]) == [];
  }

  lemma OneItemPlace(item: Json)
    ensures Places(Arr([item])) == Under(Into, Places(item))
  {
    assert [item][1..] == [];
    assert ItemPlaces([]) == [];
  }

  lemma RenderExcerpt()
    ensures Rendered([Key(FromString("sources")), Into, Key(FromString("excerpt"))]) == FromString("sources[].excerpt")
  {
    var k, l := Key(FromString("sources")), Key(FromString("excerpt"));
    assert [k, Into, l][..2] == [k, Into] && [k, Into][..1] == [k] && [k][..0] == [];
    assert Rendered([k]) == FromString("sources");
    assert Rendered([k, Into]) == FromString("sources") + FromString("[]");
    assert FromString("sources[].excerpt")
           == FromString("sources") + FromString("[]") + FromString(".") + FromString("excerpt");
  }

  lemma OneExcerptIsCanonical(excerpt: Text, reprint: Text -> Text)
    requires Joined(excerpt)
    ensures Canonical(OneExcerpt(excerpt), reprint)
  {
    hide FromString;
    NamesAreJoined();
    var inner := Obj([Member(FromString("excerpt"), Str(excerpt))]);
    assert Settled(inner, reprint) && AllJoined(inner);
    assert Settled(Arr([inner]), reprint) && AllJoined(Arr([inner]));
  }

  lemma NamesAreJoined()
    ensures Joined(FromString("sources")) && Joined(FromString("excerpt"))
  {
  }

  /** The one leaf of the print of such a result is its excerpt, at `sources[].excerpt`. */
  lemma ExcerptPath(excerpt: Text, reprint: Text -> Text)
    requires Joined(excerpt)
    ensures var located := Locate(Print(OneExcerpt(excerpt)), reprint);
            && located.Located? && |located.leaves| == 1
            && located.leaves[0].path == FromString("sources[].excerpt") && located.leaves[0].value == excerpt
  {
    hide Print, Places, Rendered, OneExcerpt, FromString, Leads, LeavesOf, Canonical;
    OneExcerptIsCanonical(excerpt, reprint);
    LoadsPrint(OneExcerpt(excerpt), reprint);
    PathsAreRendered(Print(OneExcerpt(excerpt)), reprint);
    OneExcerptPlaces(excerpt);
    RenderExcerpt();
  }
}
