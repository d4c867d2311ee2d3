/** What the leaf offsets mean, and why the first bytes of a result decide which leaves have ended. */
module LeafTheorems {
  import opened JsonStrings
  import opened JsonNumbers
  import opened JsonValues
  import opened JsonCanon
  import opened Leaves

  // ---------- Offsets ----------

  ghost predicate Within(leaves: seq<Leaf>, low: nat, high: nat)
  {
    forall i :: 0 <= i < |leaves| ==> low < leaves[i].endByte <= high
  }

  ghost predicate Increasing(leaves: seq<Leaf>)
  {
    forall i, j :: 0 <= i < j < |leaves| ==> leaves[i].endByte < leaves[j].endByte
  }

  lemma JoinIncreasing(x: seq<Leaf>, y: seq<Leaf>, low: nat, mid: nat, high: nat)
    requires Within(x, low, mid) && Within(y, mid, high) && low <= mid <= high && Increasing(x) && Increasing(y)
    ensures Within(x + y, low, high) && Increasing(x + y)
  {
  }

  lemma {:induction false} LeavesInOrder(v: Json, path: Text, at: nat)
    ensures Placed(LeavesOf(v, path, at), at, at + |Print(v)|)
    decreases v, 1
  {
    hide Print, PrintItems, PrintMembers, LeavesOf, LeavesOfItems, LeavesOfMembers, Placed;
    match v
    case Arr(items) =>
      ListParts(items, path, at);
      ItemLeavesInOrder(items, ItemPath(path), at + 1);
      PlacedWithin(LeavesOf(v, path, at), at, at + |Print(v)|);
    case Obj(members) =>
      ObjectParts(members, path, at);
      MemberLeavesInOrder(members, path, at + 1);
      PlacedWithin(LeavesOf(v, path, at), at, at + |Print(v)|);
    case _ =>
      AtomInOrder(v, path, at);
  }

  /** What is placed inside brackets is placed in the whole. */
  lemma PlacedWithin(leaves: seq<Leaf>, low: nat, high: nat)
    requires low + 2 <= high && Placed(leaves, low + 1, high - 1)
    ensures Placed(leaves, low, high)
  {
  }

  lemma AtomInOrder(v: Json, path: Text, at: nat)
    requires !v.Arr? && !v.Obj?
    ensures Placed(LeavesOf(v, path, at), at, at + |Print(v)|)
  {
  }

  ghost predicate Placed(leaves: seq<Leaf>, low: nat, high: nat)
  {
    Within(leaves, low, high) && Increasing(leaves)
  }

  lemma {:induction false} ItemLeavesInOrder(items: seq<Json>, path: Text, at: nat)
    ensures Placed(LeavesOfItems(items, path, at), at, at + |PrintItems(items)|)
    decreases items, 0
  {
    if items != [] {
      var n := |Print(items[0])|;
      LeavesInOrder(items[0], path, at);
      ItemLeavesInOrder(items[1..], path, at + n + 1);
      FirstItemInOrder(items, path, at, n);
    }
  }

  lemma FirstItemInOrder(items: seq<Json>, path: Text, at: nat, n: nat)
    requires items != [] && n == |Print(items[0])|
    requires Placed(LeavesOf(items[0], path, at), at, at + n)
    requires Placed(LeavesOfItems(items[1..], path, at + n + 1), at + n + 1, at + n + 1 + |PrintItems(items[1..])|)
    ensures Placed(LeavesOfItems(items, path, at), at, at + |PrintItems(items)|)
  {
    hide Print, LeavesOf, PrintItems, Placed;
    ItemsSize(items);
    JoinPlaced(LeavesOf(items[0], path, at), LeavesOfItems(items[1..], path, at + n + 1),
               at, at, n, |PrintItems(items[1..])|, |items| == 1, at + |PrintItems(items)|);
  }

  lemma ItemsSize(items: seq<Json>)
    requires items != []
    ensures |PrintItems(items)| == |Print(items[0])| + if |items| == 1 then 0 else 1 + |PrintItems(items[1..])|
    ensures |items| == 1 ==> |PrintItems(items[1..])| == 0
  {
    hide Print;
  }

  lemma {:induction false} MemberLeavesInOrder(members: seq<Member>, path: Text, at: nat)
    ensures Placed(LeavesOfMembers(members, path, at), at, at + |PrintMembers(members)|)
    decreases members, 0
  {
    hide Print, PrintMembers, LeavesOf, LeavesOfMembers, Placed, MemberPath, ValueAt;
    if members == [] {
      NothingPlaced(path, at);
    } else {
      var start, n := ValueAt(members[0], at), |Print(members[0].value)|;
      LeavesInOrder(members[0].value, MemberPath(path, members[0].key), start);
      MemberLeavesInOrder(members[1..], path, start + n + 1);
      FirstMemberInOrder(members, path, at, start, n);
    }
  }

  lemma NothingPlaced(path: Text, at: nat)
    ensures Placed(LeavesOfMembers([], path, at), at, at + |PrintMembers([])|)
  {
  }

  lemma FirstMemberInOrder(members: seq<Member>, path: Text, at: nat, start: nat, n: nat)
    requires members != [] && start == ValueAt(members[0], at) && n == |Print(members[0].value)|
    requires Placed(LeavesOf(members[0].value, MemberPath(path, members[0].key), start), start, start + n)
    requires Placed(LeavesOfMembers(members[1..], path, start + n + 1), start + n + 1,
                    start + n + 1 + |PrintMembers(members[1..])|)
    ensures Placed(LeavesOfMembers(members, path, at), at, at + |PrintMembers(members)|)
  {
    hide Print, Quote, LeavesOf, PrintMembers, Placed, MemberPath;
    MembersSize(members, at);
    JoinPlaced(LeavesOf(members[0].value, MemberPath(path, members[0].key), start),
               LeavesOfMembers(members[1..], path, start + n + 1),
               at, start, n, |PrintMembers(members[1..])|, |members| == 1, at + |PrintMembers(members)|);
  }

  lemma JoinPlaced(x: seq<Leaf>, y: seq<Leaf>, at: nat, start: nat, n: nat, rest: nat, single: bool, high: nat)
    requires at <= start && Placed(x, start, start + n) && Placed(y, start + n + 1, start + n + 1 + rest)
    requires (single ==> rest == 0) && high == if single then start + n else start + n + 1 + rest
    ensures Placed(x + y, at, high)
  {
    if !single {
      JoinIncreasing(x, y, at, start + n + 1, high);
    }
  }

  lemma MembersSize(members: seq<Member>, at: nat)
    requires members != []
    ensures var end := ValueAt(members[0], at) + |Print(members[0].value)|;
            && at < end && (|members| == 1 ==> |PrintMembers(members[1..])| == 0)
            && at + |PrintMembers(members)|
               == if |members| == 1 then end else end + 1 + |PrintMembers(members[1..])|
  {
    hide Quote, Print;
  }

  /** The text up to the end of the leaf closes with the leaf's own literal. */
  ghost predicate EndsInLiteral(text: Text, leaf: Leaf)
  {
    var literal := Quote(leaf.value);
    |literal| <= leaf.endByte <= |text| && text[leaf.endByte - |literal|..leaf.endByte] == literal
  }

  ghost predicate AllEndInLiterals(text: Text, leaves: seq<Leaf>)
  {
    forall i :: 0 <= i < |leaves| ==> EndsInLiteral(text, leaves[i])
  }

  lemma {:induction false} LeavesEndInLiterals(before: Text, v: Json, after: Text, path: Text)
    ensures AllEndInLiterals(before + Print(v) + after, LeavesOf(v, path, |before|))
    decreases v, 1
  {
    var text := before + Print(v) + after;
    match v
    case Str(s) =>
      assert text[|before|..|before| + |Quote(s)|] == Quote(s);
    case Arr(items) =>
      ItemLeavesEndInLiterals(before + [OPEN_LIST], items, [CLOSE_LIST] + after, ItemPath(path));
      Rebracket(before, [OPEN_LIST], PrintItems(items), [CLOSE_LIST], after);
    case Obj(members) =>
      MemberLeavesEndInLiterals(before + [OPEN_OBJECT], members, [CLOSE_OBJECT] + after, path);
      Rebracket(before, [OPEN_OBJECT], PrintMembers(members), [CLOSE_OBJECT], after);
    case _ =>
  }

  lemma Rebracket(before: Text, open: Text, inside: Text, close: Text, after: Text)
    ensures (before + open) + inside + (close + after) == before + (open + inside + close) + after
  {
  }

  lemma {:induction false} ItemLeavesEndInLiterals(before: Text, items: seq<Json>, after: Text, path: Text)
    ensures AllEndInLiterals(before + PrintItems(items) + after, LeavesOfItems(items, path, |before|))
    decreases items, 0
  {
    if items != [] {
      var head := Print(items[0]);
      var tail := if |items| == 1 then [] else [COMMA] + PrintItems(items[1..]);
      LeavesEndInLiterals(before, items[0], tail + after, path);
      assert PrintItems(items) == head + tail;
      Regroup(before, head, tail, after);
      if |items| > 1 {
        ItemLeavesEndInLiterals(before + head + [COMMA], items[1..], after, path);
        Regroup(before + head, [COMMA], PrintItems(items[1..]), after);
      }
    }
  }

  lemma Regroup(a: Text, b: Text, c: Text, d: Text)
    ensures a + b + (c + d) == a + (b + c) + d
    ensures (a + b) + c + d == a + (b + c) + d
  {
  }

  lemma {:induction false} MemberLeavesEndInLiterals(before: Text, members: seq<Member>, after: Text, path: Text)
    ensures AllEndInLiterals(before + PrintMembers(members) + after, LeavesOfMembers(members, path, |before|))
    decreases members, 0
  {
    if members != [] {
      var lead, head := Quote(members[0].key) + [COLON], Print(members[0].value);
      var tail := if |members| == 1 then [] else [COMMA] + PrintMembers(members[1..]);
      LeavesEndInLiterals(before + lead, members[0].value, tail + after, MemberPath(path, members[0].key));
      assert PrintMembers(members) == lead + head + tail;
      RegroupMember(before, lead, head, tail, after);
      if |members| > 1 {
        MemberLeavesEndInLiterals(before + lead + head + [COMMA], members[1..], after, path);
        Regroup(before + lead + head, [COMMA], PrintMembers(members[1..]), after);
      }
    }
  }

  lemma RegroupMember(a: Text, b: Text, c: Text, d: Text, e: Text)
    ensures (a + b) + c + (d + e) == a + (b + c + d) + e
    ensures (a + b + c) + d + e == a + (b + c + d) + e
  {
  }

  // ---------- Which strings are leaves ----------

  /** The string values of `v`, in order; keys are not among them. */
  function StringValues(v: Json): seq<Text>
    decreases v, 1
  {
    match v
    case Str(text) => [text]
    case Arr(items) => ItemStrings(items)
    case Obj(members) => MemberStrings(members)
    case _ => []
  }

  function ItemStrings(items: seq<Json>): seq<Text>
    decreases items, 0
  {
    if items == [] then [] else StringValues(items[0]) + ItemStrings(items[1..])
  }

  function MemberStrings(members: seq<Member>): seq<Text>
    decreases members, 0
  {
    if members == [] then [] else StringValues(members[0].value) + MemberStrings(members[1..])
  }

  function ValuesOf(leaves: seq<Leaf>): seq<Text>
  {
    seq(|leaves|, i requires 0 <= i < |leaves| => leaves[i].value)
  }

  lemma ValuesOfConcat(x: seq<Leaf>, y: seq<Leaf>)
    ensures ValuesOf(x + y) == ValuesOf(x) + ValuesOf(y)
  {
  }

  lemma {:induction false} LeavesAreStringValues(v: Json, path: Text, at: nat)
    ensures ValuesOf(LeavesOf(v, path, at)) == StringValues(v)
    decreases v, 1
  {
    match v
    case Arr(items) => ItemLeavesAreStrings(items, ItemPath(path), at + 1);
    case Obj(members) => MemberLeavesAreStrings(members, path, at + 1);
    case _ =>
  }

  lemma {:induction false} ItemLeavesAreStrings(items: seq<Json>, path: Text, at: nat)
    ensures ValuesOf(LeavesOfItems(items, path, at)) == ItemStrings(items)
    decreases items, 0
  {
    if items != [] {
      var next := at + |Print(items[0])| + 1;
      LeavesAreStringValues(items[0], path, at);
      ItemLeavesAreStrings(items[1..], path, next);
      ValuesOfConcat(LeavesOf(items[0], path, at), LeavesOfItems(items[1..], path, next));
    }
  }

  lemma {:induction false} MemberLeavesAreStrings(members: seq<Member>, path: Text, at: nat)
    ensures ValuesOf(LeavesOfMembers(members, path, at)) == MemberStrings(members)
    decreases members, 0
  {
    if members != [] {
      var inner, start := MemberPath(path, members[0].key), ValueAt(members[0], at);
      var next := start + |Print(members[0].value)| + 1;
      LeavesAreStringValues(members[0].value, inner, start);
      MemberLeavesAreStrings(members[1..], path, next);
      ValuesOfConcat(LeavesOf(members[0].value, inner, start), LeavesOfMembers(members[1..], path, next));
    }
  }

  // ---------- The main result on one text ----------

  /**
   `text` is the print of the canonical value `v`, and `leaves` are its string values, in order, each where it ends.
  */
  ghost predicate PlacedLeaves(text: Text, leaves: seq<Leaf>, v: Json, reprint: Text -> Text)
  {
    && Canonical(v, reprint) && Print(v) == text
    && ValuesOf(leaves) == StringValues(v)
    && Increasing(leaves) && Within(leaves, 0, |text|)
    && AllEndInLiterals(text, leaves)
  }

  lemma PrintIsPlaced(v: Json, reprint: Text -> Text)
    requires Canonical(v, reprint)
    ensures PlacedLeaves(Print(v), LeavesOf(v, [], 0), v, reprint)
  {
    hide Canonical, Print, LeavesOf, Increasing, Within, AllEndInLiterals, ValuesOf, StringValues;
    LeavesInOrder(v, [], 0);
    LeavesAreStringValues(v, [], 0);
    LeavesEndInLiterals([], v, [], []);
    assert [] + Print(v) + [] == Print(v);
  }

  /** Exactly the prints of canonical values are accepted, and the leaves of one are its strings with their ends. */
  lemma LocateAcceptsExactlyPrints(text: Text, reprint: Text -> Text)
    requires GoodReprint(reprint)
    ensures Locate(text, reprint).Located? <==> exists v :: Canonical(v, reprint) && Print(v) == text
    ensures Locate(text, reprint).Located? ==>
              exists v :: PlacedLeaves(text, Locate(text, reprint).leaves, v, reprint)
  {
    hide Canonical, Print, LeavesOf, PlacedLeaves, GoodReprint;
    if Locate(text, reprint).Located? {
      var v := Loads(text, reprint).value;
      CompactTextIsCanonical(text, v, reprint);
      PrintIsPlaced(v, reprint);
    }
    if v :| Canonical(v, reprint) && Print(v) == text {
      CompactTextIsCanonical(text, v, reprint);
    }
  }
}
