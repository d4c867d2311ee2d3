/** The leaves that have ended inside the first bytes of a result depend on those bytes alone. */
module LeafPrefix {
  import opened JsonStrings
  import opened JsonNumbers
  import opened JsonValues
  import opened JsonCanon
  import opened Leaves
  import opened LeafTheorems

  /** The leaves that end at or before `limit`. */
  function UpTo(leaves: seq<Leaf>, limit: int): seq<Leaf>
  {
    if leaves == [] then []
    else if leaves[0].endByte <= limit then [leaves[0]] + UpTo(leaves[1..], limit)
    else UpTo(leaves[1..], limit)
  }

  lemma {:induction false} UpToConcat(x: seq<Leaf>, y: seq<Leaf>, limit: int)
    ensures UpTo(x + y, limit) == UpTo(x, limit) + UpTo(y, limit)
  {
    if x == [] {
      assert x + y == y;
    } else {
      UpToConcat(x[1..], y, limit);
      assert (x + y)[1..] == x[1..] + y && (x + y)[0] == x[0];
      ConsConcat(x[0], UpTo(x[1..], limit), UpTo(y, limit));
    }
  }

  lemma ConsConcat(first: Leaf, x: seq<Leaf>, y: seq<Leaf>)
    ensures [first] + x + y == [first] + (x + y)
  {
  }

  lemma {:induction false} UpToNone(x: seq<Leaf>, low: nat, high: nat, limit: int)
    requires Within(x, low, high) && limit <= low
    ensures UpTo(x, limit) == []
  {
    if x != [] {
      UpToNone(x[1..], low, high, limit);
    }
  }

  lemma ValueEndsLater(v: Json, path: Text, at: nat, limit: int)
    requires limit <= at
    ensures UpTo(LeavesOf(v, path, at), limit) == []
  {
    LeavesInOrder(v, path, at);
    UpToNone(LeavesOf(v, path, at), at, at + |Print(v)|, limit);
  }

  lemma ItemsEndLater(items: seq<Json>, path: Text, at: nat, limit: int)
    requires limit <= at
    ensures UpTo(LeavesOfItems(items, path, at), limit) == []
  {
    ItemLeavesInOrder(items, path, at);
    UpToNone(LeavesOfItems(items, path, at), at, at + |PrintItems(items)|, limit);
  }

  lemma MembersEndLater(members: seq<Member>, path: Text, at: nat, limit: int)
    requires limit <= at
    ensures UpTo(LeavesOfMembers(members, path, at), limit) == []
  {
    MemberLeavesInOrder(members, path, at);
    UpToNone(LeavesOfMembers(members, path, at), at, at + |PrintMembers(members)|, limit);
  }

  lemma SplitItemLeaves(items: seq<Json>, path: Text, at: nat, limit: int)
    requires items != []
    ensures UpTo(LeavesOfItems(items, path, at), limit)
            == UpTo(LeavesOf(items[0], path, at), limit)
               + UpTo(LeavesOfItems(items[1..], path, at + |Print(items[0])| + 1), limit)
  {
    UpToConcat(LeavesOf(items[0], path, at), LeavesOfItems(items[1..], path, at + |Print(items[0])| + 1), limit);
  }

  lemma SplitMemberLeaves(members: seq<Member>, path: Text, at: nat, limit: int)
    requires members != []
    ensures var start := ValueAt(members[0], at);
            UpTo(LeavesOfMembers(members, path, at), limit)
            == UpTo(LeavesOf(members[0].value, MemberPath(path, members[0].key), start), limit)
               + UpTo(LeavesOfMembers(members[1..], path, start + |Print(members[0].value)| + 1), limit)
  {
    hide LeavesOf, Print, Quote, UpTo;
    var start := ValueAt(members[0], at);
    UpToConcat(LeavesOf(members[0].value, MemberPath(path, members[0].key), start),
               LeavesOfMembers(members[1..], path, start + |Print(members[0].value)| + 1), limit);
  }

  /** Both texts are at least b long and agree on their first b characters. */
  ghost predicate Agree(s: Text, t: Text, b: int)
  {
    0 <= b <= |s| && b <= |t| && s[..b] == t[..b]
  }

  lemma AgreeAt(s: Text, t: Text, b: int, i: nat)
    requires Agree(s, t, b) && i < b
    ensures s[i] == t[i]
  {
    assert s[..b][i] == t[..b][i];
  }

  lemma AgreeTail(p: Text, s: Text, t: Text, b: int)
    requires Agree(p + s, p + t, b) && b >= |p|
    ensures Agree(s, t, b - |p|)
  {
    assert (p + s)[..b] == p + s[..b - |p|];
    assert (p + t)[..b] == p + t[..b - |p|];
    assert (p + s[..b - |p|])[|p|..] == s[..b - |p|] && (p + t[..b - |p|])[|p|..] == t[..b - |p|];
  }

  lemma AgreeOnStart(p: Text, s: Text, t: Text, b: int)
    requires Agree(p + s, t, b) && b >= |p|
    ensures t == p + t[|p|..]
  {
    assert p == (p + s)[..b][..|p|] == t[..|p|];
  }

  /** If all of the first literal is inside the agreement, the second literal is the same. */
  lemma SameLiteral(k: Text, s: Text, l: Text, t: Text, b: int)
    requires Joined(k) && Joined(l) && Agree(Quote(k) + s, Quote(l) + t, b) && b >= |Quote(k)|
    ensures k == l
  {
    AgreeOnStart(Quote(k), s, Quote(l) + t, b);
    QuoteRoundTrips(k, (Quote(l) + t)[|Quote(k)|..]);
    QuoteRoundTrips(l, t);
  }

  /** If all of the first value is inside the agreement, the second value is the same. */
  lemma SameValue(v: Json, s: Text, w: Json, t: Text, b: int, reprint: Text -> Text)
    requires Canonical(v, reprint) && Canonical(w, reprint) && Delimited(s) && Delimited(t)
    requires Agree(Print(v) + s, Print(w) + t, b)
    requires b > |Print(v)| || (b == |Print(v)| && !v.Number?)
    ensures v == w
  {
    hide Canonical, Print;
    var text := Print(w) + t;
    AgreeOnStart(Print(v), s, text, b);
    var rest := text[|Print(v)|..];
    if b > |Print(v)| {
      AgreeAt(Print(v) + s, text, b, |Print(v)|);
      assert rest[0] == text[|Print(v)|] == s[0];
    }
    ParsePrint(v, rest, reprint);
    ParsePrint(w, t, reprint);
  }

  lemma AgreeSym(s: Text, t: Text, b: int)
    requires Agree(s, t, b)
    ensures Agree(t, s, b)
  {
  }

  /** Different values end where the agreement ends, or later. */
  lemma DifferentValuesEndLater(v: Json, s: Text, w: Json, t: Text, b: int, reprint: Text -> Text)
    requires Canonical(v, reprint) && Canonical(w, reprint) && Delimited(s) && Delimited(t)
    requires Agree(Print(v) + s, Print(w) + t, b) && v != w
    ensures b <= |Print(v)| && b <= |Print(w)|
    ensures v.Str? ==> b < |Print(v)|
    ensures w.Str? ==> b < |Print(w)|
  {
    hide Canonical, Print, Agree;
    if b > |Print(v)| || (b == |Print(v)| && v.Str?) {
      SameValue(v, s, w, t, b, reprint);
    }
    if b > |Print(w)| || (b == |Print(w)| && w.Str?) {
      AgreeSym(Print(v) + s, Print(w) + t, b);
      SameValue(w, t, v, s, b, reprint);
    }
  }

  lemma ListText(items: seq<Json>, post: Text)
    ensures Print(Arr(items)) + post == [OPEN_LIST] + (PrintItems(items) + [CLOSE_LIST] + post)
  {
  }

  lemma {:induction false} LeavesAgree(v: Json, s: Text, w: Json, t: Text, path: Text, at: nat, b: int,
                                       reprint: Text -> Text)
    requires Canonical(v, reprint) && Canonical(w, reprint) && Delimited(s) && Delimited(t)
    requires Agree(Print(v) + s, Print(w) + t, b)
    ensures UpTo(LeavesOf(v, path, at), at + b) == UpTo(LeavesOf(w, path, at), at + b)
    decreases v, 4
  {
    if v == w {
    } else if b == 0 {
      ValueEndsLater(v, path, at, at);
      ValueEndsLater(w, path, at, at);
    } else if v.Arr? && w.Arr? {
      ListLeavesAgree(v.items, s, w.items, t, path, at, b, reprint);
    } else if v.Obj? && w.Obj? {
      ObjectLeavesAgree(v.members, s, w.members, t, path, at, b, reprint);
    } else {
      OtherLeavesAgree(v, s, w, t, path, at, b, reprint);
    }
  }

  lemma OtherLeavesAgree(v: Json, s: Text, w: Json, t: Text, path: Text, at: nat, b: int, reprint: Text -> Text)
    requires Canonical(v, reprint) && Canonical(w, reprint) && Delimited(s) && Delimited(t)
    requires Agree(Print(v) + s, Print(w) + t, b) && v != w && b > 0
    requires !(v.Arr? && w.Arr?) && !(v.Obj? && w.Obj?)
    ensures UpTo(LeavesOf(v, path, at), at + b) == UpTo(LeavesOf(w, path, at), at + b)
  {
    assert !v.Arr? && !v.Obj? && !w.Arr? && !w.Obj? by {
      PrintStart(v, reprint);
      PrintStart(w, reprint);
      hide Print;
      AgreeAt(Print(v) + s, Print(w) + t, b, 0);
    }
    DifferentValuesEndLater(v, s, w, t, b, reprint);
    hide Canonical;
    assert UpTo(LeavesOf(v, path, at), at + b) == [];
    assert UpTo(LeavesOf(w, path, at), at + b) == [];
  }

  lemma {:induction false} ListLeavesAgree(xs: seq<Json>, s: Text, ys: seq<Json>, t: Text, path: Text, at: nat, b: int,
                                           reprint: Text -> Text)
    requires Canonical(Arr(xs), reprint) && Canonical(Arr(ys), reprint) && b > 0
    requires Agree(Print(Arr(xs)) + s, Print(Arr(ys)) + t, b)
    ensures UpTo(LeavesOf(Arr(xs), path, at), at + b) == UpTo(LeavesOf(Arr(ys), path, at), at + b)
    decreases xs, 3
  {
    ListText(xs, s);
    ListText(ys, t);
    hide Print, PrintItems;
    AgreeTail([OPEN_LIST], PrintItems(xs) + [CLOSE_LIST] + s, PrintItems(ys) + [CLOSE_LIST] + t, b);
    ItemLeavesAgree(xs, s, ys, t, ItemPath(path), at + 1, b - 1, reprint);
  }

  lemma {:induction false} ObjectLeavesAgree(xs: seq<Member>, s: Text, ys: seq<Member>, t: Text, path: Text, at: nat,
                                             b: int,
                                             reprint: Text -> Text)
    requires CanonicalMembers(xs, reprint) && CanonicalMembers(ys, reprint) && b > 0
    requires Agree(Print(Obj(xs)) + s, Print(Obj(ys)) + t, b)
    ensures UpTo(LeavesOf(Obj(xs), path, at), at + b) == UpTo(LeavesOf(Obj(ys), path, at), at + b)
    decreases xs, 4
  {
    ObjectText(xs, s);
    ObjectText(ys, t);
    hide Print, PrintMembers;
    AgreeTail([OPEN_OBJECT], PrintMembers(xs) + [CLOSE_OBJECT] + s, PrintMembers(ys) + [CLOSE_OBJECT] + t, b);
    MemberLeavesAgree(xs, s, ys, t, path, at + 1, b - 1, reprint);
  }

  /** The rest of a printed list after its first item. */
  function AfterItem(items: seq<Json>, post: Text): Text
    requires items != []
  {
    if |items| == 1 then [CLOSE_LIST] + post else [COMMA] + (PrintItems(items[1..]) + [CLOSE_LIST] + post)
  }

  lemma AfterItemDelimited(items: seq<Json>, post: Text)
    requires items != []
    ensures Delimited(AfterItem(items, post))
  {
    hide PrintItems;
  }

  lemma ItemsText(items: seq<Json>, post: Text)
    requires items != []
    ensures PrintItems(items) + [CLOSE_LIST] + post == Print(items[0]) + AfterItem(items, post)
  {
    if |items| > 1 {
      SplitFirstItem(items, post);
    } else {
      hide Print;
      assert PrintItems(items) == Print(items[0]) + [];
    }
  }

  lemma ListStart(items: seq<Json>, post: Text, reprint: Text -> Text)
    requires items != [] && Settled(items[0], reprint)
    ensures (PrintItems(items) + [CLOSE_LIST] + post)[0] != CLOSE_LIST
  {
    PrintStart(items[0], reprint);
    ItemsText(items, post);
    hide Print;
  }

  ghost predicate CanonicalItems(items: seq<Json>, reprint: Text -> Text)
  {
    forall i :: 0 <= i < |items| ==> Canonical(items[i], reprint)
  }

  lemma {:induction false} ItemLeavesAgree(xs: seq<Json>, s: Text, ys: seq<Json>, t: Text, path: Text, at: nat, b: int,
                                           reprint: Text -> Text)
    requires CanonicalItems(xs, reprint) && CanonicalItems(ys, reprint)
    requires Agree(PrintItems(xs) + [CLOSE_LIST] + s, PrintItems(ys) + [CLOSE_LIST] + t, b)
    ensures UpTo(LeavesOfItems(xs, path, at), at + b) == UpTo(LeavesOfItems(ys, path, at), at + b)
    decreases xs, 2
  {
    if xs == [] || ys == [] {
      EmptyListsAgree(xs, s, ys, t, path, at, b, reprint);
    } else {
      ItemsText(xs, s);
      ItemsText(ys, t);
      FirstItemsAgree(xs, s, ys, t, path, at, b, reprint);
    }
  }

  lemma {:induction false} FirstItemsAgree(xs: seq<Json>, s: Text, ys: seq<Json>, t: Text, path: Text, at: nat, b: int,
                                           reprint: Text -> Text)
    requires xs != [] && ys != [] && CanonicalItems(xs, reprint) && CanonicalItems(ys, reprint)
    requires Agree(Print(xs[0]) + AfterItem(xs, s), Print(ys[0]) + AfterItem(ys, t), b)
    ensures UpTo(LeavesOfItems(xs, path, at), at + b) == UpTo(LeavesOfItems(ys, path, at), at + b)
    decreases xs, 1, 1
  {
    hide Agree, AfterItem, Print, LeavesOf, LeavesOfItems, UpTo, Canonical;
    AfterItemDelimited(xs, s);
    AfterItemDelimited(ys, t);
    LeavesAgree(xs[0], AfterItem(xs, s), ys[0], AfterItem(ys, t), path, at, b, reprint);
    TailItemsAgree(xs, s, ys, t, path, at, b, reprint);
    SplitItemLeaves(xs, path, at, at + b);
    SplitItemLeaves(ys, path, at, at + b);
  }

  lemma {:induction false} TailItemsAgree(xs: seq<Json>, s: Text, ys: seq<Json>, t: Text, path: Text, at: nat, b: int,
                                          reprint: Text -> Text)
    requires xs != [] && ys != [] && CanonicalItems(xs, reprint) && CanonicalItems(ys, reprint)
    requires Agree(Print(xs[0]) + AfterItem(xs, s), Print(ys[0]) + AfterItem(ys, t), b)
    ensures UpTo(LeavesOfItems(xs[1..], path, at + |Print(xs[0])| + 1), at + b)
            == UpTo(LeavesOfItems(ys[1..], path, at + |Print(ys[0])| + 1), at + b)
    decreases xs, 1, 0
  {
    hide Agree, AfterItem, Print, LeavesOfItems, UpTo, Canonical;
    if xs[0] == ys[0] && b > |Print(xs[0])| {
      AgreeTail(Print(xs[0]), AfterItem(xs, s), AfterItem(ys, t), b);
      OtherItemsAgree(xs, s, ys, t, path, at, |Print(xs[0])|, b, reprint);
    } else {
      ItemsAfterDifference(xs, s, ys, t, path, at, b, reprint);
    }
  }

  lemma ItemsAfterDifference(xs: seq<Json>, s: Text, ys: seq<Json>, t: Text, path: Text, at: nat, b: int,
                             reprint: Text -> Text)
    requires xs != [] && ys != [] && CanonicalItems(xs, reprint) && CanonicalItems(ys, reprint)
    requires Agree(Print(xs[0]) + AfterItem(xs, s), Print(ys[0]) + AfterItem(ys, t), b)
    requires xs[0] != ys[0] || b <= |Print(xs[0])|
    ensures UpTo(LeavesOfItems(xs[1..], path, at + |Print(xs[0])| + 1), at + b) == []
    ensures UpTo(LeavesOfItems(ys[1..], path, at + |Print(ys[0])| + 1), at + b) == []
  {
    hide Agree, AfterItem, Print, LeavesOfItems, UpTo, Canonical;
    AfterItemDelimited(xs, s);
    AfterItemDelimited(ys, t);
    if xs[0] != ys[0] {
      DifferentValuesEndLater(xs[0], AfterItem(xs, s), ys[0], AfterItem(ys, t), b, reprint);
    }
    ItemsEndLater(xs[1..], path, at + |Print(xs[0])| + 1, at + b);
    ItemsEndLater(ys[1..], path, at + |Print(ys[0])| + 1, at + b);
  }

  /** The items after an equal first item. */
  lemma {:induction false} OtherItemsAgree(xs: seq<Json>, s: Text, ys: seq<Json>, t: Text, path: Text, at: nat, n: nat,
                                           b: int,
                                           reprint: Text -> Text)
    requires xs != [] && ys != [] && CanonicalItems(xs, reprint) && CanonicalItems(ys, reprint) && b > n
    requires Agree(AfterItem(xs, s), AfterItem(ys, t), b - n)
    ensures UpTo(LeavesOfItems(xs[1..], path, at + n + 1), at + b)
            == UpTo(LeavesOfItems(ys[1..], path, at + n + 1), at + b)
    decreases xs, 0
  {
    hide PrintItems, LeavesOfItems, UpTo, Canonical;
    AgreeAt(AfterItem(xs, s), AfterItem(ys, t), b - n, 0);
    if |xs| > 1 {
      var p, q := PrintItems(xs[1..]) + [CLOSE_LIST] + s, PrintItems(ys[1..]) + [CLOSE_LIST] + t;
      AgreeTail([COMMA], p, q, b - n);
      ItemLeavesAgree(xs[1..], s, ys[1..], t, path, at + n + 1, b - n - 1, reprint);
    } else {
      assert xs[1..] == ys[1..];
    }
  }

  lemma EmptyListsAgree(xs: seq<Json>, s: Text, ys: seq<Json>, t: Text, path: Text, at: nat, b: int,
                        reprint: Text -> Text)
    requires CanonicalItems(xs, reprint) && CanonicalItems(ys, reprint) && (xs == [] || ys == [])
    requires Agree(PrintItems(xs) + [CLOSE_LIST] + s, PrintItems(ys) + [CLOSE_LIST] + t, b)
    ensures UpTo(LeavesOfItems(xs, path, at), at + b) == UpTo(LeavesOfItems(ys, path, at), at + b)
  {
    if b > 0 && xs != ys {
      if xs == [] {
        ListStart(ys, t, reprint);
      } else {
        ListStart(xs, s, reprint);
      }
      AgreeAt(PrintItems(xs) + [CLOSE_LIST] + s, PrintItems(ys) + [CLOSE_LIST] + t, b, 0);
    } else if b == 0 {
      ItemsEndLater(xs, path, at, at);
      ItemsEndLater(ys, path, at, at);
    }
  }

  lemma AfterMemberDelimited(members: seq<Member>, post: Text)
    requires members != []
    ensures Delimited(AfterMember(members, post))
  {
    hide PrintMembers;
  }

  lemma MembersText(members: seq<Member>, post: Text)
    requires members != []
    ensures PrintMembers(members) + [CLOSE_OBJECT] + post
            == Quote(members[0].key) + ([COLON] + (Print(members[0].value) + AfterMember(members, post)))
  {
    SplitFirstMember(members, post);
  }

  lemma {:induction false} MemberLeavesAgree(xs: seq<Member>, s: Text, ys: seq<Member>, t: Text, path: Text, at: nat,
                                             b: int,
                                             reprint: Text -> Text)
    requires CanonicalMembers(xs, reprint) && CanonicalMembers(ys, reprint)
    requires Agree(PrintMembers(xs) + [CLOSE_OBJECT] + s, PrintMembers(ys) + [CLOSE_OBJECT] + t, b)
    ensures UpTo(LeavesOfMembers(xs, path, at), at + b) == UpTo(LeavesOfMembers(ys, path, at), at + b)
    decreases xs, 3
  {
    if xs == [] || ys == [] {
      EmptyObjectsAgree(xs, s, ys, t, path, at, b);
    } else {
      MembersText(xs, s);
      MembersText(ys, t);
      FirstMembersAgree(xs, s, ys, t, path, at, b, reprint);
    }
  }

  lemma {:induction false} FirstMembersAgree(xs: seq<Member>, s: Text, ys: seq<Member>, t: Text, path: Text, at: nat,
                                             b: int,
                                             reprint: Text -> Text)
    requires xs != [] && ys != [] && CanonicalMembers(xs, reprint) && CanonicalMembers(ys, reprint)
    requires Agree(Quote(xs[0].key) + ([COLON] + (Print(xs[0].value) + AfterMember(xs, s))),
                   Quote(ys[0].key) + ([COLON] + (Print(ys[0].value) + AfterMember(ys, t))), b)
    ensures UpTo(LeavesOfMembers(xs, path, at), at + b) == UpTo(LeavesOfMembers(ys, path, at), at + b)
    decreases xs, 2
  {
    var k, l := Quote(xs[0].key), Quote(ys[0].key);
    hide Agree, Quote, Print, AfterMember, LeavesOf, LeavesOfMembers, UpTo, Canonical, Joined;
    var p, q := [COLON] + (Print(xs[0].value) + AfterMember(xs, s)),
        [COLON] + (Print(ys[0].value) + AfterMember(ys, t));
    if b >= |k| {
      SameLiteral(xs[0].key, p, ys[0].key, q, b);
    } else if b >= |l| {
      SameLiteral(ys[0].key, q, xs[0].key, p, b);
    }
    if b <= |k| || b <= |l| {
      NothingEndsInKey(xs, path, at, b);
      NothingEndsInKey(ys, path, at, b);
    } else {
      AgreeTail(k, p, q, b);
      AgreeTail([COLON], Print(xs[0].value) + AfterMember(xs, s), Print(ys[0].value) + AfterMember(ys, t), b - |k|);
      MemberValuesAgree(xs, s, ys, t, path, at, b, reprint);
    }
  }

  lemma NothingEndsInKey(members: seq<Member>, path: Text, at: nat, b: int)
    requires members != [] && b <= |Quote(members[0].key)|
    ensures UpTo(LeavesOfMembers(members, path, at), at + b) == []
  {
    MembersEndInside(members, path, at);
    hide Agree, LeavesOf, LeavesOfMembers, UpTo, Print;
    SplitMemberLeaves(members, path, at, at + b);
    var start := ValueAt(members[0], at);
    ValueEndsLater(members[0].value, MemberPath(path, members[0].key), start, at + b);
    MembersEndLater(members[1..], path, start + |Print(members[0].value)| + 1, at + b);
  }

  lemma MembersEndInside(members: seq<Member>, path: Text, at: nat)
    requires members != []
    ensures ValueAt(members[0], at) == at + |Quote(members[0].key)| + 1
  {
  }

  lemma EmptyObjectsAgree(xs: seq<Member>, s: Text, ys: seq<Member>, t: Text, path: Text, at: nat, b: int)
    requires xs == [] || ys == []
    requires Agree(PrintMembers(xs) + [CLOSE_OBJECT] + s, PrintMembers(ys) + [CLOSE_OBJECT] + t, b)
    ensures UpTo(LeavesOfMembers(xs, path, at), at + b) == UpTo(LeavesOfMembers(ys, path, at), at + b)
  {
    if b > 0 && xs != ys {
      if xs == [] {
        ObjectText(ys, t);
      } else {
        ObjectText(xs, s);
      }
      AgreeAt(PrintMembers(xs) + [CLOSE_OBJECT] + s, PrintMembers(ys) + [CLOSE_OBJECT] + t, b, 0);
    } else if b == 0 {
      MembersEndLater(xs, path, at, at);
      MembersEndLater(ys, path, at, at);
    }
  }

  /** The first values of two objects with the same first key, and what follows them. */
  lemma {:induction false} MemberValuesAgree(xs: seq<Member>, s: Text, ys: seq<Member>, t: Text, path: Text, at: nat,
                                             b: int,
                                             reprint: Text -> Text)
    requires xs != [] && ys != [] && CanonicalMembers(xs, reprint) && CanonicalMembers(ys, reprint)
    requires xs[0].key == ys[0].key && b > |Quote(xs[0].key)|
    requires Agree(Print(xs[0].value) + AfterMember(xs, s), Print(ys[0].value) + AfterMember(ys, t),
                   b - |Quote(xs[0].key)| - 1)
    ensures UpTo(LeavesOfMembers(xs, path, at), at + b) == UpTo(LeavesOfMembers(ys, path, at), at + b)
    decreases xs, 1, 1
  {
    hide Agree, AfterMember, Print, LeavesOf, LeavesOfMembers, UpTo, Canonical, Quote;
    var start, c := ValueAt(xs[0], at), b - |Quote(xs[0].key)| - 1;
    AfterMemberDelimited(xs, s);
    AfterMemberDelimited(ys, t);
    LeavesAgree(xs[0].value, AfterMember(xs, s), ys[0].value, AfterMember(ys, t), MemberPath(path, xs[0].key), start, c,
                reprint);
    TailMembersAgree(xs, s, ys, t, path, start, c, reprint);
    SplitMemberLeaves(xs, path, at, at + b);
    SplitMemberLeaves(ys, path, at, at + b);
  }

  lemma {:induction false} TailMembersAgree(xs: seq<Member>, s: Text, ys: seq<Member>, t: Text, path: Text, start: nat,
                                            c: int,
                                            reprint: Text -> Text)
    requires xs != [] && ys != [] && CanonicalMembers(xs, reprint) && CanonicalMembers(ys, reprint)
    requires Agree(Print(xs[0].value) + AfterMember(xs, s), Print(ys[0].value) + AfterMember(ys, t), c)
    ensures UpTo(LeavesOfMembers(xs[1..], path, start + |Print(xs[0].value)| + 1), start + c)
            == UpTo(LeavesOfMembers(ys[1..], path, start + |Print(ys[0].value)| + 1), start + c)
    decreases xs, 1, 0
  {
    hide Agree, AfterMember, Print, LeavesOfMembers, UpTo, Canonical;
    if xs[0].value == ys[0].value && c > |Print(xs[0].value)| {
      AgreeTail(Print(xs[0].value), AfterMember(xs, s), AfterMember(ys, t), c);
      OtherMembersAgree(xs, s, ys, t, path, start, |Print(xs[0].value)|, c, reprint);
    } else {
      MembersAfterDifference(xs, s, ys, t, path, start, c, reprint);
    }
  }

  lemma MembersAfterDifference(xs: seq<Member>, s: Text, ys: seq<Member>, t: Text, path: Text, start: nat, c: int,
                               reprint: Text -> Text)
    requires xs != [] && ys != [] && CanonicalMembers(xs, reprint) && CanonicalMembers(ys, reprint)
    requires Agree(Print(xs[0].value) + AfterMember(xs, s), Print(ys[0].value) + AfterMember(ys, t), c)
    requires xs[0].value != ys[0].value || c <= |Print(xs[0].value)|
    ensures UpTo(LeavesOfMembers(xs[1..], path, start + |Print(xs[0].value)| + 1), start + c) == []
    ensures UpTo(LeavesOfMembers(ys[1..], path, start + |Print(ys[0].value)| + 1), start + c) == []
  {
    hide Agree, AfterMember, Print, LeavesOfMembers, UpTo, Canonical;
    var v, w := xs[0].value, ys[0].value;
    AfterMemberDelimited(xs, s);
    AfterMemberDelimited(ys, t);
    if v != w {
      DifferentValuesEndLater(v, AfterMember(xs, s), w, AfterMember(ys, t), c, reprint);
    }
    MembersEndLater(xs[1..], path, start + |Print(v)| + 1, start + c);
    MembersEndLater(ys[1..], path, start + |Print(w)| + 1, start + c);
  }

  lemma {:induction false} OtherMembersAgree(xs: seq<Member>, s: Text, ys: seq<Member>, t: Text, path: Text, start: nat,
                                             n: nat,
                                             c: int, reprint: Text -> Text)
    requires xs != [] && ys != [] && CanonicalMembers(xs, reprint) && CanonicalMembers(ys, reprint) && c > n
    requires Agree(AfterMember(xs, s), AfterMember(ys, t), c - n)
    ensures UpTo(LeavesOfMembers(xs[1..], path, start + n + 1), start + c)
            == UpTo(LeavesOfMembers(ys[1..], path, start + n + 1), start + c)
    decreases xs, 0
  {
    hide PrintMembers, LeavesOfMembers, UpTo, Canonical;
    AgreeAt(AfterMember(xs, s), AfterMember(ys, t), c - n, 0);
    if |xs| > 1 {
      AgreeTail([COMMA], PrintMembers(xs[1..]) + [CLOSE_OBJECT] + s, PrintMembers(ys[1..]) + [CLOSE_OBJECT] + t, c - n);
      MemberLeavesAgree(xs[1..], s, ys[1..], t, path, start + n + 1, c - n - 1, reprint);
    } else {
      assert xs[1..] == ys[1..];
    }
  }

  /**
   Two accepted texts, each at least b bytes long, that agree on their first b bytes have the same leaves ending at
   or before b: same paths, same values, same offsets.
  */
  lemma PrefixDecidesLeaves(s: Text, t: Text, b: nat, reprint: Text -> Text)
    requires GoodReprint(reprint) && Locate(s, reprint).Located? && Locate(t, reprint).Located?
    requires b <= |s| && b <= |t| && s[..b] == t[..b]
    ensures UpTo(Locate(s, reprint).leaves, b) == UpTo(Locate(t, reprint).leaves, b)
  {
    hide Agree, Canonical, Print, LeavesOf, UpTo, ParseValue, GoodReprint;
    var v, w := Loads(s, reprint).value, Loads(t, reprint).value;
    CompactTextIsCanonical(s, v, reprint);
    CompactTextIsCanonical(t, w, reprint);
    assert s + [] == s && t + [] == t;
    LeavesAgree(v, [], w, [], [], 0, b, reprint);
  }
}
