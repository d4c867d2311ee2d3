/** Every string leaf of a recall result with the byte offset where it ends. */
module Leaves {
  import opened Options
  import opened JsonStrings
  import opened JsonNumbers
  import opened JsonValues
  import opened JsonCanon
  import opened Utf8

  datatype Leaf = Leaf(path: Text, value: Text, endByte: nat)

  datatype Located = Located(leaves: seq<Leaf>) | NotJson | NotCompact

  const DOT: Code := 46

  function MemberPath(path: Text, key: Text): Text
  {
    if path == [] then key else path + [DOT] + key
  }

  function ItemPath(path: Text): Text
  {
    path + [OPEN_LIST, CLOSE_LIST]
  }

  // ---------- Where each string of a print ends ----------

  /** The string leaves of `v`, in order, when its print starts at offset `at`. */
  function LeavesOf(v: Json, path: Text, at: nat): seq<Leaf>
    decreases v, 1
  {
    match v
    case Str(text) => [Leaf(path, text, at + |Quote(text)|)]
    case Arr(items) => LeavesOfItems(items, ItemPath(path), at + 1)
    case Obj(members) => LeavesOfMembers(members, path, at + 1)
    case _ => []
  }

  function LeavesOfItems(items: seq<Json>, path: Text, at: nat): seq<Leaf>
    decreases items, 0
  {
    if items == [] then []
    else LeavesOf(items[0], path, at) + LeavesOfItems(items[1..], path, at + |Print(items[0])| + 1)
  }

  function ValueAt(member: Member, at: nat): nat { at + |Quote(member.key)| + 1 }

  function LeavesOfMembers(members: seq<Member>, path: Text, at: nat): seq<Leaf>
    decreases members, 0
  {
    if members == [] then []
    else
      var start := ValueAt(members[0], at);
      LeavesOf(members[0].value, MemberPath(path, members[0].key), start)
      + LeavesOfMembers(members[1..], path, start + |Print(members[0].value)| + 1)
  }

  /** `"".join(pieces)` */
  function Concat(pieces: seq<Text>): Text
  {
    if pieces == [] then [] else Concat(pieces[..|pieces| - 1]) + pieces[|pieces| - 1]
  }

  /** The leaves of a text that is the compact print of its own parse. */
  function Locate(text: Text, reprint: Text -> Text): Located
  {
    match Loads(text, reprint)
    case None => NotJson
    case Some(v) => if Print(v) == text then Located(LeavesOf(v, [], 0)) else NotCompact
  }

  // ---------- The walk ----------

  /** What the list loop still has to write before item i. */
  ghost function ItemsLeft(items: seq<Json>, i: nat): Text
    requires i <= |items|
  {
    if i == |items| then [] else (if i > 0 then [COMMA] else []) + PrintItems(items[i..])
  }

  ghost function MembersLeft(members: seq<Member>, i: nat): Text
    requires i <= |members|
  {
    if i == |members| then [] else (if i > 0 then [COMMA] else []) + PrintMembers(members[i..])
  }

  function CommaBefore(i: nat): nat { if i > 0 then 1 else 0 }

  lemma ItemsLeftStep(items: seq<Json>, i: nat)
    requires i < |items|
    ensures ItemsLeft(items, i) == (if i > 0 then [COMMA] else []) + Print(items[i]) + ItemsLeft(items, i + 1)
    ensures items[i..][1..] == items[i + 1..]
  {
    hide Print;
    assert items[i..][0] == items[i] && items[i..][1..] == items[i + 1..];
    PrintFirstItem(items[i..]);
    hide PrintItems;
    if i + 1 < |items| {
      Prefixed(if i > 0 then [COMMA] else [], Print(items[i]), [COMMA] + PrintItems(items[i + 1..]));
    } else {
      Prefixed(if i > 0 then [COMMA] else [], Print(items[i]), []);
    }
  }

  lemma PrintFirstItem(items: seq<Json>)
    requires items != []
    ensures PrintItems(items)
            == if |items| > 1 then Print(items[0]) + ([COMMA] + PrintItems(items[1..])) else Print(items[0]) + []
  {
    hide Print;
    Rejoined(Print(items[0]), PrintItems(items[1..]));
  }

  lemma MembersLeftStep(members: seq<Member>, i: nat)
    requires i < |members|
    ensures MembersLeft(members, i)
            == (if i > 0 then [COMMA] else []) + Quote(members[i].key) + [COLON] + Print(members[i].value)
               + MembersLeft(members, i + 1)
    ensures members[i..][1..] == members[i + 1..]
  {
    hide Print, Quote, PrintMembers;
    assert members[i..][0] == members[i] && members[i..][1..] == members[i + 1..];
    PrintFirstMember(members[i..]);
    MemberRegrouped(if i > 0 then [COMMA] else [], Quote(members[i].key), Print(members[i].value),
                    MembersLeft(members, i + 1));
  }

  lemma MemberRegrouped(comma: Text, key: Text, value: Text, tail: Text)
    ensures comma + ((key + [COLON] + value) + tail) == comma + key + [COLON] + value + tail
  {
  }

  lemma PrintFirstMember(members: seq<Member>)
    requires members != []
    ensures var head := Quote(members[0].key) + [COLON] + Print(members[0].value);
            PrintMembers(members)
            == if |members| > 1 then head + ([COMMA] + PrintMembers(members[1..])) else head + []
  {
    hide Print, Quote;
    Rejoined(Quote(members[0].key) + [COLON] + Print(members[0].value), PrintMembers(members[1..]));
  }

  lemma Rejoined(head: Text, tail: Text)
    ensures head + [COMMA] + tail == head + ([COMMA] + tail)
    ensures head + [] == head
  {
  }

  /** A part printed after a comma, or not. */
  lemma Prefixed(comma: Text, head: Text, tail: Text)
    ensures comma + (head + tail) == comma + head + tail
  {
  }

  lemma ItemsLeftAtEnds(items: seq<Json>, path: Text, at: nat)
    ensures ItemsLeft(items, 0) == PrintItems(items) && ItemsLeft(items, |items|) == []
    ensures items[0..] == items && items[|items|..] == [] && LeavesOfItems([], path, at) == []
  {
  }

  lemma MembersLeftAtEnds(members: seq<Member>, path: Text, at: nat)
    ensures MembersLeft(members, 0) == PrintMembers(members) && MembersLeft(members, |members|) == []
    ensures members[0..] == members && members[|members|..] == [] && LeavesOfMembers([], path, at) == []
  {
  }

  lemma ListDone(before: Text, after: Text, inside: Text, whole: Text)
    requires |whole| == |inside| + 2 && after == before + [whole[0]] + inside + [whole[|inside| + 1]]
    requires whole == [whole[0]] + inside + [whole[|inside| + 1]]
    ensures after == before + whole
  {
  }

  lemma ListParts(items: seq<Json>, path: Text, at: nat)
    ensures Print(Arr(items)) == [OPEN_LIST] + PrintItems(items) + [CLOSE_LIST]
    ensures LeavesOf(Arr(items), path, at) == LeavesOfItems(items, ItemPath(path), at + 1)
  {
    hide PrintItems, LeavesOfItems;
  }

  lemma ObjectParts(members: seq<Member>, path: Text, at: nat)
    ensures Print(Obj(members)) == [OPEN_OBJECT] + PrintMembers(members) + [CLOSE_OBJECT]
    ensures LeavesOf(Obj(members), path, at) == LeavesOfMembers(members, path, at + 1)
  {
    hide PrintMembers, LeavesOfMembers;
  }

  class LeafWalk {
    var pieces: seq<Text>
    var leaves: seq<Leaf>
    var position: nat

    constructor ()
      ensures pieces == [] && leaves == [] && position == 0
    {
      pieces, leaves, position := [], [], 0;
    }

    function Text(): JsonStrings.Text
      reads this
    {
      Concat(pieces)
    }

    method Write(chunk: JsonStrings.Text)
      requires Encodable(chunk)
      modifies this
      ensures Text() == old(Text()) + chunk && leaves == old(leaves)
      ensures position == old(position) + |Encode(chunk)|
    {
      assert (pieces + [chunk])[..|pieces|] == pieces;
      pieces := pieces + [chunk];
      position := position + |Encode(chunk)|;
    }

    method WriteAscii(chunk: JsonStrings.Text)
      requires IsAscii(chunk)
      modifies this
      ensures Text() == old(Text()) + chunk && leaves == old(leaves)
      ensures position == old(position) + |chunk|
    {
      EncodeAscii(chunk);
      Write(chunk);
    }

    method Walk(value: Json, path: JsonStrings.Text, ghost reprint: JsonStrings.Text -> JsonStrings.Text)
      requires Settled(value, reprint)
      modifies this
      ensures Text() == old(Text()) + Print(value)
      ensures position == old(position) + |Print(value)|
      ensures leaves == old(leaves) + LeavesOf(value, path, old(position))
      decreases value, 1
    {
      match value {
        case Obj(members) => WalkObject(members, path, reprint);
        case Arr(items) => WalkList(items, path, reprint);
        case Str(text) =>
          QuoteIsAscii(text);
          WriteAscii(Quote(text));
          leaves := leaves + [Leaf(path, text, position)];
        case _ =>
          PrintIsAscii(value, reprint);
          WriteAscii(Print(value));
      }
    }

    method WalkList(items: seq<Json>, path: JsonStrings.Text, ghost reprint: JsonStrings.Text -> JsonStrings.Text)
      requires forall i :: 0 <= i < |items| ==> Settled(items[i], reprint)
      modifies this
      ensures Text() == old(Text()) + Print(Arr(items))
      ensures position == old(position) + |Print(Arr(items))|
      ensures leaves == old(leaves) + LeavesOf(Arr(items), path, old(position))
      decreases items, 1
    {
      hide Print, PrintItems, ItemsLeft, LeavesOf, LeavesOfItems, Concat, Settled;
      ghost var text, found, at := Text(), leaves, position;
      ListParts(items, path, at);
      WriteAscii([OPEN_LIST]);
      ItemsLeftAtEnds(items, ItemPath(path), at + 1);
      for i := 0 to |items|
        invariant Text() + ItemsLeft(items, i) == text + [OPEN_LIST] + PrintItems(items)
        invariant position + |ItemsLeft(items, i)| == at + 1 + |PrintItems(items)|
        invariant leaves + LeavesOfItems(items[i..], ItemPath(path), position + CommaBefore(i))
                  == found + LeavesOfItems(items, ItemPath(path), at + 1)
      {
        WalkItem(items, i, ItemPath(path), reprint);
      }
      ItemsLeftAtEnds(items, ItemPath(path), position + CommaBefore(|items|));
      WriteAscii([CLOSE_LIST]);
      ListDone(text, Text(), PrintItems(items), Print(Arr(items)));
    }

    /** One round of the list loop. */
    method WalkItem(items: seq<Json>, i: nat, path: JsonStrings.Text,
                    ghost reprint: JsonStrings.Text -> JsonStrings.Text)
      requires i < |items| && Settled(items[i], reprint)
      modifies this
      ensures Text() + ItemsLeft(items, i + 1) == old(Text()) + ItemsLeft(items, i)
      ensures position + |ItemsLeft(items, i + 1)| == old(position) + |ItemsLeft(items, i)|
      ensures leaves + LeavesOfItems(items[i + 1..], path, position + 1)
              == old(leaves) + LeavesOfItems(items[i..], path, old(position) + CommaBefore(i))
      decreases items, 0
    {
      hide Print, LeavesOf, PrintItems, ItemsLeft, Concat, Settled;
      ItemsLeftStep(items, i);
      if i > 0 {
        WriteAscii([COMMA]);
      }
      Walk(items[i], path, reprint);
    }

    method WalkObject(members: seq<Member>, path: JsonStrings.Text, ghost reprint: JsonStrings.Text -> JsonStrings.Text)
      requires forall i :: 0 <= i < |members| ==> Settled(members[i].value, reprint)
      modifies this
      ensures Text() == old(Text()) + Print(Obj(members))
      ensures position == old(position) + |Print(Obj(members))|
      ensures leaves == old(leaves) + LeavesOf(Obj(members), path, old(position))
      decreases members, 1
    {
      hide Print, PrintMembers, MembersLeft, LeavesOf, LeavesOfMembers, Concat, Settled;
      ghost var text, found, at := Text(), leaves, position;
      ObjectParts(members, path, at);
      WriteAscii([OPEN_OBJECT]);
      MembersLeftAtEnds(members, path, at + 1);
      for i := 0 to |members|
        invariant Text() + MembersLeft(members, i) == text + [OPEN_OBJECT] + PrintMembers(members)
        invariant position + |MembersLeft(members, i)| == at + 1 + |PrintMembers(members)|
        invariant leaves + LeavesOfMembers(members[i..], path, position + CommaBefore(i))
                  == found + LeavesOfMembers(members, path, at + 1)
      {
        WalkMember(members, i, path, reprint);
      }
      MembersLeftAtEnds(members, path, position + CommaBefore(|members|));
      WriteAscii([CLOSE_OBJECT]);
      ListDone(text, Text(), PrintMembers(members), Print(Obj(members)));
    }

    /** One round of the object loop. */
    method WalkMember(members: seq<Member>, i: nat, path: JsonStrings.Text,
                      ghost reprint: JsonStrings.Text -> JsonStrings.Text)
      requires i < |members| && Settled(members[i].value, reprint)
      modifies this
      ensures Text() + MembersLeft(members, i + 1) == old(Text()) + MembersLeft(members, i)
      ensures position + |MembersLeft(members, i + 1)| == old(position) + |MembersLeft(members, i)|
      ensures leaves + LeavesOfMembers(members[i + 1..], path, position + 1)
              == old(leaves) + LeavesOfMembers(members[i..], path, old(position) + CommaBefore(i))
      decreases members, 0
    {
      hide Print, Quote, LeavesOf, PrintMembers, MembersLeft, Concat, Settled;
      MembersLeftStep(members, i);
      if i > 0 {
        WriteAscii([COMMA]);
      }
      QuoteIsAscii(members[i].key);
      WriteAscii(Quote(members[i].key));
      WriteAscii([COLON]);
      Walk(members[i].value, MemberPath(path, members[i].key), reprint);
    }
  }

  method LocateLeaves(text: Text, reprint: Text -> Text) returns (result: Located)
    requires GoodReprint(reprint)
    ensures result == Locate(text, reprint)
  {
    var parsed := Loads(text, reprint);
    if parsed.None? {
      return NotJson;
    }
    ParseSettled(SkipSpace(text), reprint);
    var walk := new LeafWalk();
    walk.Walk(parsed.value, [], reprint);
    assert walk.Text() == Print(parsed.value);
    if Concat(walk.pieces) != text {
      return NotCompact;
    }
    return Located(walk.leaves);
  }
}
