/**
 JSON values as Python's json module holds them, the compact printer of the leaf walk, and the reader.
 How a number token is converted and printed again belongs to Python: it is the parameter `reprint`.
*/
module JsonValues {
  import opened Options
  import opened JsonStrings
  import opened JsonNumbers

  datatype Json =
    | Null
    | Bool(flag: bool)
    | Number(token: Text)
    | Str(text: Text)
    | Arr(items: seq<Json>)
    | Obj(members: seq<Member>)

  datatype Member = Member(key: Text, value: Json)

  const NULL_WORD: Text := [110, 117, 108, 108]
  const TRUE_WORD: Text := [116, 114, 117, 101]
  const FALSE_WORD: Text := [102, 97, 108, 115, 101]
  const NAN_WORD: Text := [78, 97, 78]
  const INFINITY_WORD: Text := [73, 110, 102, 105, 110, 105, 116, 121]
  const MINUS_INFINITY_WORD: Text := [45, 73, 110, 102, 105, 110, 105, 116, 121]
  const OPEN_LIST: Code := 91
  const OPEN_OBJECT: Code := 123
  const COLON: Code := 58

  // ---------- Printing ----------

  function Print(v: Json): Text
    decreases v, 1
  {
    match v
    case Null => NULL_WORD
    case Bool(flag) => if flag then TRUE_WORD else FALSE_WORD
    case Number(token) => token
    case Str(text) => Quote(text)
    case Arr(items) => [OPEN_LIST] + PrintItems(items) + [CLOSE_LIST]
    case Obj(members) => [OPEN_OBJECT] + PrintMembers(members) + [CLOSE_OBJECT]
  }

  function PrintItems(items: seq<Json>): Text
    decreases items, 0
  {
    if items == [] then []
    else Print(items[0]) + (if |items| == 1 then [] else [COMMA] + PrintItems(items[1..]))
  }

  function PrintMembers(members: seq<Member>): Text
    decreases members, 0
  {
    if members == [] then []
    else
      Quote(members[0].key) + [COLON] + Print(members[0].value)
      + (if |members| == 1 then [] else [COMMA] + PrintMembers(members[1..]))
  }

  // ---------- Reading ----------

  predicate StartsWith(s: Text, word: Text)
  {
    |word| <= |s| && s[..|word|] == word
  }

  predicate IsSpace(c: Code) { c == 32 || c == 9 || c == 10 || c == 13 }

  function SkipSpace(s: Text): (rest: Text)
    ensures |rest| <= |s|
  {
    if s != [] && IsSpace(s[0]) then SkipSpace(s[1..]) else s
  }

  /** A dictionary built from pairs: a repeated key keeps its place and takes the later value. */
  function SetMember(members: seq<Member>, key: Text, value: Json): seq<Member>
  {
    if members == [] then [Member(key, value)]
    else if members[0].key == key then [Member(key, value)] + members[1..]
    else [members[0]] + SetMember(members[1..], key, value)
  }

  function FromPairs(sofar: seq<Member>, pairs: seq<Member>): seq<Member>
    decreases |pairs|
  {
    if pairs == [] then sofar else FromPairs(SetMember(sofar, pairs[0].key, pairs[0].value), pairs[1..])
  }

  function ReadWord(s: Text, word: Text, value: Json): (r: Option<Read<Json>>)
    requires word != []
    ensures r.Some? ==> |r.value.rest| < |s|
  {
    if StartsWith(s, word) then Some(Read(value, s[|word|..])) else None
  }

  /** A number, or one of the six words that Python accepts. */
  function ParseAtom(s: Text, reprint: Text -> Text): (r: Option<Read<Json>>)
    requires s != []
    ensures r.Some? ==> |r.value.rest| < |s|
  {
    if NumberLen(s) > 0 then Some(Read(Number(reprint(s[..NumberLen(s)])), s[NumberLen(s)..]))
    else ParseAnyWord(s, reprint)
  }

  function ParseAnyWord(s: Text, reprint: Text -> Text): (r: Option<Read<Json>>)
    requires s != []
    ensures r.Some? ==> |r.value.rest| < |s|
  {
    if s[0] == 110 then ReadWord(s, NULL_WORD, Null)
    else if s[0] == 116 then ReadWord(s, TRUE_WORD, Bool(true))
    else if s[0] == 102 then ReadWord(s, FALSE_WORD, Bool(false))
    else if s[0] == 78 then ReadWord(s, NAN_WORD, Number(reprint(NAN_WORD)))
    else if s[0] == 73 then ReadWord(s, INFINITY_WORD, Number(reprint(INFINITY_WORD)))
    else ReadWord(s, MINUS_INFINITY_WORD, Number(reprint(MINUS_INFINITY_WORD)))
  }

  function ParseQuoted(s: Text): (r: Option<Read<Json>>)
    ensures r.Some? ==> |r.value.rest| < |s|
  {
    match ReadString(s)
    case None => None
    case Some(read) => Some(Read(Str(read.value), read.rest))
  }

  function ParseValue(s: Text, reprint: Text -> Text): (r: Option<Read<Json>>)
    ensures r.Some? ==> |r.value.rest| < |s|
    decreases |s|, 0
  {
    if s == [] then None
    else if s[0] == QUOTE then ParseQuoted(s)
    else if s[0] == OPEN_OBJECT then ParseObject(SkipSpace(s[1..]), reprint)
    else if s[0] == OPEN_LIST then ParseList(SkipSpace(s[1..]), reprint)
    else ParseAtom(s, reprint)
  }

  /** An object after its opening brace and white space. */
  function ParseObject(s: Text, reprint: Text -> Text): (r: Option<Read<Json>>)
    ensures r.Some? ==> |r.value.rest| < |s|
    decreases |s|, 2
  {
    if StartsWithCode(s, CLOSE_OBJECT) then Some(Read(Obj([]), s[1..]))
    else
      match ParseMembers(s, reprint)
      case None => None
      case Some(read) => Some(Read(Obj(FromPairs([], read.value)), read.rest))
  }

  /** A list after its opening bracket and white space. */
  function ParseList(s: Text, reprint: Text -> Text): (r: Option<Read<Json>>)
    ensures r.Some? ==> |r.value.rest| < |s|
    decreases |s|, 2
  {
    if StartsWithCode(s, CLOSE_LIST) then Some(Read(Arr([]), s[1..]))
    else
      match ParseItems(s, reprint)
      case None => None
      case Some(read) => Some(Read(Arr(read.value), read.rest))
  }

  /** One or more list items, from the start of the first one through the closing bracket. */
  function ParseItems(s: Text, reprint: Text -> Text): (r: Option<Read<seq<Json>>>)
    ensures r.Some? ==> |r.value.rest| < |s|
    decreases |s|, 1
  {
    match ParseValue(s, reprint)
    case None => None
    case Some(first) =>
      var after := SkipSpace(first.rest);
      if StartsWithCode(after, CLOSE_LIST) then Some(Read([first.value], after[1..]))
      else if StartsWithCode(after, COMMA) then
        match ParseItems(SkipSpace(after[1..]), reprint)
        case None => None
        case Some(more) => Some(Read([first.value] + more.value, more.rest))
      else None
  }

  /** One or more members, from the first key through the closing brace. */
  function ParseMembers(s: Text, reprint: Text -> Text): (r: Option<Read<seq<Member>>>)
    ensures r.Some? ==> |r.value.rest| < |s|
    decreases |s|, 1
  {
    match ReadString(s)
    case None => None
    case Some(key) =>
      var colon := SkipSpace(key.rest);
      if !StartsWithCode(colon, COLON) then None
      else
        match ParseValue(SkipSpace(colon[1..]), reprint)
        case None => None
        case Some(value) =>
          var member, after := Member(key.value, value.value), SkipSpace(value.rest);
          if StartsWithCode(after, CLOSE_OBJECT) then Some(Read([member], after[1..]))
          else if StartsWithCode(after, COMMA) then
            match ParseMembers(SkipSpace(after[1..]), reprint)
            case None => None
            case Some(more) => Some(Read([member] + more.value, more.rest))
          else None
  }

  /** `json.loads`: one value with nothing but white space around it. */
  function Loads(text: Text, reprint: Text -> Text): Option<Json>
  {
    match ParseValue(SkipSpace(text), reprint)
    case None => None
    case Some(read) => if SkipSpace(read.rest) == [] then Some(read.value) else None
  }

  // ---------- Values that print and read back unchanged ----------

  predicate IsToken(t: Text)
  {
    IsNumber(t) || t == NAN_WORD || t == INFINITY_WORD || t == MINUS_INFINITY_WORD
  }

  /** What is assumed of Python's number printing: it prints a token, and printing that token again changes nothing. */
  ghost predicate GoodReprint(reprint: Text -> Text)
  {
    forall t :: IsToken(t) ==> IsToken(reprint(t)) && reprint(reprint(t)) == reprint(t)
  }

  ghost predicate DistinctKeys(members: seq<Member>)
  {
    forall i, j :: 0 <= i < j < |members| ==> members[i].key != members[j].key
  }

  /** Number tokens are as Python prints them and keys are distinct. */
  ghost predicate Settled(v: Json, reprint: Text -> Text)
  {
    match v
    case Null => true
    case Bool(_) => true
    case Str(_) => true
    case Number(token) => IsToken(token) && reprint(token) == token
    case Arr(items) => forall i :: 0 <= i < |items| ==> Settled(items[i], reprint)
    case Obj(members) => DistinctKeys(members) && forall i :: 0 <= i < |members| ==> Settled(members[i].value, reprint)
  }

  /** No string or key holds a split surrogate pair. */
  ghost predicate AllJoined(v: Json)
  {
    match v
    case Null => true
    case Bool(_) => true
    case Number(_) => true
    case Str(text) => Joined(text)
    case Arr(items) => forall i :: 0 <= i < |items| ==> AllJoined(items[i])
    case Obj(members) => forall i :: 0 <= i < |members| ==> Joined(members[i].key) && AllJoined(members[i].value)
  }

  ghost predicate Canonical(v: Json, reprint: Text -> Text)
  {
    Settled(v, reprint) && AllJoined(v)
  }

  // ---------- Reading back a print ----------

  lemma SkipNothing(s: Text)
    requires s == [] || !IsSpace(s[0])
    ensures SkipSpace(s) == s
  {
  }

  lemma PrintStart(v: Json, reprint: Text -> Text)
    requires Settled(v, reprint)
    ensures Print(v) != [] && !IsSpace(Print(v)[0])
    ensures Print(v)[0] != CLOSE_LIST && Print(v)[0] != CLOSE_OBJECT && Print(v)[0] != COMMA
    ensures Print(v)[0] == OPEN_LIST <==> v.Arr?
    ensures Print(v)[0] == OPEN_OBJECT <==> v.Obj?
  {
    hide NumberLen, Escaped;
    if v.Number? && IsNumber(v.token) {
      NumberStart(v.token);
    }
  }

  lemma ParseNumber(token: Text, post: Text, reprint: Text -> Text)
    requires IsNumber(token) && reprint(token) == token && Delimited(post)
    ensures ParseValue(token + post, reprint) == Some(Read(Number(token), post))
  {
    hide NumberLen;
    var s := token + post;
    NumberLenStable(token, post);
    NumberStart(token);
    assert s[..|token|] == token && s[|token|..] == post;
  }

  lemma ParseConstant(token: Text, post: Text, reprint: Text -> Text)
    requires token == NAN_WORD || token == INFINITY_WORD || token == MINUS_INFINITY_WORD
    requires reprint(token) == token
    ensures ParseValue(token + post, reprint) == Some(Read(Number(token), post))
  {
    var s := token + post;
    assert NumberLen(s) == 0 by {
      assert !StartsWithCode(s[SignLen(s)..], ZERO) && DigitsLen(s[SignLen(s)..]) == 0;
    }
    hide NumberLen;
    assert s[..|token|] == token && s[|token|..] == post;
  }

  lemma ParseNumberToken(token: Text, post: Text, reprint: Text -> Text)
    requires IsToken(token) && reprint(token) == token && Delimited(post)
    ensures ParseValue(token + post, reprint) == Some(Read(Number(token), post))
  {
    if IsNumber(token) {
      ParseNumber(token, post, reprint);
    } else {
      ParseConstant(token, post, reprint);
    }
  }

  lemma ParseWord(v: Json, post: Text, reprint: Text -> Text)
    requires v.Null? || v.Bool?
    ensures ParseValue(Print(v) + post, reprint) == Some(Read(v, post))
  {
    var word := Print(v);
    var s := word + post;
    assert s[..|word|] == word && s[|word|..] == post;
    assert NumberLen(s) == 0;
  }

  lemma ParseQuotedValue(text: Text, post: Text, reprint: Text -> Text)
    requires Joined(text)
    ensures ParseValue(Quote(text) + post, reprint) == Some(Read(Str(text), post))
  {
    ReadQuoted(text, post);
    JoinPairsKeepsJoined(text);
  }

  lemma {:induction false} SetNewMember(members: seq<Member>, key: Text, value: Json)
    requires forall i :: 0 <= i < |members| ==> members[i].key != key
    ensures SetMember(members, key, value) == members + [Member(key, value)]
  {
    if members != [] {
      SetNewMember(members[1..], key, value);
    }
  }

  lemma {:induction false} FromDistinctPairs(sofar: seq<Member>, pairs: seq<Member>)
    requires DistinctKeys(sofar + pairs)
    ensures FromPairs(sofar, pairs) == sofar + pairs
    decreases |pairs|
  {
    if pairs != [] {
      var all := sofar + pairs;
      forall i | 0 <= i < |sofar| ensures sofar[i].key != pairs[0].key {
        assert all[i] == sofar[i] && all[|sofar|] == pairs[0];
      }
      SetNewMember(sofar, pairs[0].key, pairs[0].value);
      assert pairs[0] == Member(pairs[0].key, pairs[0].value);
      assert sofar + [pairs[0]] + pairs[1..] == all;
      FromDistinctPairs(sofar + [pairs[0]], pairs[1..]);
    }
  }

  /** Reading the print of a canonical value gives that value back and leaves what follows it. */
  lemma {:induction false} ParsePrint(v: Json, post: Text, reprint: Text -> Text)
    requires Canonical(v, reprint) && (v.Number? ==> Delimited(post))
    ensures ParseValue(Print(v) + post, reprint) == Some(Read(v, post))
    decreases v, 2
  {
    match v
    case Null => ParseWord(v, post, reprint);
    case Bool(_) => ParseWord(v, post, reprint);
    case Number(token) => ParseNumberToken(token, post, reprint);
    case Str(text) => ParseQuotedValue(text, post, reprint);
    case Arr(items) => ParsePrintedList(items, post, reprint);
    case Obj(members) => ParsePrintedObject(members, post, reprint);
  }

  lemma {:induction false} ParsePrintedList(items: seq<Json>, post: Text, reprint: Text -> Text)
    requires Canonical(Arr(items), reprint)
    ensures ParseValue(Print(Arr(items)) + post, reprint) == Some(Read(Arr(items), post))
    decreases items, 2
  {
    var s := Print(Arr(items)) + post;
    var inside := PrintItems(items) + [CLOSE_LIST] + post;
    assert s[1..] == inside;
    if items == [] {
      SkipNothing(inside);
      assert inside[1..] == post;
    } else {
      PrintStart(items[0], reprint);
      assert inside[0] == Print(items[0])[0];
      SkipNothing(inside);
      ParsePrintedItems(items, post, reprint);
    }
  }

  lemma ParseLastItem(s: Text, item: Json, post: Text, reprint: Text -> Text)
    requires ParseValue(s, reprint) == Some(Read(item, [CLOSE_LIST] + post))
    ensures ParseItems(s, reprint) == Some(Read([item], post))
  {
    SkipNothing([CLOSE_LIST] + post);
    assert ([CLOSE_LIST] + post)[1..] == post;
  }

  lemma ParseFirstItem(s: Text, item: Json, rest: Text, more: seq<Json>, post: Text, reprint: Text -> Text)
    requires ParseValue(s, reprint) == Some(Read(item, [COMMA] + rest))
    requires SkipSpace(rest) == rest && ParseItems(rest, reprint) == Some(Read(more, post))
    ensures ParseItems(s, reprint) == Some(Read([item] + more, post))
  {
    SkipNothing([COMMA] + rest);
    assert ([COMMA] + rest)[1..] == rest;
  }

  lemma SplitFirstItem(items: seq<Json>, post: Text)
    requires |items| > 1
    ensures PrintItems(items) + [CLOSE_LIST] + post
            == Print(items[0]) + ([COMMA] + (PrintItems(items[1..]) + [CLOSE_LIST] + post))
  {
    hide Print, PrintItems;
    PrintItemsStep(items);
    RegroupItem(Print(items[0]), [COMMA], PrintItems(items[1..]), [CLOSE_LIST], post);
  }

  lemma PrintItemsStep(items: seq<Json>)
    requires |items| > 1
    ensures PrintItems(items) == Print(items[0]) + ([COMMA] + PrintItems(items[1..]))
  {
    hide Print;
  }

  lemma RegroupItem(first: Text, comma: Text, rest: Text, end: Text, post: Text)
    ensures first + (comma + rest) + end + post == first + (comma + (rest + end + post))
  {
  }

  lemma ItemsStart(items: seq<Json>, post: Text, reprint: Text -> Text)
    requires items != [] && Settled(items[0], reprint)
    ensures SkipSpace(PrintItems(items) + [CLOSE_LIST] + post) == PrintItems(items) + [CLOSE_LIST] + post
  {
    PrintStart(items[0], reprint);
    hide Print;
    assert PrintItems(items)[0] == Print(items[0])[0];
  }

  lemma {:induction false} ParsePrintedItems(items: seq<Json>, post: Text, reprint: Text -> Text)
    requires items != [] && forall i :: 0 <= i < |items| ==> Canonical(items[i], reprint)
    ensures ParseItems(PrintItems(items) + [CLOSE_LIST] + post, reprint) == Some(Read(items, post))
    decreases items, 1
  {
    if |items| == 1 {
      var s, after := PrintItems(items) + [CLOSE_LIST] + post, [CLOSE_LIST] + post;
      assert s == Print(items[0]) + after;
      ParsePrint(items[0], after, reprint);
      ParseLastItem(s, items[0], post, reprint);
      assert items == [items[0]];
    } else {
      ParseManyPrintedItems(items, post, reprint);
    }
  }

  lemma {:induction false} ParseManyPrintedItems(items: seq<Json>, post: Text, reprint: Text -> Text)
    requires |items| > 1 && forall i :: 0 <= i < |items| ==> Canonical(items[i], reprint)
    ensures ParseItems(PrintItems(items) + [CLOSE_LIST] + post, reprint) == Some(Read(items, post))
    decreases items, 0
  {
    var s, rest := PrintItems(items) + [CLOSE_LIST] + post, PrintItems(items[1..]) + [CLOSE_LIST] + post;
    SplitFirstItem(items, post);
    ParsePrint(items[0], [COMMA] + rest, reprint);
    ItemsStart(items[1..], post, reprint);
    ParsePrintedItems(items[1..], post, reprint);
    hide PrintItems, Print, ParseValue, ParseItems, Canonical;
    ParseFirstItem(s, items[0], rest, items[1..], post, reprint);
    assert items == [items[0]] + items[1..];
  }

  lemma ObjectText(members: seq<Member>, post: Text)
    ensures Print(Obj(members)) + post == [OPEN_OBJECT] + (PrintMembers(members) + [CLOSE_OBJECT] + post)
    ensures members != [] ==> StartsWithCode(PrintMembers(members) + [CLOSE_OBJECT] + post, QUOTE)
  {
    if members != [] {
      assert PrintMembers(members)[0] == QUOTE;
    }
  }

  lemma ParseEmptyObject(post: Text, reprint: Text -> Text)
    ensures ParseValue([OPEN_OBJECT] + ([CLOSE_OBJECT] + post), reprint) == Some(Read(Obj([]), post))
  {
    assert ([OPEN_OBJECT] + ([CLOSE_OBJECT] + post))[1..] == [CLOSE_OBJECT] + post;
    assert ([CLOSE_OBJECT] + post)[1..] == post;
    SkipNothing([CLOSE_OBJECT] + post);
  }

  lemma {:induction false} ParsePrintedObject(members: seq<Member>, post: Text, reprint: Text -> Text)
    requires DistinctKeys(members) && CanonicalMembers(members, reprint)
    ensures ParseValue(Print(Obj(members)) + post, reprint) == Some(Read(Obj(members), post))
    decreases members, 1
  {
    ObjectText(members, post);
    if members == [] {
      ParseEmptyObject(post, reprint);
      assert PrintMembers([]) + [CLOSE_OBJECT] + post == [CLOSE_OBJECT] + post;
    } else {
      ParsePrintedMembers(members, post, reprint);
      ParseOpenObject(Print(Obj(members)) + post, PrintMembers(members) + [CLOSE_OBJECT] + post, members, post,
                      reprint);
    }
  }

  lemma ParseOpenObject(s: Text, inside: Text, members: seq<Member>, post: Text, reprint: Text -> Text)
    requires s == [OPEN_OBJECT] + inside && StartsWithCode(inside, QUOTE) && DistinctKeys(members)
    requires ParseMembers(inside, reprint) == Some(Read(members, post))
    ensures ParseValue(s, reprint) == Some(Read(Obj(members), post))
  {
    hide ParseValue, ParseMembers, SkipSpace, FromPairs, DistinctKeys;
    OpensObject(s, inside, reprint);
    assert [] + members == members;
    FromDistinctPairs([], members);
  }

  lemma OpensObject(s: Text, inside: Text, reprint: Text -> Text)
    requires s == [OPEN_OBJECT] + inside && StartsWithCode(inside, QUOTE)
    ensures ParseValue(s, reprint) == ParseObject(inside, reprint)
  {
    assert s[1..] == inside;
    SkipNothing(inside);
  }

  ghost predicate CanonicalMembers(members: seq<Member>, reprint: Text -> Text)
  {
    forall i :: 0 <= i < |members| ==> Joined(members[i].key) && Canonical(members[i].value, reprint)
  }

  lemma ParseKeyAndValue(s: Text, member: Member, after: Text, reprint: Text -> Text)
    requires s == Quote(member.key) + ([COLON] + (Print(member.value) + after))
    requires Joined(member.key) && Settled(member.value, reprint)
    requires ParseValue(Print(member.value) + after, reprint) == Some(Read(member.value, after))
    requires after != [] && !IsSpace(after[0])
    ensures StartsWithCode(after, CLOSE_OBJECT) ==> ParseMembers(s, reprint) == Some(Read([member], after[1..]))
    ensures StartsWithCode(after, COMMA) && SkipSpace(after[1..]) == after[1..]
            && ParseMembers(after[1..], reprint).Some? ==>
              var more := ParseMembers(after[1..], reprint).value;
              ParseMembers(s, reprint) == Some(Read([member] + more.value, more.rest))
  {
    var colon := [COLON] + (Print(member.value) + after);
    ReadQuoted(member.key, colon);
    JoinPairsKeepsJoined(member.key);
    SkipNothing(colon);
    assert colon[1..] == Print(member.value) + after;
    PrintStart(member.value, reprint);
    hide Print, Quote, Settled, ParseValue;
    SkipNothing(Print(member.value) + after);
    SkipNothing(after);
  }

  /** What follows the value of the first member in a printed object. */
  function AfterMember(members: seq<Member>, post: Text): Text
    requires members != []
  {
    if |members| == 1 then [CLOSE_OBJECT] + post else [COMMA] + (PrintMembers(members[1..]) + [CLOSE_OBJECT] + post)
  }

  lemma Reassociate(k: Text, c: Text, p: Text, t: Text, x: Text, y: Text)
    ensures k + c + p + t + x + y == k + (c + (p + (t + x + y)))
  {
  }

  lemma AfterMemberIs(members: seq<Member>, post: Text)
    requires members != []
    ensures AfterMember(members, post)
            == (if |members| == 1 then [] else [COMMA] + PrintMembers(members[1..])) + [CLOSE_OBJECT] + post
  {
    hide PrintMembers;
  }

  lemma SplitFirstMember(members: seq<Member>, post: Text)
    requires members != []
    ensures PrintMembers(members) + [CLOSE_OBJECT] + post
            == Quote(members[0].key) + ([COLON] + (Print(members[0].value) + AfterMember(members, post)))
  {
    var k, p := Quote(members[0].key), Print(members[0].value);
    var t := if |members| == 1 then [] else [COMMA] + PrintMembers(members[1..]);
    hide Print, Quote;
    assert PrintMembers(members) == k + [COLON] + p + t;
    Reassociate(k, [COLON], p, t, [CLOSE_OBJECT], post);
    AfterMemberIs(members, post);
  }

  lemma AfterMemberTail(members: seq<Member>, post: Text)
    requires |members| > 1
    ensures var rest := PrintMembers(members[1..]) + [CLOSE_OBJECT] + post;
            AfterMember(members, post)[1..] == rest && SkipSpace(rest) == rest
  {
    var rest := PrintMembers(members[1..]) + [CLOSE_OBJECT] + post;
    assert PrintMembers(members[1..])[0] == QUOTE;
    assert rest[0] == QUOTE;
  }

  lemma {:induction false} ParsePrintedMembers(members: seq<Member>, post: Text, reprint: Text -> Text)
    requires members != [] && CanonicalMembers(members, reprint)
    ensures ParseMembers(PrintMembers(members) + [CLOSE_OBJECT] + post, reprint) == Some(Read(members, post))
    decreases members, 0
  {
    var s, after := PrintMembers(members) + [CLOSE_OBJECT] + post, AfterMember(members, post);
    SplitFirstMember(members, post);
    ParsePrint(members[0].value, after, reprint);
    if |members| > 1 {
      ParsePrintedMembers(members[1..], post, reprint);
      AfterMemberTail(members, post);
    }
    ParseAllMembers(s, members, after, post, reprint);
  }

  lemma ParseAllMembers(s: Text, members: seq<Member>, after: Text, post: Text, reprint: Text -> Text)
    requires members != [] && after == AfterMember(members, post)
    requires Joined(members[0].key) && Settled(members[0].value, reprint)
    requires s == Quote(members[0].key) + ([COLON] + (Print(members[0].value) + after))
    requires ParseValue(Print(members[0].value) + after, reprint) == Some(Read(members[0].value, after))
    requires |members| > 1 ==>
               SkipSpace(after[1..]) == after[1..]
               && ParseMembers(after[1..], reprint) == Some(Read(members[1..], post))
    ensures ParseMembers(s, reprint) == Some(Read(members, post))
  {
    hide Print, Quote, ParseValue, ParseMembers;
    ParseKeyAndValue(s, members[0], after, reprint);
    if |members| == 1 {
      assert after[1..] == post && members == [members[0]];
    } else {
      assert members == [members[0]] + members[1..];
    }
  }

  /** Every canonical value is what its own print is read as. */
  lemma LoadsPrint(v: Json, reprint: Text -> Text)
    requires Canonical(v, reprint)
    ensures Loads(Print(v), reprint) == Some(v)
  {
    assert Print(v) + [] == Print(v);
    PrintStart(v, reprint);
    SkipNothing(Print(v));
    ParsePrint(v, [], reprint);
  }
}
