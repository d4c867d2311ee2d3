/** How values, strings, bytes and the cut are spelled, with every character and byte written out. */
module Spellings {
  import opened Options
  import opened JsonStrings
  import opened JsonNumbers
  import opened JsonValues
  import opened Utf8
  import Whitespace

  // ---------- JSON text (RFC 8259) ----------

  function Joined<T>(parts: seq<T>, text: T -> Text): Text
  {
    if parts == [] then []
    else if |parts| == 1 then text(parts[0])
    else text(parts[0]) + FromString(",") + Joined(parts[1..], text)
  }

  function MemberText(member: Member): Text
  {
    Quote(member.key) + FromString(":") + Print(member.value)
  }

  lemma {:induction false} ItemsSpelled(items: seq<Json>)
    ensures PrintItems(items) == Joined(items, Print)
  {
    hide Print;
    if |items| > 1 {
      ItemsSpelled(items[1..]);
      Commas();
      SameSum(Print(items[0]), FromString(","), PrintItems(items[1..]));
    } else if |items| == 1 {
      assert Print(items[0]) + [] == Print(items[0]);
    }
  }

  lemma {:induction false} MembersSpelled(members: seq<Member>)
    ensures PrintMembers(members) == Joined(members, MemberText)
  {
    hide Print, Quote;
    Commas();
    if |members| > 1 {
      MembersSpelled(members[1..]);
      SameSum(MemberText(members[0]), FromString(","), PrintMembers(members[1..]));
    } else if |members| == 1 {
      assert MemberText(members[0]) + [] == MemberText(members[0]);
    }
  }

  lemma SameSum(a: Text, b: Text, c: Text)
    ensures a + (b + c) == a + b + c
  {
  }

  lemma Commas()
    ensures FromString(",") == [COMMA] && FromString(":") == [COLON] && FromString("[") == [OPEN_LIST]
    ensures FromString("]") == [CLOSE_LIST] && FromString("{") == [OPEN_OBJECT] && FromString("}") == [CLOSE_OBJECT]
  {
  }

  /** The compact print, with no space anywhere. */
  lemma PrintIsSpelled(v: Json)
    ensures Print(v) ==
            match v
            case Null => FromString("null")
            case Bool(flag) => if flag then FromString("true") else FromString("false")
            case Number(token) => token
            case Str(text) => Quote(text)
            case Arr(items) => FromString("[") + Joined(items, Print) + FromString("]")
            case Obj(members) => FromString("{") + Joined(members, MemberText) + FromString("}")
  {
    hide Joined, Quote, PrintItems, PrintMembers;
    Commas();
    match v
    case Arr(items) => ItemsSpelled(items);
    case Obj(members) => MembersSpelled(members);
    case _ =>
  }

  /** The digits of an escape are lower case. */
  function HexSpelled(n: nat): Text
    requires n < 0x10000
  {
    var digits := "0123456789abcdef";
    FromString([digits[n / 4096], digits[n / 256 % 16], digits[n / 16 % 16], digits[n % 16]])
  }

  lemma UnicodeEscapeIsSpelled(n: nat)
    requires n < 0x10000
    ensures UnicodeEscape(n) == FromString("\\u") + HexSpelled(n)
  {
    var digits := "0123456789abcdef";
    assert forall d: nat :: d < 16 ==> digits[d] as int == HexDigit(d);
  }

  /** How each code is written in a string literal: five short escapes, printable ASCII as it is, the rest in hex. */
  lemma EscapeIsSpelled(c: Code)
    ensures EscapeCode(c) ==
            if c == '"' as int then FromString("\\\"")
            else if c == '\\' as int then FromString("\\\\")
            else if c == 8 then FromString("\\b")
            else if c == '\t' as int then FromString("\\t")
            else if c == '\n' as int then FromString("\\n")
            else if c == 12 then FromString("\\f")
            else if c == '\r' as int then FromString("\\r")
            else if ' ' as int <= c <= '~' as int then [c]
            else if c < 0x10000 then FromString("\\u") + HexSpelled(c)
            else FromString("\\u") + HexSpelled(0xD800 + (c - 0x10000) / 0x400)
                 + FromString("\\u") + HexSpelled(0xDC00 + (c - 0x10000) % 0x400)
  {
    hide HexSpelled, UnicodeEscape;
    if c >= 0x10000 {
      UnicodeEscapeIsSpelled(0xD800 + (c - 0x10000) / 0x400);
      UnicodeEscapeIsSpelled(0xDC00 + (c - 0x10000) % 0x400);
      var low := HexSpelled(0xDC00 + (c - 0x10000) % 0x400);
      SameSum(FromString("\\u") + HexSpelled(0xD800 + (c - 0x10000) / 0x400), FromString("\\u"), low);
    } else {
      UnicodeEscapeIsSpelled(c);
    }
  }

  /** A string literal is its escaped codes one after the other, in double quotes. */
  lemma QuoteIsSpelled(t: Text, u: Text, c: Code)
    ensures Quote(t) == FromString("\"") + Escaped(t) + FromString("\"")
    ensures Escaped([]) == [] && Escaped([c]) == EscapeCode(c) && Escaped(t + u) == Escaped(t) + Escaped(u)
  {
    hide EscapeCode;
    assert FromString("\"") == [QUOTE];
    assert [c][1..] == [] && EscapeCode(c) + [] == EscapeCode(c);
    EscapedConcat(t, u);
  }

  lemma {:induction false} EscapedConcat(t: Text, u: Text)
    ensures Escaped(t + u) == Escaped(t) + Escaped(u)
  {
    hide EscapeCode;
    if t == [] {
      assert t + u == u;
    } else {
      EscapedConcat(t[1..], u);
      assert (t + u)[1..] == t[1..] + u;
      SameSum(EscapeCode(t[0]), Escaped(t[1..]), Escaped(u));
    }
  }

  /** The letters that may follow a backslash, and the hexadecimal digits of either case. */
  lemma EscapesAreRead(letter: Code, d: nat)
    requires d < 16
    ensures ShortCode(letter) ==
            if letter == '"' as int then '"' as int
            else if letter == '\\' as int then '\\' as int
            else if letter == '/' as int then '/' as int
            else if letter == 'b' as int then 8
            else if letter == 'f' as int then 12
            else if letter == 'n' as int then 10
            else if letter == 'r' as int then 13
            else if letter == 't' as int then 9 else -1
    ensures HexValue("0123456789abcdef"[d] as int) == d && HexValue("0123456789ABCDEF"[d] as int) == d
    ensures HexValue(letter) >= 0 ==>
              var v := HexValue(letter);
              letter == "0123456789abcdef"[v] as int || letter == "0123456789ABCDEF"[v] as int
  {
  }

  lemma SpacesAreSkipped(c: Code)
    ensures IsSpace(c) <==> c in FromString(" \t\n\r")
  {
    assert FromString(" \t\n\r") == [32, 9, 10, 13];
  }

  /** The blanks of `str.split`, one for one. */
  lemma BlanksAreListed(c: Code)
    ensures Whitespace.IsBlank(c) <==>
              c in {0x09, 0x0A, 0x0B, 0x0C, 0x0D, 0x1C, 0x1D, 0x1E, 0x1F, 0x20, 0x85, 0xA0, 0x1680, 0x2000, 0x2001,
                    0x2002, 0x2003, 0x2004, 0x2005, 0x2006, 0x2007, 0x2008, 0x2009, 0x200A, 0x2028, 0x2029, 0x202F,
                    0x205F, 0x3000}
  {
  }

  predicate AllBlank(t: Text) { forall i :: 0 <= i < |t| ==> Whitespace.IsBlank(t[i]) }

  predicate IsWord(t: Text) { t != [] && forall i :: 0 <= i < |t| ==> !Whitespace.IsBlank(t[i]) }

  lemma {:induction false} BlanksCollapse(blanks: Text, place: Whitespace.Place)
    requires AllBlank(blanks)
    ensures Whitespace.Collapse(blanks, place) == []
    ensures Whitespace.PlaceAfter(blanks, place)
            == if blanks == [] then place else if place.Start? then Whitespace.Start else Whitespace.Gap
  {
    if blanks != [] {
      BlanksCollapse(blanks[1..], if place.Start? then Whitespace.Start else Whitespace.Gap);
    }
  }

  lemma {:induction false} WordCollapses(word: Text)
    requires forall i :: 0 <= i < |word| ==> !Whitespace.IsBlank(word[i])
    ensures Whitespace.Collapse(word, Whitespace.Inside) == word
    ensures Whitespace.PlaceAfter(word, Whitespace.Inside) == Whitespace.Inside
  {
    if word != [] {
      WordCollapses(word[1..]);
    }
  }

  lemma FirstOfWord(word: Text)
    requires IsWord(word)
    ensures Whitespace.Collapse(word, Whitespace.Start) == word
    ensures Whitespace.Collapse(word, Whitespace.Gap) == FromString(" ") + word
    ensures Whitespace.PlaceAfter(word, Whitespace.Start) == Whitespace.Inside
    ensures Whitespace.PlaceAfter(word, Whitespace.Gap) == Whitespace.Inside
  {
    WordCollapses(word[1..]);
    assert FromString(" ") == [32] && word == [word[0]] + word[1..];
  }

  /** Blanks at the ends go, and the blanks between two words become one space. */
  lemma WordsAreSpaced(before: Text, word: Text, gap: Text, next: Text, after: Text)
    requires AllBlank(before) && AllBlank(gap) && AllBlank(after) && gap != [] && IsWord(word) && IsWord(next)
    ensures Whitespace.Normalize(before + (word + after)) == word
    ensures Whitespace.Normalize(before + (word + (gap + (next + after)))) == word + (FromString(" ") + next)
  {
    hide Whitespace.Normalize, Whitespace.Collapse, Whitespace.PlaceAfter;
    var tail := gap + (next + after);
    Whitespace.NormalizeIsCollapse(before + (word + after));
    Whitespace.NormalizeIsCollapse(before + (word + tail));
    Whitespace.CollapseConcat(before, word + after, Whitespace.Start);
    Whitespace.CollapseConcat(before, word + tail, Whitespace.Start);
    BlanksCollapse(before, Whitespace.Start);
    Whitespace.CollapseConcat(word, after, Whitespace.Start);
    Whitespace.CollapseConcat(word, tail, Whitespace.Start);
    FirstOfWord(word);
    FirstOfWord(next);
    BlanksCollapse(after, Whitespace.Inside);
    BlanksCollapse(gap, Whitespace.Inside);
    Whitespace.CollapseConcat(gap, next + after, Whitespace.Inside);
    Whitespace.CollapseConcat(next, after, Whitespace.Gap);
    NothingAdded(word);
    NothingAdded(FromString(" ") + next);
    NothingAdded(word + (FromString(" ") + next));
  }

  lemma NothingAdded(t: Text)
    ensures t + [] == t && [] + t == t
  {
  }

  /** A number token is a JSON number or one of the three words that Python adds. */
  lemma TokensAreSpelled(token: Text)
    ensures IsToken(token) <==>
              || IsNumber(token) || token == FromString("NaN") || token == FromString("Infinity")
              || token == FromString("-Infinity")
  {
    hide IsNumber;
    assert NAN_WORD == FromString("NaN") && INFINITY_WORD == FromString("Infinity");
    assert MINUS_INFINITY_WORD == FromString("-Infinity");
  }

  // ---------- UTF-8 (section 3 of RFC 3629) ----------

  /** What a byte adds to a code: its low bits, moved up. */
  function Bits(b: Byte, mark: int, weight: int): int
  {
    (b as int - mark) * weight
  }

  predicate Follow(b: Byte) { 0x80 <= b < 0xC0 }

  /** The bytes of a code: how many, what their high bits are, and the number that the low bits make. */
  lemma CodeIsEncoded(c: Code)
    ensures var b := EncodeCode(c);
            if c < 0x80 then b == [c]
            else if c < 0x800 then
              |b| == 2 && 0xC0 <= b[0] < 0xE0 && Follow(b[1]) && Bits(b[0], 0xC0, 0x40) + Bits(b[1], 0x80, 1) == c
            else if c < 0x10000 then
              && |b| == 3 && 0xE0 <= b[0] < 0xF0 && Follow(b[1]) && Follow(b[2])
              && Bits(b[0], 0xE0, 0x1000) + Bits(b[1], 0x80, 0x40) + Bits(b[2], 0x80, 1) == c
            else
              && |b| == 4 && 0xF0 <= b[0] < 0xF5 && Follow(b[1]) && Follow(b[2]) && Follow(b[3])
              && Bits(b[0], 0xF0, 0x40000) + Bits(b[1], 0x80, 0x1000) + Bits(b[2], 0x80, 0x40) + Bits(b[3], 0x80, 1)
                 == c
  {
    if 0x800 <= c < 0x10000 {
      ThreeParts(c);
    } else if c >= 0x10000 {
      FourParts(c);
    }
  }

  // ---------- The cut ----------

  function DecimalValue(t: Text): int
  {
    if t == [] then 0 else DecimalValue(t[..|t| - 1]) * 10 + (t[|t| - 1] - '0' as int)
  }

  /** A number in decimal: digits only, no zero in front, and the number they make. */
  lemma {:induction false} DecimalIsSpelled(n: nat)
    ensures var t := Decimal(n);
            && t != [] && (forall i :: 0 <= i < |t| ==> '0' as int <= t[i] <= '9' as int)
            && (t[0] == '0' as int ==> n == 0) && DecimalValue(t) == n
  {
    if n >= 10 {
      DecimalIsSpelled(n / 10);
      assert Decimal(n)[..|Decimal(n)| - 1] == Decimal(n / 10);
    } else {
      assert Decimal(n)[..0] == [];
    }
  }

  /** What is over the cap is cut off, its last bytes dropped if they make no character, and the cut is stated. */
  lemma CutIsSpelled(data: Bytes, cap: Option<nat>)
    ensures CutToCap(data, cap) ==
            if cap.Some? && |data| > cap.value
            then (DecodeIgnore(data[..cap.value])
                  + (FromString("\n[output cut at ") + Decimal(cap.value) + FromString(" bytes]\n")), true)
            else (DecodeReplace(data), false)
  {
    hide DecodeIgnore, DecodeReplace, Decimal, FromString;
  }
}
