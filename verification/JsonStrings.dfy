/**
 JSON string literals as Python's json module prints and reads them (section 7 of RFC 8259).
 A Python string is a sequence of code points in which lone surrogates may occur, so it is modelled as a
 sequence of integers and not as Dafny's `string`.
*/
module JsonStrings {
  import opened Options

  type Code = c: int | 0 <= c < 0x110000

  type Text = seq<Code>

  const QUOTE: Code := 34
  const BACKSLASH: Code := 92
  const SLASH: Code := 47
  const LETTER_U: Code := 117

  predicate IsHigh(c: int) { 0xD800 <= c <= 0xDBFF }

  predicate IsLow(c: int) { 0xDC00 <= c <= 0xDFFF }

  predicate IsAscii(t: Text) { forall i :: 0 <= i < |t| ==> t[i] < 128 }

  // ---------- Printing ----------

  function HexDigit(d: nat): Code
    requires d < 16
  {
    if d < 10 then 48 + d else 87 + d
  }

  function UnicodeEscape(n: nat): Text
    requires n < 0x10000
  {
    [BACKSLASH, LETTER_U, HexDigit(n / 4096), HexDigit(n / 256 % 16), HexDigit(n / 16 % 16), HexDigit(n % 16)]
  }

  /** The letter of a two-character escape, or 0 for a code that has none. */
  function ShortEscape(c: Code): Code
  {
    if c == QUOTE then QUOTE
    else if c == BACKSLASH then BACKSLASH
    else if c == 8 then 98
    else if c == 9 then 116
    else if c == 10 then 110
    else if c == 12 then 102
    else if c == 13 then 114
    else 0
  }

  /** One code point as `json.dumps` writes it: everything outside printable ASCII is escaped. */
  function EscapeCode(c: Code): Text
  {
    if ShortEscape(c) != 0 then [BACKSLASH, ShortEscape(c)]
    else if 32 <= c <= 126 then [c]
    else if c < 0x10000 then UnicodeEscape(c)
    else UnicodeEscape(0xD800 + (c - 0x10000) / 0x400) + UnicodeEscape(0xDC00 + (c - 0x10000) % 0x400)
  }

  function Escaped(t: Text): Text
  {
    if t == [] then [] else EscapeCode(t[0]) + Escaped(t[1..])
  }

  function Quote(t: Text): Text
  {
    [QUOTE] + Escaped(t) + [QUOTE]
  }

  // ---------- Reading ----------

  /** The value of a hexadecimal digit in either case, or -1. */
  function HexValue(c: Code): (v: int)
    ensures -1 <= v < 16
  {
    if 48 <= c <= 57 then c - 48
    else if 97 <= c <= 102 then c - 87
    else if 65 <= c <= 70 then c - 55
    else -1
  }

  /** The value of the four digits that follow `\u` at the start of `s`, or -1. */
  function HexEscape(s: Text): (v: int)
    ensures -1 <= v < 0x10000
  {
    if |s| < 6 || s[0] != BACKSLASH || s[1] != LETTER_U then -1
    else
      var a, b, c, d := HexValue(s[2]), HexValue(s[3]), HexValue(s[4]), HexValue(s[5]);
      if a < 0 || b < 0 || c < 0 || d < 0 then -1 else a * 4096 + b * 256 + c * 16 + d
  }

  /** The code a two-character escape stands for, or -1. */
  function ShortCode(letter: Code): (v: int)
    ensures -1 <= v < 128
  {
    if letter == QUOTE || letter == BACKSLASH || letter == SLASH then letter
    else if letter == 98 then 8
    else if letter == 116 then 9
    else if letter == 110 then 10
    else if letter == 102 then 12
    else if letter == 114 then 13
    else -1
  }

  datatype Unit = Unit(code: Code, width: nat)

  /** The first character of a string body: its code point and how much text it takes. */
  function ReadUnit(s: Text): (u: Option<Unit>)
    requires s != []
    ensures u.Some? ==> 1 <= u.value.width <= |s|
  {
    if s[0] != BACKSLASH then
      if s[0] < 32 then None else Some(Unit(s[0], 1))
    else if |s| < 2 then None
    else if s[1] != LETTER_U then
      if ShortCode(s[1]) < 0 then None else Some(Unit(ShortCode(s[1]), 2))
    else
      var first := HexEscape(s);
      if first < 0 then None
      else if !IsHigh(first) || |s| < 8 || s[6] != BACKSLASH || s[7] != LETTER_U then Some(Unit(first, 6))
      else
        var second := HexEscape(s[6..]);
        if second < 0 then None
        else if IsLow(second) then Some(Unit(Combine(first, second), 12))
        else Some(Unit(first, 6))
  }

  function Combine(high: Code, low: Code): Code
    requires IsHigh(high) && IsLow(low)
  {
    0x10000 + (high - 0xD800) * 0x400 + (low - 0xDC00)
  }

  datatype Read<T> = Read(value: T, rest: Text)

  /** The body of a string literal up to and including its closing quote. */
  function ReadBody(s: Text): (r: Option<Read<Text>>)
    ensures r.Some? ==> |r.value.rest| < |s|
    decreases |s|
  {
    if s == [] then None
    else if s[0] == QUOTE then Some(Read([], s[1..]))
    else
      match ReadUnit(s)
      case None => None
      case Some(unit) =>
        match ReadBody(s[unit.width..])
        case None => None
        case Some(more) => Some(Read([unit.code] + more.value, more.rest))
  }

  function ReadString(s: Text): (r: Option<Read<Text>>)
    ensures r.Some? ==> |r.value.rest| < |s|
  {
    if s == [] || s[0] != QUOTE then None else ReadBody(s[1..])
  }

  // ---------- Surrogate pairs ----------

  /** Two surrogates side by side are read back as the one code point they encode. */
  function JoinPairs(t: Text): Text
    decreases |t|
  {
    if t == [] then []
    else if |t| >= 2 && IsHigh(t[0]) && IsLow(t[1]) then [Combine(t[0], t[1])] + JoinPairs(t[2..])
    else [t[0]] + JoinPairs(t[1..])
  }

  predicate Joined(t: Text)
  {
    forall i :: 0 <= i < |t| - 1 ==> !(IsHigh(t[i]) && IsLow(t[i + 1]))
  }

  /** Joining leaves no pair behind, and makes no low surrogate. */
  lemma {:induction false} JoinPairsIsJoined(t: Text)
    ensures Joined(JoinPairs(t))
    ensures JoinPairs(t) != [] && IsLow(JoinPairs(t)[0]) ==> t != [] && IsLow(t[0])
    decreases |t|
  {
    if t == [] {
    } else if |t| >= 2 && IsHigh(t[0]) && IsLow(t[1]) {
      JoinPairsIsJoined(t[2..]);
      JoinedAfter(Combine(t[0], t[1]), JoinPairs(t[2..]));
    } else {
      JoinPairsIsJoined(t[1..]);
      JoinedAfter(t[0], JoinPairs(t[1..]));
    }
  }

  lemma JoinedAfter(c: Code, t: Text)
    requires Joined(t) && !(IsHigh(c) && t != [] && IsLow(t[0]))
    ensures Joined([c] + t)
  {
    var all := [c] + t;
    forall i | 0 <= i < |all| - 1 ensures !(IsHigh(all[i]) && IsLow(all[i + 1])) {
      if i > 0 {
        assert all[i] == t[i - 1] && all[i + 1] == t[i - 1 + 1];
      }
    }
  }

  lemma {:induction false} JoinPairsShortens(t: Text)
    ensures |JoinPairs(t)| <= |t|
    ensures |JoinPairs(t)| == |t| ==> Joined(t)
    decreases |t|
  {
    if t == [] {
    } else if |t| >= 2 && IsHigh(t[0]) && IsLow(t[1]) {
      JoinPairsShortens(t[2..]);
    } else {
      JoinPairsShortens(t[1..]);
      if |JoinPairs(t)| == |t| {
        forall i | 0 <= i < |t| - 1 ensures !(IsHigh(t[i]) && IsLow(t[i + 1])) {
          if i > 0 {
            assert t[1..][i - 1] == t[i] && t[1..][i] == t[i + 1];
          }
        }
      }
    }
  }

  lemma {:induction false} JoinPairsKeepsJoined(t: Text)
    requires Joined(t)
    ensures JoinPairs(t) == t
    decreases |t|
  {
    if t != [] {
      assert |t| >= 2 ==> !(IsHigh(t[0]) && IsLow(t[0 + 1]));
      forall i | 0 <= i < |t[1..]| - 1 ensures !(IsHigh(t[1..][i]) && IsLow(t[1..][i + 1])) {
        assert t[1..][i] == t[i + 1] && t[1..][i + 1] == t[i + 1 + 1];
      }
      JoinPairsKeepsJoined(t[1..]);
    }
  }

  // ---------- Reading back what was printed ----------

  lemma HexDigitRead(d: nat)
    requires d < 16
    ensures HexValue(HexDigit(d)) == d
  {
  }

  lemma Sixteens(n: nat)
    requires n < 0x10000
    ensures n / 4096 < 16
    ensures n / 4096 * 4096 + n / 256 % 16 * 256 + n / 16 % 16 * 16 + n % 16 == n
  {
    assert n / 16 == n / 256 * 16 + n / 16 % 16;
    assert n / 256 == n / 4096 * 16 + n / 256 % 16;
  }

  lemma HexEscapeRead(n: nat, more: Text)
    requires n < 0x10000
    ensures HexEscape(UnicodeEscape(n) + more) == n
  {
    Sixteens(n);
    HexDigitRead(n / 4096);
    HexDigitRead(n / 256 % 16);
    HexDigitRead(n / 16 % 16);
    HexDigitRead(n % 16);
  }

  lemma ReadPairEscape(c: Code, more: Text)
    requires c >= 0x10000
    ensures ReadUnit(EscapeCode(c) + more) == Some(Unit(c, |EscapeCode(c)|))
  {
    hide UnicodeEscape, HexEscape;
    var s := EscapeCode(c) + more;
    var high, low := 0xD800 + (c - 0x10000) / 0x400, 0xDC00 + (c - 0x10000) % 0x400;
    EscapeShape(high);
    EscapeShape(low);
    HexEscapeRead(high, UnicodeEscape(low) + more);
    HexEscapeRead(low, more);
    assert s == UnicodeEscape(high) + (UnicodeEscape(low) + more);
    assert s[6..] == UnicodeEscape(low) + more;
    assert Combine(high, low) == c;
  }

  lemma EscapeShape(n: nat)
    requires n < 0x10000
    ensures var e := UnicodeEscape(n); |e| == 6 && e[0] == BACKSLASH && e[1] == LETTER_U
  {
  }

  lemma ReadOrdinary(c: Code, more: Text)
    requires !IsHigh(c)
    ensures ReadUnit(EscapeCode(c) + more) == Some(Unit(c, |EscapeCode(c)|))
  {
    var s := EscapeCode(c) + more;
    if ShortEscape(c) != 0 || 32 <= c <= 126 {
    } else if c < 0x10000 {
      HexEscapeRead(c, more);
    } else {
      ReadPairEscape(c, more);
    }
  }

  /** How the text after an escaped high surrogate starts. */
  lemma AfterHigh(t: Text, post: Text)
    ensures var more := Escaped(t) + [QUOTE] + post;
            |more| >= 2 && more[0] == BACKSLASH && more[1] == LETTER_U ==>
              t != [] && (IsLow(t[0]) <==> IsLow(HexEscape(more))) && HexEscape(more) >= 0
    ensures t != [] && IsLow(t[0]) ==>
              var more := Escaped(t) + [QUOTE] + post;
              |more| >= 6 && more[0] == BACKSLASH && more[1] == LETTER_U && HexEscape(more) == t[0]
  {
    if t != [] {
      var after := Escaped(t[1..]) + [QUOTE] + post;
      assert Escaped(t) + [QUOTE] + post == EscapeCode(t[0]) + after;
      EscapeStart(t[0], after);
    }
  }

  /** An escape that starts with a backslash and a `u` carries the code itself or, past 0xFFFF, a high surrogate. */
  lemma EscapeStart(c: Code, after: Text)
    ensures var more := EscapeCode(c) + after;
            if ShortEscape(c) != 0 || 32 <= c <= 126 then more[0] != BACKSLASH || more[1] != LETTER_U
            else |more| >= 6 && more[0] == BACKSLASH && more[1] == LETTER_U
                 && (if c < 0x10000 then HexEscape(more) == c else IsHigh(HexEscape(more)))
  {
    if ShortEscape(c) != 0 || 32 <= c <= 126 {
    } else if c < 0x10000 {
      HexEscapeRead(c, after);
    } else {
      var high, low := 0xD800 + (c - 0x10000) / 0x400, 0xDC00 + (c - 0x10000) % 0x400;
      assert EscapeCode(c) + after == UnicodeEscape(high) + (UnicodeEscape(low) + after);
      HexEscapeRead(high, UnicodeEscape(low) + after);
    }
  }

  lemma ReadHighBefore(c: Code, more: Text)
    requires IsHigh(c)
    requires |more| >= 2 && more[0] == BACKSLASH && more[1] == LETTER_U ==> HexEscape(more) >= 0
    ensures ReadUnit(EscapeCode(c) + more)
            == Some(if IsLow(HexEscape(more)) then Unit(Combine(c, HexEscape(more)), 12) else Unit(c, 6))
  {
    var s := UnicodeEscape(c) + more;
    HexEscapeRead(c, more);
    assert s[6..] == more;
  }

  lemma ReadHigh(c: Code, t: Text, post: Text)
    requires IsHigh(c)
    ensures ReadUnit(EscapeCode(c) + (Escaped(t) + [QUOTE] + post))
            == Some(if t != [] && IsLow(t[0]) then Unit(Combine(c, t[0]), 12) else Unit(c, 6))
  {
    AfterHigh(t, post);
    ReadHighBefore(c, Escaped(t) + [QUOTE] + post);
  }

  lemma {:induction false} ReadBodyOfEscaped(t: Text, post: Text)
    ensures ReadBody(Escaped(t) + [QUOTE] + post) == Some(Read(JoinPairs(t), post))
    decreases |t|
  {
    var s := Escaped(t) + [QUOTE] + post;
    if t == [] {
      assert s == [QUOTE] + post;
    } else {
      var more := Escaped(t[1..]) + [QUOTE] + post;
      assert s == EscapeCode(t[0]) + more;
      assert s[0] != QUOTE;
      if IsHigh(t[0]) {
        ReadHigh(t[0], t[1..], post);
        if |t| >= 2 && IsLow(t[1]) {
          ReadBodyOfEscaped(t[2..], post);
          EscapedPair(t, post);
        } else {
          ReadBodyOfEscaped(t[1..], post);
          assert s[6..] == more;
        }
      } else {
        ReadOrdinary(t[0], more);
        ReadBodyOfEscaped(t[1..], post);
        assert s[|EscapeCode(t[0])|..] == more;
      }
    }
  }

  lemma EscapedPair(t: Text, post: Text)
    requires |t| >= 2 && IsHigh(t[0]) && IsLow(t[1])
    ensures var s := Escaped(t) + [QUOTE] + post;
            |s| >= 12 && s[12..] == Escaped(t[2..]) + [QUOTE] + post
  {
    assert t[1..][1..] == t[2..];
    var tail := Escaped(t[2..]) + [QUOTE] + post;
    assert Escaped(t) == UnicodeEscape(t[0]) + (UnicodeEscape(t[1]) + Escaped(t[2..]));
    assert Escaped(t) + [QUOTE] + post == (UnicodeEscape(t[0]) + UnicodeEscape(t[1])) + tail;
  }

  /** A printed literal is read back with surrogate pairs joined, whatever follows it. */
  lemma ReadQuoted(t: Text, post: Text)
    ensures ReadString(Quote(t) + post) == Some(Read(JoinPairs(t), post))
  {
    hide Escaped, ReadBody, JoinPairs;
    ReadBodyOfEscaped(t, post);
    assert (Quote(t) + post)[1..] == Escaped(t) + [QUOTE] + post;
  }

  /** Printing then reading gives the same string exactly when it holds no high surrogate followed by a low one. */
  lemma QuoteRoundTrips(t: Text, post: Text)
    ensures ReadString(Quote(t) + post) == Some(Read(t, post)) <==> Joined(t)
  {
    ReadQuoted(t, post);
    if Joined(t) {
      JoinPairsKeepsJoined(t);
    } else {
      JoinPairsShortens(t);
    }
  }

  const SPLIT_PAIR: Text := [0xD800, 0xDC00]

  lemma JoinSplitPair()
    ensures JoinPairs(SPLIT_PAIR) == [0x10000]
  {
    assert SPLIT_PAIR[2..] == [];
    assert Combine(0xD800, 0xDC00) == 0x10000;
  }

  /** The two halves of U+10000, printed one by one, are read back as that one code point. */
  lemma SplitPairIsJoined(post: Text)
    ensures ReadString(Quote(SPLIT_PAIR) + post) == Some(Read([0x10000], post))
  {
    hide ReadString, Quote, JoinPairs;
    ReadQuoted(SPLIT_PAIR, post);
    JoinSplitPair();
  }

  /** Printed literals are plain ASCII, so a character of output is a byte of output. */
  lemma {:induction false} EscapedIsAscii(t: Text)
    ensures IsAscii(Escaped(t))
  {
    if t != [] {
      EscapedIsAscii(t[1..]);
    }
  }

  lemma QuoteIsAscii(t: Text)
    ensures IsAscii(Quote(t))
  {
    EscapedIsAscii(t);
  }

  // ---------- What is read from ASCII text holds no split pair ----------

  lemma {:induction false} ReadFromAsciiIsJoined(s: Text)
    requires IsAscii(s)
    ensures ReadBody(s).Some? ==> Joined(ReadBody(s).value.value)
    ensures ReadBody(s).Some? && ReadBody(s).value.value != [] && IsLow(ReadBody(s).value.value[0])
            ==> IsLow(HexEscape(s))
    decreases |s|
  {
    if ReadBody(s).Some? && s[0] != QUOTE {
      var unit := ReadUnit(s).value;
      var rest := s[unit.width..];
      assert IsAscii(rest);
      ReadFromAsciiIsJoined(rest);
      var more := ReadBody(rest).value.value;
      var all := [unit.code] + more;
      assert ReadBody(s).value.value == all;
      if IsHigh(unit.code) && more != [] && IsLow(more[0]) {
        assert false;
      }
      forall i | 0 <= i < |all| - 1 ensures !(IsHigh(all[i]) && IsLow(all[i + 1])) {
        if i > 0 {
          assert all[i] == more[i - 1] && all[i + 1] == more[i - 1 + 1];
        }
      }
    }
  }
}
