/**
 What decoding makes of bytes that are not UTF-8: a character is read exactly where one is encoded, and anything else
 is one bad stretch, as long as it could still have become a character.
*/
module BadBytes {
  import opened JsonStrings
  import opened Utf8

  /** The bytes are the encoding of the code. */
  predicate Encodes(c: Code, b: Bytes)
  {
    !IsSurrogate(c) && EncodeCode(c) == b
  }

  /** The bytes begin the encoding of some character, or are one. */
  ghost predicate BeginsSome(piece: Bytes)
  {
    exists c: Code :: !IsSurrogate(c) && piece <= EncodeCode(c)
  }

  lemma TwoBytes(x: nat, s: nat)
    requires s < 64
    ensures (x * 64 + s) / 64 == x && (x * 64 + s) % 64 == s
  {
  }

  lemma TwoAreEncoded(lead: Byte, second: Byte)
    requires Width(lead) == 2 && SecondFits(lead, second)
    ensures var l: int, s: int := lead, second;
            var c := (l - 0xC0) * 64 + (s - 0x80);
            0 <= c < 0x110000 && Encodes(c, [lead, second])
  {
    var l: int, s: int := lead, second;
    TwoBytes(l - 0xC0, s - 0x80);
  }

  lemma ThreeAreEncoded(lead: Byte, second: Byte, third: Byte)
    requires Width(lead) == 3 && SecondFits(lead, second) && IsContinuation(third)
    ensures var l: int, s: int, t: int := lead, second, third;
            var c := (l - 0xE0) * 4096 + (s - 0x80) * 64 + (t - 0x80);
            0 <= c < 0x110000 && Encodes(c, [lead, second, third])
  {
    var l: int, s: int, t: int := lead, second, third;
    var head := (l - 0xE0) * 64 + (s - 0x80);
    TwoBytes(head, t - 0x80);
    TwoBytes(l - 0xE0, s - 0x80);
    var c := head * 64 + (t - 0x80);
    assert c / 4096 == c / 64 / 64;
  }

  lemma FourAreEncoded(lead: Byte, second: Byte, third: Byte, fourth: Byte)
    requires Width(lead) == 4 && SecondFits(lead, second) && IsContinuation(third) && IsContinuation(fourth)
    ensures var l: int, s: int, t: int, f: int := lead, second, third, fourth;
            var c := (l - 0xF0) * 262144 + (s - 0x80) * 4096 + (t - 0x80) * 64 + (f - 0x80);
            0 <= c < 0x110000 && Encodes(c, [lead, second, third, fourth])
  {
    var l: int, s: int, t: int, f: int := lead, second, third, fourth;
    var head := (l - 0xF0) * 64 + (s - 0x80);
    var three := head * 64 + (t - 0x80);
    TwoBytes(three, f - 0x80);
    TwoBytes(head, t - 0x80);
    TwoBytes(l - 0xF0, s - 0x80);
    var c := three * 64 + (f - 0x80);
    assert c / 4096 == c / 64 / 64;
    assert c / 262144 == c / 64 / 64 / 64;
  }

  /** A character is read exactly where the bytes begin with the encoding of one. */
  lemma CharIsEncoded(b: Bytes, c: Code, width: nat)
    requires b != []
    ensures ReadChar(b) == Char(c, width) <==> width <= |b| && Encodes(c, b[..width])
  {
    if ReadChar(b) == Char(c, width) {
      ReadIsEncoded(b, c, width);
    }
    if width <= |b| && Encodes(c, b[..width]) {
      ReadEncoded(c, b[width..]);
      assert b == b[..width] + b[width..];
    }
  }

  lemma ReadIsEncoded(b: Bytes, c: Code, width: nat)
    requires b != [] && ReadChar(b) == Char(c, width)
    ensures Encodes(c, b[..width])
  {
    hide Encodes;
    if width == 1 {
      OneIsEncoded(c);
      assert b[..1] == [b[0]];
    } else if width == 2 {
      TwoAreEncoded(b[0], b[1]);
      assert b[..2] == [b[0], b[1]];
    } else if width == 3 {
      ThreeAreEncoded(b[0], b[1], b[2]);
      assert b[..3] == [b[0], b[1], b[2]];
    } else {
      FourAreEncoded(b[0], b[1], b[2], b[3]);
      assert b[..4] == [b[0], b[1], b[2], b[3]];
    }
  }

  lemma OneIsEncoded(c: Code)
    requires c < 0x80
    ensures Encodes(c, [c])
  {
  }

  /** Good characters are decoded; a bad stretch after them is dropped, or replaced by U+FFFD, and decoding goes on. */
  lemma {:induction false} BadStretch(t: Text, b: Bytes, width: nat)
    requires Encodable(t) && b != [] && ReadChar(b) == Bad(width)
    ensures DecodeIgnore(Encode(t) + b) == t + DecodeIgnore(b[width..])
    ensures DecodeReplace(Encode(t) + b) == t + ([0xFFFD] + DecodeReplace(b[width..]))
    decreases |t|
  {
    hide EncodeCode, ReadChar, DecodeIgnore, DecodeReplace;
    if t == [] {
      assert Encode(t) + b == b;
      BadFirst(b, width);
      NothingBefore(DecodeIgnore(b[width..]));
      NothingBefore([0xFFFD] + DecodeReplace(b[width..]));
    } else {
      var rest := Encode(t[1..]) + b;
      BadStretch(t[1..], b, width);
      GoodFirst(t[0], rest);
      EncodeFirst(t, b);
      FirstOfText(t, DecodeIgnore(b[width..]));
      FirstOfText(t, [0xFFFD] + DecodeReplace(b[width..]));
    }
  }

  lemma BadFirst(b: Bytes, width: nat)
    requires b != [] && ReadChar(b) == Bad(width)
    ensures DecodeIgnore(b) == DecodeIgnore(b[width..])
    ensures DecodeReplace(b) == [0xFFFD] + DecodeReplace(b[width..])
  {
    hide ReadChar;
  }

  lemma GoodFirst(c: Code, rest: Bytes)
    requires !IsSurrogate(c)
    ensures DecodeIgnore(EncodeCode(c) + rest) == [c] + DecodeIgnore(rest)
    ensures DecodeReplace(EncodeCode(c) + rest) == [c] + DecodeReplace(rest)
  {
    hide EncodeCode, ReadChar;
    ReadEncoded(c, rest);
    assert (EncodeCode(c) + rest)[|EncodeCode(c)|..] == rest;
  }

  lemma EncodeFirst(t: Text, b: Bytes)
    requires Encodable(t) && t != []
    ensures Encode(t) + b == EncodeCode(t[0]) + (Encode(t[1..]) + b)
  {
    hide EncodeCode;
  }

  lemma FirstOfText(t: Text, more: Text)
    requires t != []
    ensures [t[0]] + (t[1..] + more) == t + more
  {
  }

  lemma NothingBefore(t: Text)
    ensures [] + t == t
  {
  }

  /** A bad stretch is one byte, or as many as begin some character; one more would begin none. */
  lemma BadIsMaximal(b: Bytes, width: nat, k: nat)
    requires b != [] && ReadChar(b) == Bad(width)
    ensures width == 1 || BeginsSome(b[..width])
    ensures width < k <= |b| ==> !BeginsSome(b[..k])
  {
    if width == 2 {
      TwoBegin(b[0], b[1]);
      assert b[..2] == [b[0], b[1]];
    } else if width == 3 {
      ThreeBegin(b[0], b[1], b[2]);
      assert b[..3] == [b[0], b[1], b[2]];
    }
    if width < k <= |b| && BeginsSome(b[..k]) {
      LongerBeginsNone(b, width, k);
    }
  }

  lemma TwoBegin(lead: Byte, second: Byte)
    requires Width(lead) >= 3 && SecondFits(lead, second)
    ensures BeginsSome([lead, second])
  {
    if Width(lead) == 3 {
      ThreeAreEncoded(lead, second, 0x80);
      var l: int, s: int := lead, second;
      var c: Code := (l - 0xE0) * 4096 + (s - 0x80) * 64;
      assert [lead, second] <= EncodeCode(c);
    } else {
      FourAreEncoded(lead, second, 0x80, 0x80);
      var l: int, s: int := lead, second;
      var c: Code := (l - 0xF0) * 262144 + (s - 0x80) * 4096;
      assert [lead, second] <= EncodeCode(c);
    }
  }

  lemma ThreeBegin(lead: Byte, second: Byte, third: Byte)
    requires Width(lead) == 4 && SecondFits(lead, second) && IsContinuation(third)
    ensures BeginsSome([lead, second, third])
  {
    FourAreEncoded(lead, second, third, 0x80);
    var l: int, s: int, t: int := lead, second, third;
    var c: Code := (l - 0xF0) * 262144 + (s - 0x80) * 4096 + (t - 0x80) * 64;
    assert [lead, second, third] <= EncodeCode(c);
  }

  lemma LongerBeginsNone(b: Bytes, width: nat, k: nat)
    requires b != [] && ReadChar(b) == Bad(width) && width < k <= |b|
    ensures !BeginsSome(b[..k])
  {
    forall c: Code | !IsSurrogate(c) ensures !(b[..k] <= EncodeCode(c)) {
      NotABeginning(b, width, k, c);
    }
  }

  lemma NotABeginning(b: Bytes, width: nat, k: nat, c: Code)
    requires b != [] && ReadChar(b) == Bad(width) && width < k <= |b| && !IsSurrogate(c)
    ensures !(b[..k] <= EncodeCode(c))
  {
    hide EncodeCode, SecondFits, IsContinuation;
    LeadHasWidth(c);
    SameStart(b, k, EncodeCode(c));
  }

  lemma SameStart(b: Bytes, k: nat, whole: Bytes)
    requires k <= |b|
    ensures b[..k] <= whole ==> k <= |whole| && forall i :: 0 <= i < k ==> b[i] == whole[i]
  {
    assert forall i :: 0 <= i < k ==> b[..k][i] == b[i];
  }
}
