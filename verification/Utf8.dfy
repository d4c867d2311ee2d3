/**
 UTF-8 (sections 3 and 4 of RFC 3629) as Python encodes it and decodes it with errors ignored or replaced,
 and the cut of a search output at a byte cap.
*/
module Utf8 {
  import opened Options
  import opened JsonStrings

  type Byte = b: int | 0 <= b < 256

  type Bytes = seq<Byte>

  predicate IsSurrogate(c: Code) { 0xD800 <= c <= 0xDFFF }

  /** Python encodes every string but one that holds a surrogate. */
  predicate Encodable(t: Text) { forall i :: 0 <= i < |t| ==> !IsSurrogate(t[i]) }

  function EncodeCode(c: Code): (b: Bytes)
    ensures 1 <= |b| <= 4
  {
    if c < 0x80 then [c]
    else if c < 0x800 then [0xC0 + c / 64, 0x80 + c % 64]
    else if c < 0x10000 then [0xE0 + c / 4096, 0x80 + c / 64 % 64, 0x80 + c % 64]
    else [0xF0 + c / 262144, 0x80 + c / 4096 % 64, 0x80 + c / 64 % 64, 0x80 + c % 64]
  }

  function Encode(t: Text): Bytes
    requires Encodable(t)
  {
    if t == [] then [] else EncodeCode(t[0]) + Encode(t[1..])
  }

  // ---------- Decoding ----------

  predicate IsContinuation(b: Byte) { 0x80 <= b < 0xC0 }

  /** How many bytes a character with this first byte has; 0 for a byte that starts none. */
  function Width(lead: Byte): (n: nat)
    ensures n <= 4
  {
    if lead < 0x80 then 1
    else if lead < 0xC2 then 0
    else if lead < 0xE0 then 2
    else if lead < 0xF0 then 3
    else if lead < 0xF5 then 4
    else 0
  }

  /** The second byte may not make an overlong form, a surrogate, or a code past the last one. */
  predicate SecondFits(lead: Byte, second: Byte)
  {
    && IsContinuation(second)
    && (lead == 0xE0 ==> second >= 0xA0)
    && (lead == 0xED ==> second < 0xA0)
    && (lead == 0xF0 ==> second >= 0x90)
    && (lead == 0xF4 ==> second < 0x90)
  }

  /** How much of a character is there: the first byte and the following bytes that fit it. */
  function GoodLen(b: Bytes): (n: nat)
    requires b != [] && Width(b[0]) > 0
    ensures 1 <= n <= Width(b[0]) && n <= |b|
  {
    var width := Width(b[0]);
    if width == 1 || |b| < 2 || !SecondFits(b[0], b[1]) then 1
    else if width == 2 || |b| < 3 || !IsContinuation(b[2]) then 2
    else if width == 3 || |b| < 4 || !IsContinuation(b[3]) then 3
    else 4
  }

  datatype Step = Char(code: Code, width: nat) | Bad(width: nat)

  function ReadChar(b: Bytes): (step: Step)
    requires b != []
    ensures 1 <= step.width <= |b|
  {
    if Width(b[0]) == 0 then Bad(1)
    else if GoodLen(b) < Width(b[0]) then Bad(GoodLen(b))
    else if Width(b[0]) == 1 then Char(b[0], 1)
    else
      var lead: int, second: int := b[0], b[1];
      if Width(b[0]) == 2 then Char((lead - 0xC0) * 64 + (second - 0x80), 2)
      else
        var third: int := b[2];
        if Width(b[0]) == 3 then Char((lead - 0xE0) * 4096 + (second - 0x80) * 64 + (third - 0x80), 3)
        else
          var fourth: int := b[3];
          Char((lead - 0xF0) * 262144 + (second - 0x80) * 4096 + (third - 0x80) * 64 + (fourth - 0x80), 4)
  }

  const REPLACEMENT: Code := 0xFFFD

  /** `errors="replace"`: each bad stretch becomes one replacement character. */
  function DecodeReplace(b: Bytes): Text
    decreases |b|
  {
    if b == [] then []
    else
      match ReadChar(b)
      case Char(code, width) => [code] + DecodeReplace(b[width..])
      case Bad(width) => [REPLACEMENT] + DecodeReplace(b[width..])
  }

  /** `errors="ignore"`: bad stretches are dropped. */
  function DecodeIgnore(b: Bytes): Text
    decreases |b|
  {
    if b == [] then []
    else
      match ReadChar(b)
      case Char(code, width) => [code] + DecodeIgnore(b[width..])
      case Bad(width) => DecodeIgnore(b[width..])
  }

  // ---------- The cut ----------

  function FromString(s: string): Text { seq(|s|, i requires 0 <= i < |s| => s[i] as int) }

  function Decimal(n: nat): Text
  {
    if n < 10 then [48 + n] else Decimal(n / 10) + [48 + n % 10]
  }

  function Banner(cap: nat): Text
  {
    FromString("\n[output cut at ") + Decimal(cap) + FromString(" bytes]\n")
  }

  /** The search output an agent sees: cut at `cap` bytes, with the cut stated. */
  function CutToCap(data: Bytes, cap: Option<nat>): (Text, bool)
  {
    if cap.None? || |data| <= cap.value then (DecodeReplace(data), false)
    else (DecodeIgnore(data[..cap.value]) + Banner(cap.value), true)
  }

  // ---------- Encoding is uniquely decodable ----------

  lemma ReadEncodedThree(c: Code, more: Bytes)
    requires 0x800 <= c < 0x10000 && !IsSurrogate(c)
    ensures ReadChar(EncodeCode(c) + more) == Char(c, 3)
  {
    hide Width, GoodLen, SecondFits;
    StartOfEncoded(c, more);
    ThreeParts(c);
  }

  lemma ThreeParts(c: nat)
    ensures c / 4096 * 4096 + c / 64 % 64 * 64 + c % 64 == c
  {
    assert c == c / 64 * 64 + c % 64;
    assert c / 64 == c / 64 / 64 * 64 + c / 64 % 64;
    assert c / 4096 == c / 64 / 64;
  }

  lemma FourParts(c: nat)
    ensures c / 262144 * 262144 + c / 4096 % 64 * 4096 + c / 64 % 64 * 64 + c % 64 == c
  {
    ThreeParts(c);
    assert c / 4096 == c / 4096 / 64 * 64 + c / 4096 % 64;
    assert c / 262144 == c / 4096 / 64;
  }

  /** The first bytes of an encoded character say how long it is, whatever follows. */
  lemma StartOfEncoded(c: Code, more: Bytes)
    requires !IsSurrogate(c)
    ensures var b := EncodeCode(c) + more;
            && Width(b[0]) == |EncodeCode(c)| == GoodLen(b)
            && forall i :: 0 <= i < |EncodeCode(c)| ==> b[i] == EncodeCode(c)[i]
  {
    hide EncodeCode, Width, SecondFits;
    var whole := EncodeCode(c);
    var b := whole + more;
    assert forall i :: 0 <= i < |whole| ==> b[i] == whole[i];
    LeadHasWidth(c);
  }

  lemma ReadEncodedFour(c: Code, more: Bytes)
    requires 0x10000 <= c
    ensures ReadChar(EncodeCode(c) + more) == Char(c, 4)
  {
    hide Width, GoodLen, SecondFits;
    StartOfEncoded(c, more);
    FourParts(c);
  }

  lemma ReadEncoded(c: Code, more: Bytes)
    requires !IsSurrogate(c)
    ensures ReadChar(EncodeCode(c) + more) == Char(c, |EncodeCode(c)|)
  {
    if c < 0x80 {
    } else if c < 0x800 {
    } else if c < 0x10000 {
      ReadEncodedThree(c, more);
    } else {
      ReadEncodedFour(c, more);
    }
  }

  /** A character cut short is one bad stretch to the end. */
  lemma ReadCutCode(c: Code, m: nat)
    requires !IsSurrogate(c) && 0 < m < |EncodeCode(c)|
    ensures ReadChar(EncodeCode(c)[..m]) == Bad(m)
  {
    var whole := EncodeCode(c);
    var cut := whole[..m];
    assert cut[0] == whole[0];
    LeadHasWidth(c);
    if m > 1 {
      assert cut[1] == whole[1];
    }
    if m > 2 {
      assert cut[2] == whole[2];
    }
  }

  lemma LeadHasWidth(c: Code)
    requires !IsSurrogate(c)
    ensures var b := EncodeCode(c);
            && Width(b[0]) == |b| && (|b| > 1 ==> SecondFits(b[0], b[1]))
            && (|b| > 2 ==> IsContinuation(b[2])) && (|b| > 3 ==> IsContinuation(b[3]))
  {
  }

  lemma {:induction false} DecodeEncoded(t: Text)
    requires Encodable(t)
    ensures DecodeReplace(Encode(t)) == t
  {
    hide EncodeCode, ReadChar;
    if t != [] {
      var b := Encode(t);
      ReadEncoded(t[0], Encode(t[1..]));
      assert b[|EncodeCode(t[0])|..] == Encode(t[1..]);
      DecodeEncoded(t[1..]);
    }
  }

  lemma EncodeInjective(t: Text, u: Text)
    requires Encodable(t) && Encodable(u) && Encode(t) == Encode(u)
    ensures t == u
  {
    DecodeEncoded(t);
    DecodeEncoded(u);
  }

  lemma {:induction false} EncodeAscii(t: Text)
    requires IsAscii(t)
    ensures Encodable(t) && Encode(t) == t
  {
    if t != [] {
      EncodeAscii(t[1..]);
    }
  }

  // ---------- The cut keeps the longest whole-character prefix ----------

  /** How many whole characters of `t` fit in `cap` bytes. */
  ghost function WholeChars(t: Text, cap: nat): (k: nat)
    requires Encodable(t)
    ensures k <= |t|
  {
    if t == [] || |EncodeCode(t[0])| > cap then 0 else 1 + WholeChars(t[1..], cap - |EncodeCode(t[0])|)
  }

  lemma {:induction false} WholeCharsIsLongest(t: Text, cap: nat)
    requires Encodable(t)
    ensures var k := WholeChars(t, cap);
            && |Encode(t[..k])| <= cap
            && (k < |t| ==> cap < |Encode(t[..k + 1])|)
  {
    if t == [] {
    } else if |EncodeCode(t[0])| > cap {
      assert t[..1] == [t[0]] && t[..1][1..] == [];
      assert Encode(t[..1]) == EncodeCode(t[0]);
    } else {
      var less := cap - |EncodeCode(t[0])|;
      var k := WholeChars(t[1..], less);
      WholeCharsIsLongest(t[1..], less);
      assert t[..k + 1][1..] == t[1..][..k];
      if k + 1 < |t| {
        assert t[..k + 2][1..] == t[1..][..k + 1];
      }
    }
  }

  lemma {:induction false} DecodeCut(t: Text, cap: nat)
    requires Encodable(t) && cap <= |Encode(t)|
    ensures DecodeIgnore(Encode(t)[..cap]) == t[..WholeChars(t, cap)]
  {
    hide EncodeCode, ReadChar;
    if t == [] || cap == 0 {
    } else {
      var c := EncodeCode(t[0]);
      var b := Encode(t)[..cap];
      if |c| > cap {
        assert b == c[..cap];
        ReadCutCode(t[0], cap);
        assert b[cap..] == [];
      } else {
        var tail := Encode(t[1..])[..cap - |c|];
        assert b == c + tail && b[|c|..] == tail;
        ReadEncoded(t[0], tail);
        DecodeCut(t[1..], cap - |c|);
        var k := WholeChars(t[1..], cap - |c|);
        assert t[..k + 1] == [t[0]] + t[1..][..k];
      }
    }
  }

  /**
   For the encoding of any string: at or under the cap the whole string comes back unflagged; over it, exactly the
   longest whole-character prefix that fits in the cap, then the statement of the cut.
  */
  lemma CutKeepsLongestPrefix(t: Text, cap: nat)
    requires Encodable(t)
    ensures |Encode(t)| <= cap ==> CutToCap(Encode(t), Some(cap)) == (t, false)
    ensures |Encode(t)| > cap ==>
              exists k :: 0 <= k < |t| && |Encode(t[..k])| <= cap < |Encode(t[..k + 1])|
                          && CutToCap(Encode(t), Some(cap)) == (t[..k] + Banner(cap), true)
    ensures CutToCap(Encode(t), None) == (t, false)
  {
    DecodeEncoded(t);
    if |Encode(t)| > cap {
      var k := WholeChars(t, cap);
      WholeCharsIsLongest(t, cap);
      DecodeCut(t, cap);
      assert t[..|t|] == t;
    }
  }
}
