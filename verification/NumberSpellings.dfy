/** Which texts are JSON numbers (section 6 of RFC 8259): what the scanner takes whole is exactly these. */
module NumberSpellings {
  import opened JsonStrings
  import opened JsonNumbers
  import opened Utf8

  predicate AllDigits(t: Text)
  {
    forall i :: 0 <= i < |t| ==> '0' as int <= t[i] <= '9' as int
  }

  predicate IsWhole(t: Text)
  {
    t == FromString("0") || (t != [] && AllDigits(t) && t[0] != '0' as int)
  }

  predicate IsFraction(t: Text)
  {
    t == [] || (|t| >= 2 && t[0] == '.' as int && AllDigits(t[1..]))
  }

  predicate IsExponent(t: Text)
  {
    t == [] ||
    (|t| >= 2 && (t[0] == 'e' as int || t[0] == 'E' as int)
     && (AllDigits(t[1..]) || (|t| >= 3 && (t[1] == '+' as int || t[1] == '-' as int) && AllDigits(t[2..]))))
  }

  /** The parts of a number: its sign, its whole part, its fraction and its exponent. */
  datatype Parts = Parts(negative: bool, whole: Text, fraction: Text, exponent: Text)

  predicate AreParts(p: Parts) { IsWhole(p.whole) && IsFraction(p.fraction) && IsExponent(p.exponent) }

  function Sign(p: Parts): Text { if p.negative then FromString("-") else [] }

  function NumberText(p: Parts): Text
  {
    Sign(p) + (p.whole + (p.fraction + p.exponent))
  }

  // ---------- Lengths ----------

  predicate NoDigitNext(t: Text) { t == [] || !IsDigit(t[0]) }

  lemma {:induction false} DigitsThen(digits: Text, more: Text)
    requires AllDigits(digits) && NoDigitNext(more)
    ensures DigitsLen(digits + more) == |digits|
  {
    if digits == [] {
      assert digits + more == more;
    } else {
      DigitsThen(digits[1..], more);
      assert (digits + more)[1..] == digits[1..] + more;
    }
  }

  lemma {:induction false} DigitsTaken(t: Text)
    ensures AllDigits(t[..DigitsLen(t)])
    ensures NoDigitNext(t[DigitsLen(t)..])
  {
    if t != [] && IsDigit(t[0]) {
      var n := DigitsLen(t[1..]);
      DigitsTaken(t[1..]);
      assert t[..n + 1] == [t[0]] + t[1..][..n];
      assert t[n + 1..] == t[1..][n..];
    }
  }

  lemma WholeLen(whole: Text, more: Text)
    requires IsWhole(whole) && NoDigitNext(more)
    ensures IntegerLen(whole + more) == |whole| && !StartsWithCode(whole + more, MINUS)
  {
    if whole[0] != ZERO {
      DigitsThen(whole, more);
    }
  }

  lemma FractionThen(fraction: Text, exponent: Text)
    requires IsFraction(fraction) && IsExponent(exponent)
    ensures FractionLen(fraction + exponent) == |fraction| && NoDigitNext(fraction + exponent)
  {
    if fraction != [] {
      assert (fraction + exponent)[1..] == fraction[1..] + exponent;
      DigitsThen(fraction[1..], exponent);
    } else {
      assert fraction + exponent == exponent;
    }
  }

  lemma ExponentWhole(exponent: Text)
    requires IsExponent(exponent)
    ensures ExponentLen(exponent) == |exponent|
  {
    if exponent != [] {
      var nothing: Text := [];
      if AllDigits(exponent[1..]) {
        DigitsThen(exponent[1..], nothing);
        assert exponent[1..] + nothing == exponent[1..];
      } else {
        DigitsThen(exponent[2..], nothing);
        assert exponent[2..] + nothing == exponent[2..];
      }
    }
  }

  lemma PartsAreTaken(p: Parts)
    requires AreParts(p)
    ensures NumberLen(NumberText(p)) == |NumberText(p)| > 0
  {
    hide SignLen, IntegerLen, FractionLen, ExponentLen, IsFraction, IsExponent, IsWhole, Sign;
    var t := NumberText(p);
    var tail := p.fraction + p.exponent;
    var body := p.whole + tail;
    FractionThen(p.fraction, p.exponent);
    WholeLen(p.whole, tail);
    ExponentWhole(p.exponent);
    SignThen(p, body);
    Dropped(Sign(p), body);
    Dropped(p.whole, tail);
    Dropped(p.fraction, p.exponent);
    assert t[|Sign(p)| + |p.whole|..] == body[|p.whole|..];
    assert t[|Sign(p)| + |p.whole| + |p.fraction|..] == tail[|p.fraction|..];
    WholeIsThere(p.whole);
  }

  lemma SignThen(p: Parts, body: Text)
    requires !StartsWithCode(body, MINUS)
    ensures SignLen(Sign(p) + body) == |Sign(p)|
  {
    assert FromString("-") == [MINUS];
    assert !p.negative ==> Sign(p) + body == body;
  }

  lemma Dropped(a: Text, b: Text)
    ensures (a + b)[|a|..] == b
  {
  }

  lemma WholeIsThere(whole: Text)
    requires IsWhole(whole)
    ensures whole != []
  {
  }

  // ---------- The other way ----------

  lemma WholeTaken(t: Text)
    requires IntegerLen(t) > 0
    ensures IsWhole(t[..IntegerLen(t)])
  {
    if t[0] == ZERO {
      assert t[..1] == [ZERO] == FromString("0");
    } else {
      DigitsTaken(t);
    }
  }

  lemma FractionTaken(t: Text)
    ensures IsFraction(t[..FractionLen(t)])
  {
    if FractionLen(t) > 0 {
      DigitsTaken(t[1..]);
      assert t[..FractionLen(t)][1..] == t[1..][..DigitsLen(t[1..])];
    }
  }

  lemma ExponentTaken(t: Text)
    ensures IsExponent(t[..ExponentLen(t)])
  {
    var n := ExponentLen(t);
    if n > 0 {
      var signed := 1 + ExponentSignLen(t[1..]);
      DigitsTaken(t[signed..]);
      assert t[..n][signed..] == t[signed..][..DigitsLen(t[signed..])];
      assert signed == 2 ==> t[..n][1] == t[1..][0];
    }
  }

  /** The parts of a number, cut where the scanner finds their ends. */
  function PartsOf(token: Text): Parts
    requires IsNumber(token)
  {
    var sign := SignLen(token);
    var whole := sign + IntegerLen(token[sign..]);
    var decimal := whole + FractionLen(token[whole..]);
    Parts(sign == 1, token[sign..whole], token[whole..decimal], token[decimal..])
  }

  lemma TakenAreParts(token: Text)
    requires IsNumber(token)
    ensures AreParts(PartsOf(token))
  {
    hide SignLen, IntegerLen, FractionLen, ExponentLen, IsWhole, IsFraction, IsExponent;
    var sign := SignLen(token);
    var whole := sign + IntegerLen(token[sign..]);
    var decimal := whole + FractionLen(token[whole..]);
    WholeTaken(token[sign..]);
    FractionTaken(token[whole..]);
    ExponentTaken(token[decimal..]);
    FirstPiece(token, sign, whole);
    FirstPiece(token, whole, decimal);
    FirstPiece(token, decimal, |token|);
  }

  lemma TakenJoin(token: Text)
    requires IsNumber(token)
    ensures NumberText(PartsOf(token)) == token
  {
    hide SignLen, IntegerLen, FractionLen, ExponentLen, NumberText, FromString;
    var sign := SignLen(token);
    var whole := sign + IntegerLen(token[sign..]);
    SignTaken(token);
    CutJoins(token, PartsOf(token), sign, whole, whole + FractionLen(token[whole..]));
  }

  lemma SignTaken(token: Text)
    ensures SignLen(token) <= 1
    ensures token[..SignLen(token)] == if SignLen(token) == 1 then FromString("-") else []
  {
    assert FromString("-") == [MINUS];
  }

  lemma FirstPiece(t: Text, a: nat, b: nat)
    requires a <= b <= |t|
    ensures t[a..][..b - a] == t[a..b] && (b == |t| ==> t[a..b] == t[a..])
  {
  }

  lemma CutJoins(t: Text, p: Parts, a: nat, b: nat, c: nat)
    requires a <= b <= c <= |t| && p.whole == t[a..b] && p.fraction == t[b..c] && p.exponent == t[c..]
    requires Sign(p) == t[..a]
    ensures NumberText(p) == t
  {
    hide Sign;
    assert t[b..c] + t[c..] == t[b..];
    assert t[a..b] + t[b..] == t[a..];
    assert t[..a] + t[a..] == t;
  }

  /** A token is a number exactly when it is made of the parts of one. */
  lemma NumbersExactly(token: Text)
    ensures IsNumber(token) <==> exists p :: AreParts(p) && NumberText(p) == token
  {
    hide AreParts, NumberText, NumberLen;
    if IsNumber(token) {
      TakenAreParts(token);
      TakenJoin(token);
    }
    if p :| AreParts(p) && NumberText(p) == token {
      PartsAreTaken(p);
    }
  }
}
