/** Where a number ends in JSON text (section 6 of RFC 8259), as Python's scanner finds it. */
module JsonNumbers {
  import opened JsonStrings

  const MINUS: Code := 45
  const PLUS: Code := 43
  const POINT: Code := 46
  const ZERO: Code := 48
  const COMMA: Code := 44
  const CLOSE_LIST: Code := 93
  const CLOSE_OBJECT: Code := 125

  predicate IsDigit(c: Code) { 48 <= c <= 57 }

  predicate StartsWithCode(s: Text, c: Code) { s != [] && s[0] == c }

  function DigitsLen(s: Text): (n: nat)
    ensures n <= |s|
  {
    if s == [] || !IsDigit(s[0]) then 0 else 1 + DigitsLen(s[1..])
  }

  function SignLen(s: Text): (n: nat)
    ensures n <= |s|
  {
    if StartsWithCode(s, MINUS) then 1 else 0
  }

  function IntegerLen(s: Text): (n: nat)
    ensures n <= |s|
  {
    if StartsWithCode(s, ZERO) then 1 else DigitsLen(s)
  }

  function FractionLen(s: Text): (n: nat)
    ensures n <= |s|
  {
    if StartsWithCode(s, POINT) && DigitsLen(s[1..]) > 0 then 1 + DigitsLen(s[1..]) else 0
  }

  function ExponentSignLen(s: Text): (n: nat)
    ensures n <= |s|
  {
    if StartsWithCode(s, PLUS) || StartsWithCode(s, MINUS) then 1 else 0
  }

  function ExponentLen(s: Text): (n: nat)
    ensures n <= |s|
  {
    if StartsWithCode(s, 101) || StartsWithCode(s, 69) then
      var signed := 1 + ExponentSignLen(s[1..]);
      if DigitsLen(s[signed..]) > 0 then signed + DigitsLen(s[signed..]) else 0
    else 0
  }

  /** The length of the longest number at the start of `s`, or 0. */
  function NumberLen(s: Text): (n: nat)
    ensures n <= |s|
  {
    var sign := SignLen(s);
    var whole := sign + IntegerLen(s[sign..]);
    if whole == sign then 0
    else
      var decimal := whole + FractionLen(s[whole..]);
      decimal + ExponentLen(s[decimal..])
  }

  predicate IsNumber(token: Text)
  {
    token != [] && NumberLen(token) == |token|
  }

  /** What can follow a value in compact text: nothing, a comma or a closing bracket. */
  predicate Delimited(post: Text)
  {
    post == [] || post[0] == COMMA || post[0] == CLOSE_LIST || post[0] == CLOSE_OBJECT
  }

  lemma DropOfConcat(a: Text, post: Text, k: nat)
    requires k <= |a|
    ensures (a + post)[k..] == a[k..] + post
  {
  }

  lemma {:induction false} DigitsLenStable(a: Text, post: Text)
    requires Delimited(post)
    ensures DigitsLen(a + post) == DigitsLen(a)
  {
    if a == [] {
      assert a + post == post;
    } else {
      DropOfConcat(a, post, 1);
      DigitsLenStable(a[1..], post);
    }
  }

  lemma PartsStable(a: Text, post: Text)
    requires Delimited(post)
    ensures SignLen(a + post) == SignLen(a)
    ensures IntegerLen(a + post) == IntegerLen(a)
    ensures FractionLen(a + post) == FractionLen(a)
  {
    DigitsLenStable(a, post);
    if a == [] {
      assert a + post == post;
    } else {
      DropOfConcat(a, post, 1);
      DigitsLenStable(a[1..], post);
    }
  }

  lemma ExponentStable(a: Text, post: Text)
    requires Delimited(post)
    ensures ExponentLen(a + post) == ExponentLen(a)
  {
    if a == [] {
      assert a + post == post;
    } else {
      DropOfConcat(a, post, 1);
      var tail := a[1..];
      assert ExponentSignLen(tail + post) == ExponentSignLen(tail);
      var signed := 1 + ExponentSignLen(tail);
      DropOfConcat(a, post, signed);
      DigitsLenStable(a[signed..], post);
    }
  }

  /** A delimiter never makes the number before it longer or shorter. */
  lemma NumberLenStable(a: Text, post: Text)
    requires Delimited(post)
    ensures NumberLen(a + post) == NumberLen(a)
  {
    hide SignLen, IntegerLen, FractionLen, ExponentLen;
    PartsStable(a, post);
    var sign := SignLen(a);
    DropOfConcat(a, post, sign);
    PartsStable(a[sign..], post);
    var whole := sign + IntegerLen(a[sign..]);
    DropOfConcat(a, post, whole);
    PartsStable(a[whole..], post);
    var decimal := whole + FractionLen(a[whole..]);
    DropOfConcat(a, post, decimal);
    ExponentStable(a[decimal..], post);
  }

  lemma NumberStart(token: Text)
    requires IsNumber(token)
    ensures IsDigit(token[0]) || token[0] == MINUS
  {
  }

  lemma {:induction false} DigitsAreAscii(s: Text)
    ensures IsAscii(s[..DigitsLen(s)])
  {
    if s != [] && IsDigit(s[0]) {
      DigitsAreAscii(s[1..]);
      assert s[..DigitsLen(s)] == [s[0]] + s[1..][..DigitsLen(s[1..])];
    }
  }

  lemma IntegerIsAscii(s: Text)
    ensures IsAscii(s[..IntegerLen(s)])
  {
    DigitsAreAscii(s);
  }

  lemma FractionIsAscii(s: Text)
    ensures IsAscii(s[..FractionLen(s)])
  {
    if StartsWithCode(s, POINT) {
      DigitsAreAscii(s[1..]);
      assert s[..1 + DigitsLen(s[1..])] == [s[0]] + s[1..][..DigitsLen(s[1..])];
    }
  }

  lemma ExponentIsAscii(s: Text)
    ensures IsAscii(s[..ExponentLen(s)])
  {
    if ExponentLen(s) > 0 {
      var signed := 1 + ExponentSignLen(s[1..]);
      DigitsAreAscii(s[signed..]);
      assert s[..signed + DigitsLen(s[signed..])] == s[..signed] + s[signed..][..DigitsLen(s[signed..])];
      assert forall i :: 0 <= i < signed ==> s[i] < 128;
    }
  }

  lemma JoinAscii(s: Text, k: nat, more: nat)
    requires k + more <= |s| && IsAscii(s[..k]) && IsAscii(s[k..][..more])
    ensures IsAscii(s[..k + more])
  {
    assert s[..k + more] == s[..k] + s[k..][..more];
  }

  lemma NumberIsAscii(token: Text)
    requires IsNumber(token)
    ensures IsAscii(token)
  {
    hide IntegerLen, FractionLen, ExponentLen;
    var sign := SignLen(token);
    assert IsAscii(token[..sign]);
    IntegerIsAscii(token[sign..]);
    JoinAscii(token, sign, IntegerLen(token[sign..]));
    var whole := sign + IntegerLen(token[sign..]);
    FractionIsAscii(token[whole..]);
    JoinAscii(token, whole, FractionLen(token[whole..]));
    var decimal := whole + FractionLen(token[whole..]);
    ExponentIsAscii(token[decimal..]);
    JoinAscii(token, decimal, ExponentLen(token[decimal..]));
    assert token[..|token|] == token;
  }
}
