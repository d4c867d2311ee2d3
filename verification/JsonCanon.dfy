/** Text that equals the compact print of its own parse: exactly the prints of canonical values. */
module JsonCanon {
  import opened Options
  import opened JsonStrings
  import opened JsonNumbers
  import opened JsonValues

  // ---------- A scanned number is itself a number token ----------

  lemma {:induction false} DigitsOfPrefix(s: Text, m: nat)
    requires DigitsLen(s) <= m <= |s|
    ensures DigitsLen(s[..m]) == DigitsLen(s)
  {
    if s != [] && IsDigit(s[0]) {
      DigitsOfPrefix(s[1..], m - 1);
      assert s[..m][1..] == s[1..][..m - 1];
    }
  }

  lemma IntegerOfPrefix(s: Text, m: nat)
    requires IntegerLen(s) <= m <= |s|
    ensures IntegerLen(s[..m]) == IntegerLen(s)
  {
    if !StartsWithCode(s, ZERO) {
      DigitsOfPrefix(s, m);
    }
  }

  lemma FractionOfPrefix(s: Text, m: nat)
    requires FractionLen(s) <= m <= |s|
    ensures FractionLen(s[..m]) == FractionLen(s)
  {
    if m > 0 && StartsWithCode(s, POINT) {
      assert s[..m][1..] == s[1..][..m - 1];
      DigitsOfPrefix(s[1..], m - 1);
    }
  }

  lemma ExponentOfPrefix(s: Text, m: nat)
    requires ExponentLen(s) == m <= |s|
    ensures ExponentLen(s[..m]) == m
  {
    if m > 0 {
      var signed := 1 + ExponentSignLen(s[1..]);
      assert s[..m][1..] == s[1..][..m - 1];
      assert s[..m][signed..] == s[signed..][..m - signed];
      DigitsOfPrefix(s[signed..], m - signed);
    }
  }

  lemma NumberOfPrefix(s: Text)
    requires NumberLen(s) > 0
    ensures IsNumber(s[..NumberLen(s)])
  {
    hide IntegerLen, FractionLen, ExponentLen, DigitsLen;
    var n, sign := NumberLen(s), SignLen(s);
    var whole := sign + IntegerLen(s[sign..]);
    var decimal := whole + FractionLen(s[whole..]);
    var t := s[..n];
    assert t[sign..] == s[sign..][..n - sign] && t[whole..] == s[whole..][..n - whole];
    assert t[decimal..] == s[decimal..][..n - decimal];
    IntegerOfPrefix(s[sign..], n - sign);
    FractionOfPrefix(s[whole..], n - whole);
    ExponentOfPrefix(s[decimal..], n - decimal);
  }

  // ---------- What the reader returns is settled ----------

  lemma {:induction false} SetMemberPlaces(members: seq<Member>, key: Text, value: Json)
    ensures var r := SetMember(members, key, value);
            && |members| <= |r| <= |members| + 1
            && (forall i :: 0 <= i < |members| ==>
                  r[i].key == members[i].key && (r[i] == members[i] || r[i] == Member(key, value)))
            && (|r| > |members| ==>
                  r[|members|] == Member(key, value) && forall i :: 0 <= i < |members| ==> members[i].key != key)
  {
    if members != [] && members[0].key != key {
      SetMemberPlaces(members[1..], key, value);
      assert members == [members[0]] + members[1..];
    }
  }

  lemma {:induction false} FromPairsKeeps(sofar: seq<Member>, pairs: seq<Member>, good: Member -> bool)
    requires DistinctKeys(sofar)
    requires forall i :: 0 <= i < |sofar| ==> good(sofar[i])
    requires forall i :: 0 <= i < |pairs| ==> good(pairs[i])
    ensures var r := FromPairs(sofar, pairs);
            DistinctKeys(r) && forall i :: 0 <= i < |r| ==> good(r[i])
    decreases |pairs|
  {
    if pairs != [] {
      SetMemberPlaces(sofar, pairs[0].key, pairs[0].value);
      assert pairs[0] == Member(pairs[0].key, pairs[0].value);
      FromPairsKeeps(SetMember(sofar, pairs[0].key, pairs[0].value), pairs[1..], good);
    }
  }

  ghost function SettledMember(reprint: Text -> Text): Member -> bool
  {
    (m: Member) => Settled(m.value, reprint)
  }

  lemma {:induction false} ParseSettled(s: Text, reprint: Text -> Text)
    requires GoodReprint(reprint)
    ensures ParseValue(s, reprint).Some? ==> Settled(ParseValue(s, reprint).value.value, reprint)
    decreases |s|, 0
  {
    if s != [] && s[0] == OPEN_OBJECT {
      var inside := SkipSpace(s[1..]);
      ParseMembersSettled(inside, reprint);
      if !StartsWithCode(inside, CLOSE_OBJECT) && ParseMembers(inside, reprint).Some? {
        FromPairsKeeps([], ParseMembers(inside, reprint).value.value, SettledMember(reprint));
      }
    } else if s != [] && s[0] == OPEN_LIST {
      ParseItemsSettled(SkipSpace(s[1..]), reprint);
    } else if s != [] && s[0] != QUOTE {
      ParseAtomSettled(s, reprint);
      hide ParseAtom;
    }
  }

  lemma ReprintedIsSettled(token: Text, reprint: Text -> Text)
    requires GoodReprint(reprint) && IsToken(token)
    ensures Settled(Number(reprint(token)), reprint)
  {
  }

  lemma ParseWordSettled(s: Text, reprint: Text -> Text)
    requires GoodReprint(reprint) && s != []
    ensures ParseAnyWord(s, reprint).Some? ==> Settled(ParseAnyWord(s, reprint).value.value, reprint)
  {
    hide IsToken, GoodReprint, StartsWith;
    ReprintedIsSettled(NAN_WORD, reprint);
    ReprintedIsSettled(INFINITY_WORD, reprint);
    ReprintedIsSettled(MINUS_INFINITY_WORD, reprint);
    assert Settled(Null, reprint) && Settled(Bool(true), reprint) && Settled(Bool(false), reprint);
    hide Settled;
  }

  lemma ParseAtomSettled(s: Text, reprint: Text -> Text)
    requires GoodReprint(reprint) && s != []
    ensures ParseAtom(s, reprint).Some? ==> Settled(ParseAtom(s, reprint).value.value, reprint)
  {
    if NumberLen(s) > 0 {
      NumberOfPrefix(s);
      ReprintedIsSettled(s[..NumberLen(s)], reprint);
    } else {
      ParseWordSettled(s, reprint);
    }
    hide NumberLen, GoodReprint, IsNumber, Settled, ParseAnyWord;
  }

  lemma {:induction false} ParseItemsSettled(s: Text, reprint: Text -> Text)
    requires GoodReprint(reprint)
    ensures ParseItems(s, reprint).Some? ==>
              forall v :: v in ParseItems(s, reprint).value.value ==> Settled(v, reprint)
    decreases |s|, 1
  {
    hide GoodReprint, Settled;
    ParseSettled(s, reprint);
    if ParseValue(s, reprint).Some? {
      var after := SkipSpace(ParseValue(s, reprint).value.rest);
      if StartsWithCode(after, COMMA) {
        ParseItemsSettled(SkipSpace(after[1..]), reprint);
      }
    }
  }

  lemma {:induction false} ParseMembersSettled(s: Text, reprint: Text -> Text)
    requires GoodReprint(reprint)
    ensures ParseMembers(s, reprint).Some? ==>
              forall m :: m in ParseMembers(s, reprint).value.value ==> Settled(m.value, reprint)
    decreases |s|, 1
  {
    hide GoodReprint, Settled;
    if ReadString(s).Some? {
      var colon := SkipSpace(ReadString(s).value.rest);
      if StartsWithCode(colon, COLON) {
        var at := SkipSpace(colon[1..]);
        ParseSettled(at, reprint);
        if ParseValue(at, reprint).Some? {
          var after := SkipSpace(ParseValue(at, reprint).value.rest);
          if StartsWithCode(after, COMMA) {
            ParseMembersSettled(SkipSpace(after[1..]), reprint);
          }
        }
      }
    }
  }

  // ---------- Strings read from ASCII text hold no split pair ----------

  lemma {:induction false} SkipSpaceAscii(s: Text)
    requires IsAscii(s)
    ensures IsAscii(SkipSpace(s))
  {
    if s != [] && IsSpace(s[0]) {
      SkipSpaceAscii(s[1..]);
    }
  }

  lemma {:induction false} ReadBodyAscii(s: Text)
    requires IsAscii(s)
    ensures ReadBody(s).Some? ==> IsAscii(ReadBody(s).value.rest)
    decreases |s|
  {
    if s != [] && s[0] != QUOTE && ReadUnit(s).Some? {
      ReadBodyAscii(s[ReadUnit(s).value.width..]);
    }
  }

  lemma ReadStringAscii(s: Text)
    requires IsAscii(s)
    ensures ReadString(s).Some? ==> IsAscii(ReadString(s).value.rest) && Joined(ReadString(s).value.value)
  {
    if s != [] {
      ReadBodyAscii(s[1..]);
      ReadFromAsciiIsJoined(s[1..]);
    }
  }

  lemma ParseAtomJoined(s: Text, reprint: Text -> Text)
    requires IsAscii(s) && s != []
    ensures ParseAtom(s, reprint).Some? ==>
              AllJoined(ParseAtom(s, reprint).value.value) && IsAscii(ParseAtom(s, reprint).value.rest)
  {
    hide NumberLen, ParseAnyWord;
    ParseWordJoined(s, reprint);
  }

  lemma ParseWordJoined(s: Text, reprint: Text -> Text)
    requires IsAscii(s) && s != []
    ensures ParseAnyWord(s, reprint).Some? ==>
              AllJoined(ParseAnyWord(s, reprint).value.value) && IsAscii(ParseAnyWord(s, reprint).value.rest)
  {
  }

  lemma {:induction false} ParseJoined(s: Text, reprint: Text -> Text)
    requires IsAscii(s)
    ensures ParseValue(s, reprint).Some? ==>
              AllJoined(ParseValue(s, reprint).value.value) && IsAscii(ParseValue(s, reprint).value.rest)
    decreases |s|, 0
  {
    if s == [] {
    } else if s[0] == QUOTE {
      ReadStringAscii(s);
    } else if s[0] == OPEN_OBJECT {
      SkipSpaceAscii(s[1..]);
      ParseObjectJoined(SkipSpace(s[1..]), reprint);
    } else if s[0] == OPEN_LIST {
      SkipSpaceAscii(s[1..]);
      ParseItemsJoined(SkipSpace(s[1..]), reprint);
    } else {
      ParseAtomJoined(s, reprint);
    }
  }

  lemma {:induction false} ParseObjectJoined(s: Text, reprint: Text -> Text)
    requires IsAscii(s)
    ensures ParseObject(s, reprint).Some? ==>
              AllJoined(ParseObject(s, reprint).value.value) && IsAscii(ParseObject(s, reprint).value.rest)
    decreases |s|, 2
  {
    ParseMembersJoined(s, reprint);
    if !StartsWithCode(s, CLOSE_OBJECT) && ParseMembers(s, reprint).Some? {
      FromPairsKeeps([], ParseMembers(s, reprint).value.value, JoinedMember());
    }
  }

  ghost function JoinedMember(): Member -> bool
  {
    (m: Member) => Joined(m.key) && AllJoined(m.value)
  }

  lemma {:induction false} ParseItemsJoined(s: Text, reprint: Text -> Text)
    requires IsAscii(s)
    ensures ParseItems(s, reprint).Some? ==>
              && IsAscii(ParseItems(s, reprint).value.rest)
              && forall v :: v in ParseItems(s, reprint).value.value ==> AllJoined(v)
    decreases |s|, 1
  {
    hide AllJoined;
    ParseJoined(s, reprint);
    if ParseValue(s, reprint).Some? {
      SkipSpaceAscii(ParseValue(s, reprint).value.rest);
      var after := SkipSpace(ParseValue(s, reprint).value.rest);
      if StartsWithCode(after, COMMA) {
        SkipSpaceAscii(after[1..]);
        ParseItemsJoined(SkipSpace(after[1..]), reprint);
      }
    }
  }

  lemma {:induction false} ParseMembersJoined(s: Text, reprint: Text -> Text)
    requires IsAscii(s)
    ensures ParseMembers(s, reprint).Some? ==>
              && IsAscii(ParseMembers(s, reprint).value.rest)
              && forall m :: m in ParseMembers(s, reprint).value.value ==> Joined(m.key) && AllJoined(m.value)
    decreases |s|, 1
  {
    hide AllJoined, Joined;
    ReadStringAscii(s);
    if ReadString(s).Some? {
      SkipSpaceAscii(ReadString(s).value.rest);
      var colon := SkipSpace(ReadString(s).value.rest);
      if StartsWithCode(colon, COLON) {
        SkipSpaceAscii(colon[1..]);
        var at := SkipSpace(colon[1..]);
        ParseJoined(at, reprint);
        if ParseValue(at, reprint).Some? {
          SkipSpaceAscii(ParseValue(at, reprint).value.rest);
          var after := SkipSpace(ParseValue(at, reprint).value.rest);
          if StartsWithCode(after, COMMA) {
            SkipSpaceAscii(after[1..]);
            ParseMembersJoined(SkipSpace(after[1..]), reprint);
          }
        }
      }
    }
  }

  // ---------- Prints are ASCII ----------

  lemma {:induction false} PrintIsAscii(v: Json, reprint: Text -> Text)
    requires Settled(v, reprint)
    ensures IsAscii(Print(v))
    decreases v, 1
  {
    hide NumberLen, Quote;
    match v
    case Null =>
    case Bool(_) =>
    case Number(token) => if IsNumber(token) { NumberIsAscii(token); }
    case Str(text) => QuoteIsAscii(text);
    case Arr(items) => PrintItemsAscii(items, reprint);
    case Obj(members) => PrintMembersAscii(members, reprint);
  }

  lemma {:induction false} PrintItemsAscii(items: seq<Json>, reprint: Text -> Text)
    requires forall i :: 0 <= i < |items| ==> Settled(items[i], reprint)
    ensures IsAscii(PrintItems(items))
    decreases items, 0
  {
    if items != [] {
      PrintIsAscii(items[0], reprint);
      PrintItemsAscii(items[1..], reprint);
    }
  }

  lemma {:induction false} PrintMembersAscii(members: seq<Member>, reprint: Text -> Text)
    requires forall i :: 0 <= i < |members| ==> Settled(members[i].value, reprint)
    ensures IsAscii(PrintMembers(members))
    decreases members, 0
  {
    if members != [] {
      QuoteIsAscii(members[0].key);
      PrintIsAscii(members[0].value, reprint);
      PrintMembersAscii(members[1..], reprint);
    }
  }

  // ---------- The comparison that the leaf walk makes ----------

  /**
   Text equals the print of its own parse exactly when it is the print of some canonical value, and then of that one.
  */
  lemma CompactTextIsCanonical(text: Text, v: Json, reprint: Text -> Text)
    requires GoodReprint(reprint)
    ensures Loads(text, reprint) == Some(v) && Print(v) == text <==> Canonical(v, reprint) && Print(v) == text
  {
    if Print(v) == text {
      if Canonical(v, reprint) {
        LoadsPrint(v, reprint);
      }
      if Loads(text, reprint) == Some(v) {
        ParseSettled(SkipSpace(text), reprint);
        PrintIsAscii(v, reprint);
        SkipSpaceAscii(text);
        ParseJoined(SkipSpace(text), reprint);
      }
    }
  }
}
