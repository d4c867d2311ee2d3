/**
 Which texts are JSON string literals (section 7 of RFC 8259) and what they spell: the reader accepts exactly these.
 It follows that a leaf is unquoted exactly when it is one such literal from end to end.
*/
module StringSpellings {
  import opened Options
  import opened JsonStrings
  import opened JsonNumbers
  import opened JsonValues
  import opened Utf8
  import opened Leaves
  import opened Scorer

  /** A code as it is, a backslash and a letter, or `\u` and four hexadecimal digits. */
  datatype Piece = Plain(c: Code) | Short(letter: Code) | Hex(digits: Text)

  predicate IsPiece(piece: Piece)
  {
    match piece
    case Plain(c) => c >= 0x20 && c != '"' as int && c != '\\' as int
    case Short(letter) => letter in FromString("\"\\/bfnrt")
    case Hex(digits) => |digits| == 4 && forall i :: 0 <= i < 4 ==> HexValue(digits[i]) >= 0
  }

  predicate ArePieces(pieces: seq<Piece>)
  {
    forall i :: 0 <= i < |pieces| ==> IsPiece(pieces[i])
  }

  function PieceText(piece: Piece): Text
  {
    match piece
    case Plain(c) => [c]
    case Short(letter) => FromString("\\") + [letter]
    case Hex(digits) => FromString("\\u") + digits
  }

  function PieceCode(piece: Piece): Code
    requires IsPiece(piece)
  {
    match piece
    case Plain(c) => c
    case Short(letter) =>
      if letter == 'b' as int then 8
      else if letter == 'f' as int then 12
      else if letter == 'n' as int then 10
      else if letter == 'r' as int then 13
      else if letter == 't' as int then 9
      else letter
    case Hex(digits) =>
      HexValue(digits[0]) * 0x1000 + HexValue(digits[1]) * 0x100 + HexValue(digits[2]) * 0x10 + HexValue(digits[3])
  }

  function TextOf(pieces: seq<Piece>): Text
  {
    if pieces == [] then [] else PieceText(pieces[0]) + TextOf(pieces[1..])
  }

  /** The pieces begin with the two halves of a surrogate pair, both in hexadecimal digits. */
  predicate StartsWithPair(pieces: seq<Piece>)
    requires ArePieces(pieces)
  {
    && |pieces| >= 2 && pieces[0].Hex? && pieces[1].Hex?
    && IsHigh(PieceCode(pieces[0])) && IsLow(PieceCode(pieces[1]))
  }

  /** What the pieces spell: one code each, but the two halves of a pair are one. */
  function Meaning(pieces: seq<Piece>): Text
    requires ArePieces(pieces)
  {
    if pieces == [] then []
    else if StartsWithPair(pieces) then
      [0x10000 + (PieceCode(pieces[0]) - 0xD800) * 0x400 + (PieceCode(pieces[1]) - 0xDC00)] + Meaning(pieces[2..])
    else [PieceCode(pieces[0])] + Meaning(pieces[1..])
  }

  // ---------- Pieces are read ----------

  lemma HexIsRead(digits: Text, more: Text)
    requires IsPiece(Hex(digits))
    ensures HexEscape(PieceText(Hex(digits)) + more) == PieceCode(Hex(digits))
  {
    hide HexValue;
    var s := PieceText(Hex(digits)) + more;
    assert FromString("\\u") == [BACKSLASH, LETTER_U];
    assert s[2] == digits[0] && s[3] == digits[1] && s[4] == digits[2] && s[5] == digits[3];
  }

  lemma ShortIsRead(letter: Code, more: Text)
    requires IsPiece(Short(letter))
    ensures ReadUnit(PieceText(Short(letter)) + more) == Some(Unit(PieceCode(Short(letter)), 2))
    ensures ShortCode(letter) == PieceCode(Short(letter)) && letter != LETTER_U
  {
    assert FromString("\"\\/bfnrt") == [34, 92, 47, 98, 102, 110, 114, 116];
    assert FromString("\\") == [BACKSLASH];
  }

  /** What follows a piece when it is not another hexadecimal escape. */
  predicate NoHexNext(s: Text)
  {
    s == [] || s[0] != BACKSLASH || |s| < 2 || s[1] != LETTER_U
  }

  lemma NextIsNoHex(pieces: seq<Piece>, rest: Text)
    requires ArePieces(pieces) && (pieces == [] || !pieces[0].Hex?)
    ensures NoHexNext(Left(pieces, rest))
  {
    if pieces != [] {
      if pieces[0].Short? {
        ShortIsRead(pieces[0].letter, []);
        assert FromString("\\") == [BACKSLASH];
      }
      assert TextOf(pieces) == PieceText(pieces[0]) + TextOf(pieces[1..]);
    }
  }

  lemma LoneHexIsRead(digits: Text, more: Text)
    requires IsPiece(Hex(digits))
    requires IsHigh(PieceCode(Hex(digits))) ==>
               NoHexNext(more) || (HexEscape(more) >= 0 && !IsLow(HexEscape(more)))
    ensures ReadUnit(PieceText(Hex(digits)) + more) == Some(Unit(PieceCode(Hex(digits)), 6))
  {
    hide HexValue, HexEscape, PieceCode;
    var s := PieceText(Hex(digits)) + more;
    HexIsRead(digits, more);
    assert FromString("\\u") == [BACKSLASH, LETTER_U];
    assert |PieceText(Hex(digits))| == 6 && s[6..] == more;
    assert |s| >= 8 ==> s[6] == more[0] && s[7] == more[1];
  }

  lemma PairIsRead(high: Text, low: Text, more: Text)
    requires IsPiece(Hex(high)) && IsPiece(Hex(low))
    requires IsHigh(PieceCode(Hex(high))) && IsLow(PieceCode(Hex(low)))
    ensures ReadUnit(PieceText(Hex(high)) + (PieceText(Hex(low)) + more))
            == Some(Unit(0x10000 + (PieceCode(Hex(high)) - 0xD800) * 0x400 + (PieceCode(Hex(low)) - 0xDC00), 12))
  {
    hide HexValue, HexEscape, PieceCode;
    var second := PieceText(Hex(low)) + more;
    var s := PieceText(Hex(high)) + second;
    HexIsRead(high, second);
    HexIsRead(low, more);
    assert FromString("\\u") == [BACKSLASH, LETTER_U];
    assert |PieceText(Hex(high))| == 6 && s[6..] == second;
    assert s[6] == second[0] && s[7] == second[1];
  }

  lemma {:induction false} SpellingIsRead(pieces: seq<Piece>, rest: Text)
    requires ArePieces(pieces)
    ensures ReadBody(Left(pieces, rest)) == Some(Read(Meaning(pieces), rest))
    decreases |pieces|
  {
    hide ReadUnit, PieceText, PieceCode, IsPiece, NoHexNext;
    var s := Left(pieces, rest);
    if pieces == [] {
      assert s == [QUOTE] + rest && s[1..] == rest;
    } else {
      var used := if StartsWithPair(pieces) then 2 else 1;
      SpellingIsRead(pieces[used..], rest);
      FirstUnit(pieces, rest);
      NotAQuote(pieces, rest);
    }
  }

  lemma NotAQuote(pieces: seq<Piece>, rest: Text)
    requires ArePieces(pieces) && pieces != []
    ensures var s := Left(pieces, rest); s != [] && s[0] != QUOTE
  {
    assert FromString("\\")[0] == BACKSLASH && FromString("\\u")[0] == BACKSLASH;
    assert IsPiece(pieces[0]) && PieceText(pieces[0])[0] != QUOTE;
  }

  /** What is left to read after some pieces. */
  function Left(pieces: seq<Piece>, rest: Text): Text { TextOf(pieces) + [QUOTE] + rest }

  lemma LeftStep(pieces: seq<Piece>, rest: Text)
    requires pieces != []
    ensures Left(pieces, rest) == PieceText(pieces[0]) + Left(pieces[1..], rest)
  {
    hide PieceText;
  }

  lemma OneUnit(s: Text, first: Text, more: Text, unit: Unit)
    requires s == first + more && unit.width == |first| && s != [] && ReadUnit(s) == Some(unit)
    ensures unit.width <= |s| && s[unit.width..] == more
  {
  }

  /** The reader takes the first piece, or the first two when they are a pair, and comes to the next. */
  lemma FirstUnit(pieces: seq<Piece>, rest: Text)
    requires ArePieces(pieces) && pieces != []
    ensures var s, used := Left(pieces, rest), if StartsWithPair(pieces) then 2 else 1;
            && s != [] && ReadUnit(s).Some? && ReadUnit(s).value.width <= |s|
            && s[ReadUnit(s).value.width..] == Left(pieces[used..], rest)
            && Meaning(pieces) == [ReadUnit(s).value.code] + Meaning(pieces[used..])
  {
    hide ReadUnit, PieceCode, IsPiece, PieceText, Left;
    var s, first, more := Left(pieces, rest), pieces[0], Left(pieces[1..], rest);
    LeftStep(pieces, rest);
    PieceLen(first);
    if StartsWithPair(pieces) {
      var low, after := pieces[1].digits, Left(pieces[2..], rest);
      assert pieces[1..][1..] == pieces[2..];
      LeftStep(pieces[1..], rest);
      PieceLen(pieces[1]);
      PairIsRead(first.digits, low, after);
      var both := PieceText(first) + PieceText(pieces[1]);
      assert s == both + after;
      OneUnit(s, both, after, ReadUnit(s).value);
    } else {
      if first.Plain? {
        PlainIsRead(first.c, more);
      } else if first.Short? {
        ShortIsRead(first.letter, more);
      } else {
        LoneHexStarts(pieces, rest);
      }
      OneUnit(s, PieceText(first), more, ReadUnit(s).value);
    }
  }

  lemma LoneHexStarts(pieces: seq<Piece>, rest: Text)
    requires ArePieces(pieces) && pieces != [] && pieces[0].Hex? && !StartsWithPair(pieces)
    ensures ReadUnit(PieceText(pieces[0]) + Left(pieces[1..], rest)) == Some(Unit(PieceCode(pieces[0]), 6))
  {
    hide ReadUnit, PieceCode, IsPiece, PieceText, Left, HexEscape;
    var more := Left(pieces[1..], rest);
    if |pieces| > 1 && pieces[1].Hex? {
      LeftStep(pieces[1..], rest);
      HexIsRead(pieces[1].digits, Left(pieces[1..][1..], rest));
    } else {
      NextIsNoHex(pieces[1..], rest);
    }
    LoneHexIsRead(pieces[0].digits, more);
  }

  lemma PieceLen(piece: Piece)
    requires IsPiece(piece)
    ensures |PieceText(piece)| == match piece case Plain(_) => 1 case Short(_) => 2 case Hex(_) => 6
  {
  }

  lemma PlainIsRead(c: Code, more: Text)
    requires IsPiece(Plain(c))
    ensures ReadUnit(PieceText(Plain(c)) + more) == Some(Unit(PieceCode(Plain(c)), 1))
  {
  }

  // ---------- Nothing else is ----------

  /** Where a lone high half may stand: not before a low half in hexadecimal digits. */
  predicate NoLowNext(s: Text)
  {
    NoHexNext(s) || (HexEscape(s) >= 0 && !IsLow(HexEscape(s)))
  }

  lemma UnitIsPiece(s: Text) returns (pieces: seq<Piece>)
    requires s != [] && s[0] != QUOTE && ReadUnit(s).Some?
    ensures ArePieces(pieces) && 1 <= |pieces| <= 2 && TextOf(pieces) == s[..ReadUnit(s).value.width]
    ensures |pieces| == 2 ==> StartsWithPair(pieces)
    ensures Meaning(pieces) == [ReadUnit(s).value.code]
    ensures |pieces| == 1 && pieces[0].Hex? && IsHigh(PieceCode(pieces[0])) ==>
              ReadUnit(s).value.width == 6 && NoLowNext(s[6..])
  {
    var unit := ReadUnit(s).value;
    if s[0] != BACKSLASH {
      pieces := [Plain(s[0])];
      OnePiece(pieces[0]);
    } else if s[1] != LETTER_U {
      pieces := [Short(s[1])];
      ShortUnit(s);
      OnePiece(pieces[0]);
    } else if unit.width == 6 {
      pieces := [Hex(s[2..6])];
      HexUnit(s);
      OnePiece(pieces[0]);
    } else {
      pieces := [Hex(s[2..6]), Hex(s[8..12])];
      HexUnit(s);
      HexUnit(s[6..]);
      assert s[6..][2..6] == s[8..12] && s[..12] == s[..6] + s[6..][..6];
      TwoPieces(pieces);
    }
  }

  lemma OnePiece(piece: Piece)
    requires IsPiece(piece)
    ensures TextOf([piece]) == PieceText(piece) && Meaning([piece]) == [PieceCode(piece)]
  {
    hide IsPiece, PieceCode, PieceText;
    assert [piece][1..] == [] && PieceText(piece) + [] == PieceText(piece);
    assert TextOf([]) == [];
  }

  lemma TwoPieces(pieces: seq<Piece>)
    requires ArePieces(pieces) && |pieces| == 2
    ensures TextOf(pieces) == PieceText(pieces[0]) + PieceText(pieces[1])
    ensures StartsWithPair(pieces) ==>
              Meaning(pieces)
              == [0x10000 + (PieceCode(pieces[0]) - 0xD800) * 0x400 + (PieceCode(pieces[1]) - 0xDC00)]
  {
    hide IsPiece, PieceCode, PieceText;
    OnePiece(pieces[1]);
    assert pieces[1..] == [pieces[1]] && pieces[2..] == [];
  }

  lemma ShortUnit(s: Text)
    requires |s| >= 2 && s[0] == BACKSLASH && ShortCode(s[1]) >= 0
    ensures IsPiece(Short(s[1])) && PieceCode(Short(s[1])) == ShortCode(s[1]) && PieceText(Short(s[1])) == s[..2]
  {
    assert FromString("\"\\/bfnrt") == [34, 92, 47, 98, 102, 110, 114, 116];
    assert FromString("\\") == [BACKSLASH];
  }

  lemma HexUnit(s: Text)
    requires HexEscape(s) >= 0
    ensures |s| >= 6 && IsPiece(Hex(s[2..6])) && PieceCode(Hex(s[2..6])) == HexEscape(s)
    ensures PieceText(Hex(s[2..6])) == s[..6]
  {
    hide HexValue;
    assert FromString("\\u") == [BACKSLASH, LETTER_U];
  }

  /** Whatever is read as a literal is one, and spells what was read. */
  lemma {:induction false} ReadIsSpelling(s: Text) returns (pieces: seq<Piece>)
    requires ReadBody(s).Some?
    ensures ArePieces(pieces) && s == Left(pieces, ReadBody(s).value.rest)
    ensures Meaning(pieces) == ReadBody(s).value.value
    decreases |s|
  {
    hide ReadUnit, PieceCode, IsPiece, PieceText;
    if s[0] == QUOTE {
      pieces := [];
      assert s == [QUOTE] + s[1..];
    } else {
      var unit, rest := ReadUnit(s).value, ReadBody(s).value.rest;
      var first := UnitIsPiece(s);
      var later := ReadIsSpelling(s[unit.width..]);
      pieces := first + later;
      PiecesJoin(first, later, rest);
      assert s == s[..unit.width] + s[unit.width..];
    }
  }

  lemma PiecesJoin(first: seq<Piece>, later: seq<Piece>, rest: Text)
    requires ArePieces(first) && ArePieces(later) && 1 <= |first| <= 2 && (|first| == 2 ==> StartsWithPair(first))
    requires |first| == 1 && first[0].Hex? && IsHigh(PieceCode(first[0])) ==> NoLowNext(Left(later, rest))
    ensures ArePieces(first + later)
    ensures Left(first + later, rest) == TextOf(first) + Left(later, rest)
    ensures Meaning(first + later) == Meaning(first) + Meaning(later)
  {
    hide PieceCode, IsPiece, PieceText, TextOf, Meaning, Left, StartsWithPair;
    if |first| == 1 {
      assert first == [first[0]];
      OnePieceJoins(first[0], later, rest);
    } else {
      TwoPiecesJoin(first, later, rest);
    }
  }

  lemma OnePieceJoins(first: Piece, later: seq<Piece>, rest: Text)
    requires IsPiece(first) && ArePieces(later)
    requires first.Hex? && IsHigh(PieceCode(first)) ==> NoLowNext(Left(later, rest))
    ensures ArePieces([first] + later)
    ensures Left([first] + later, rest) == TextOf([first]) + Left(later, rest)
    ensures Meaning([first] + later) == Meaning([first]) + Meaning(later)
  {
    hide PieceCode, IsPiece, PieceText, Left;
    var pieces := [first] + later;
    assert pieces[1..] == later;
    OnePiece(first);
    LeftStep(pieces, rest);
    if StartsWithPair(pieces) {
      LowIsNext(later, rest);
    }
  }

  lemma TwoPiecesJoin(first: seq<Piece>, later: seq<Piece>, rest: Text)
    requires |first| == 2 && ArePieces(first) && StartsWithPair(first) && ArePieces(later)
    ensures ArePieces(first + later)
    ensures Left(first + later, rest) == TextOf(first) + Left(later, rest)
    ensures Meaning(first + later) == Meaning(first) + Meaning(later)
  {
    hide PieceCode, IsPiece, PieceText, Left;
    var pieces := first + later;
    TwoPieces(first);
    assert pieces[1..][1..] == later && pieces[2..] == later;
    LeftStep(pieces, rest);
    LeftStep(pieces[1..], rest);
    RegroupPieces(PieceText(first[0]), PieceText(first[1]), Left(later, rest));
  }

  lemma RegroupPieces(a: Text, b: Text, c: Text)
    ensures a + (b + c) == a + b + c
  {
  }

  lemma LowIsNext(later: seq<Piece>, rest: Text)
    requires ArePieces(later) && later != [] && later[0].Hex? && IsLow(PieceCode(later[0]))
    ensures !NoLowNext(Left(later, rest))
  {
    hide PieceCode, IsPiece, HexEscape;
    LeftStep(later, rest);
    HexIsRead(later[0].digits, Left(later[1..], rest));
    assert FromString("\\u") == [BACKSLASH, LETTER_U];
  }

  // ---------- Whole leaves ----------

  /** The value is one string literal from end to end, and spells `t`. */
  ghost predicate Spells(value: Text, t: Text)
  {
    exists pieces :: ArePieces(pieces) && value == FromString("\"") + TextOf(pieces) + FromString("\"")
                     && Meaning(pieces) == t
  }

  /** The literals that the reader takes, with what it leaves: exactly the spellings. */
  lemma ReadExactly(s: Text, t: Text, rest: Text)
    ensures ReadString(s) == Some(Read(t, rest)) <==>
              exists pieces :: ArePieces(pieces) && Meaning(pieces) == t
                               && s == FromString("\"") + TextOf(pieces) + FromString("\"") + rest
  {
    hide ReadBody, Meaning, IsPiece, TextOf, FromString;
    if ReadString(s) == Some(Read(t, rest)) {
      var pieces := ReadIsSpelling(s[1..]);
      assert s == [QUOTE] + s[1..];
      QuotedLeft(pieces, rest);
    }
    if pieces :| ArePieces(pieces) && Meaning(pieces) == t
                 && s == FromString("\"") + TextOf(pieces) + FromString("\"") + rest {
      QuotedLeft(pieces, rest);
      SpellingIsRead(pieces, rest);
      assert s[1..] == Left(pieces, rest);
    }
  }

  lemma QuotedLeft(pieces: seq<Piece>, rest: Text)
    ensures FromString("\"") + TextOf(pieces) + FromString("\"") + rest == [QUOTE] + Left(pieces, rest)
  {
    assert FromString("\"") == [QUOTE];
  }

  lemma {:induction false} EndIsNotSkipped(s: Text)
    requires s != [] && !IsSpace(s[|s| - 1])
    ensures SkipSpace(s) != []
  {
    if IsSpace(s[0]) {
      EndIsNotSkipped(s[1..]);
    }
  }

  lemma LoadsString(value: Text, reprint: Text -> Text)
    requires |value| >= 2 && value[0] == QUOTE && value[|value| - 1] == QUOTE
    ensures var read := ReadString(value);
            if read.Some? && read.value.rest == [] then Loads(value, reprint) == Some(Str(read.value.value))
            else Loads(value, reprint).None?
  {
    hide ReadBody;
    SkipNothing(value);
    var read := ReadString(value);
    if read.Some? && read.value.rest != [] {
      var pieces := ReadIsSpelling(value[1..]);
      var rest := read.value.rest;
      assert rest[|rest| - 1] == value[1..][|value| - 2];
      EndIsNotSkipped(rest);
    }
  }

  lemma SpellingIsQuoted(value: Text, t: Text)
    requires Spells(value, t)
    ensures |value| >= 2 && value[0] == QUOTE && value[|value| - 1] == QUOTE
  {
    hide Meaning, TextOf;
    assert FromString("\"") == [QUOTE];
  }

  lemma SpelledIsRead(value: Text, t: Text)
    ensures Spells(value, t) <==> ReadString(value) == Some(Read(t, []))
  {
    hide ReadString, Meaning, IsPiece, TextOf;
    var nothing: Text := [];
    ReadExactly(value, t, nothing);
    forall pieces: seq<Piece>
      ensures FromString("\"") + TextOf(pieces) + FromString("\"") + nothing
              == FromString("\"") + TextOf(pieces) + FromString("\"")
    {
    }
  }

  /** A leaf that is a string literal from end to end is compared as what it spells, any other as it stands. */
  lemma UnquoteSays(value: Text, t: Text, reprint: Text -> Text)
    ensures Spells(value, t) ==> UnquoteLeaf(value, reprint) == t
    ensures (forall u :: !Spells(value, u)) ==> UnquoteLeaf(value, reprint) == value
  {
    hide Spells, ReadString, Loads;
    SpelledIsRead(value, t);
    if Spells(value, t) {
      SpellingIsQuoted(value, t);
    }
    if |value| >= 2 && value[0] == QUOTE && value[|value| - 1] == QUOTE {
      LoadsString(value, reprint);
      var read := ReadString(value);
      if read.Some? {
        SpelledIsRead(value, read.value.value);
      }
    }
  }
}
