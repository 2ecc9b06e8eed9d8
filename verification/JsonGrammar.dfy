/** The grammar of JSON as concrete syntax: which texts there are, and what each one means.
    The parser reads exactly these texts, as what they mean. */
module JsonGrammar {
  import opened JsonText
  import opened JsonTree

  // ---- Strings ---------------------------------------------------------

  /** One unit as it may be written inside a string: as it is, by a letter, or by four digits,
      each of them a value and whether it is an upper-case letter. */
  datatype Piece = Raw(unit: Unit) | Short(letter: Unit) | Hex(digits: seq<(int, bool)>)

  function DigitText(value: int, upper: bool): Unit
    requires 0 <= value < 16
  {
    if value < 10 then (0x30 + value) as Unit else if upper then (0x41 + value - 10) as Unit else (0x61 + value - 10) as Unit
  }

  predicate PieceFits(x: Piece) {
    match x
    case Raw(c) => c >= 0x20 && c != 0x22 && c != 0x5C
    case Short(letter) => letter in {0x22 as Unit, 0x5C, 0x2F, 0x62, 0x66, 0x6E, 0x72, 0x74}
    case Hex(digits) => |digits| == 4 && forall i :: 0 <= i < 4 ==> 0 <= digits[i].0 < 16
  }

  function PieceText(x: Piece): (text: Text)
    requires PieceFits(x)
    ensures text != []
  {
    match x
    case Raw(c) => [c]
    case Short(letter) => [0x5C, letter]
    case Hex(digits) => [0x5C, 0x75] + seq(4, i requires 0 <= i < 4 => DigitText(digits[i].0, digits[i].1))
  }

  function PieceUnit(x: Piece): Unit
    requires PieceFits(x)
  {
    match x
    case Raw(c) => c
    case Short(letter) =>
      if letter == 0x62 then 0x08 else if letter == 0x66 then 0x0C else if letter == 0x6E then 0x0A
      else if letter == 0x72 then 0x0D else if letter == 0x74 then 0x09 else letter
    case Hex(digits) => (((digits[0].0 * 16 + digits[1].0) * 16 + digits[2].0) * 16 + digits[3].0) as Unit
  }

  predicate AllFit(pieces: seq<Piece>) { forall x :: x in pieces ==> PieceFits(x) }

  function PiecesText(pieces: seq<Piece>): Text
    requires AllFit(pieces)
  {
    if pieces == [] then [] else PieceText(pieces[0]) + PiecesText(pieces[1..])
  }

  function Units(pieces: seq<Piece>): (units: Text)
    requires AllFit(pieces)
    ensures |units| == |pieces|
  {
    if pieces == [] then [] else [PieceUnit(pieces[0])] + Units(pieces[1..])
  }

  function Quoted(pieces: seq<Piece>): Text
    requires AllFit(pieces)
  {
    [0x22] + PiecesText(pieces) + [0x22]
  }

  lemma DigitIsRead(value: int, upper: bool)
    requires 0 <= value < 16
    ensures HexValue(DigitText(value, upper)) == value
  {
  }

  lemma DigitIsSpelled(c: Unit)
    requires HexValue(c) >= 0
    ensures DigitText(HexValue(c), c < 0x61) == c
  {
  }

  lemma HexIsRead(x: Piece, rest: Text)
    requires PieceFits(x) && x.Hex?
    ensures HexUnit(PieceText(x)[2..] + rest) == Parsed(PieceUnit(x), rest)
  {
    var d := x.digits;
    var s := PieceText(x)[2..] + rest;
    assert s[4..] == rest;
    forall i | 0 <= i < 4 ensures HexValue(s[i]) == d[i].0 {
      DigitIsRead(d[i].0, d[i].1);
      assert s[i] == DigitText(d[i].0, d[i].1);
    }
    hide HexValue, DigitText;
  }

  lemma HexIsSpelled(s: Text) returns (x: Piece)
    requires HexUnit(s).Parsed?
    ensures x.Hex? && PieceFits(x) && s == PieceText(x)[2..] + HexUnit(s).rest && PieceUnit(x) == HexUnit(s).value
  {
    forall i | 0 <= i < 4 ensures DigitText(HexValue(s[i]), s[i] < 0x61) == s[i] {
      DigitIsSpelled(s[i]);
    }
    x := Hex(seq(4, i requires 0 <= i < 4 => (HexValue(s[i]), s[i] < 0x61)));
    hide HexValue, DigitText;
    assert PieceText(x)[2..] == s[..4];
  }

  lemma PieceIsRead(x: Piece, rest: Text)
    requires PieceFits(x)
    ensures ReadUnits(PieceText(x) + rest) == Cons(PieceUnit(x), ReadUnits(rest))
  {
    var s := PieceText(x) + rest;
    match x {
      case Raw(c) =>
        assert s[1..] == rest;
      case Short(letter) =>
        assert s[2..] == rest;
      case Hex(_) =>
        HexIsRead(x, rest);
        assert s[0] == 0x5C && s[1] == 0x75 && s[2..] == PieceText(x)[2..] + rest;
        hide HexUnit, PieceText, PieceUnit, PieceFits;
    }
  }

  lemma {:induction false} PiecesAreRead(pieces: seq<Piece>, rest: Text)
    requires AllFit(pieces)
    ensures ReadUnits(PiecesText(pieces) + [QUOTE] + rest) == Parsed(Units(pieces), rest)
  {
    if pieces == [] {
      assert PiecesText(pieces) + [QUOTE] + rest == [QUOTE] + rest;
    } else {
      PiecesAreRead(pieces[1..], rest);
      PieceIsRead(pieces[0], PiecesText(pieces[1..]) + [QUOTE] + rest);
      hide ReadUnits, PieceText, PieceUnit, PieceFits;
      assert PiecesText(pieces) + [QUOTE] + rest == PieceText(pieces[0]) + (PiecesText(pieces[1..]) + [QUOTE] + rest);
    }
  }

  lemma FirstIsSpelled(s: Text) returns (x: Piece, after: Text)
    requires ReadUnits(s).Parsed? && s[0] != QUOTE
    ensures PieceFits(x) && s == PieceText(x) + after
  {
    if s[0] != BACKSLASH {
      x, after := Raw(s[0]), s[1..];
    } else if s[1] == LOWER_U {
      x := HexIsSpelled(s[2..]);
      after := HexUnit(s[2..]).rest;
      hide ReadUnits, HexUnit, PieceFits, PieceUnit;
      assert s == [BACKSLASH, LOWER_U] + s[2..];
      assert PieceText(x) == [BACKSLASH, LOWER_U] + PieceText(x)[2..];
    } else {
      x, after := Short(s[1]), s[2..];
    }
  }

  lemma PiecesPrepend(x: Piece, more: seq<Piece>)
    requires PieceFits(x) && AllFit(more)
    ensures AllFit([x] + more) && PiecesText([x] + more) == PieceText(x) + PiecesText(more)
    ensures Units([x] + more) == [PieceUnit(x)] + Units(more)
  {
    assert ([x] + more)[1..] == more;
  }

  ghost predicate Spells(pieces: seq<Piece>, s: Text) {
    AllFit(pieces) && ReadUnits(s).Parsed? && s == PiecesText(pieces) + [QUOTE] + ReadUnits(s).rest && Units(pieces) == ReadUnits(s).value
  }

  lemma SpellsMore(x: Piece, more: seq<Piece>, after: Text)
    requires PieceFits(x) && Spells(more, after)
    ensures Spells([x] + more, PieceText(x) + after)
  {
    hide ReadUnits, PieceText, PieceUnit, PieceFits, PiecesText, Units;
    PieceIsRead(x, after);
    PiecesPrepend(x, more);
    assert PieceText(x) + after == PieceText(x) + PiecesText(more) + [QUOTE] + ReadUnits(after).rest;
  }

  lemma {:induction false} UnitsAreSpelled(s: Text) returns (pieces: seq<Piece>)
    requires ReadUnits(s).Parsed?
    ensures Spells(pieces, s)
    decreases |s|
  {
    if s[0] == QUOTE {
      pieces := [];
      assert s == [QUOTE] + s[1..];
    } else {
      hide ReadUnits, PieceText, PieceUnit, PieceFits, Spells;
      var x, after := FirstIsSpelled(s);
      PieceIsRead(x, after);
      var more := UnitsAreSpelled(after);
      SpellsMore(x, more, after);
      pieces := [x] + more;
    }
  }

  // ---- Numbers ---------------------------------------------------------

  /** A number: its digits, the digits of a fraction if there is one, and an exponent if there is
      one, with its letter, its sign as written and its digits. */
  datatype Numeral = Numeral(negative: bool, digits: Text, fraction: Text, exponent: Exponent)
  datatype Exponent = NoExponent | Exponent(letter: Unit, sign: Text, digits: Text)

  predicate AllDigits(s: Text) { forall i :: 0 <= i < |s| ==> 0x30 <= s[i] <= 0x39 }

  predicate NumeralFits(n: Numeral) {
    && n.digits != [] && AllDigits(n.digits) && (n.digits[0] == 0x30 ==> |n.digits| == 1)
    && AllDigits(n.fraction) && ExponentFits(n.exponent)
  }

  predicate ExponentFits(e: Exponent) {
    e.Exponent? ==>
      && e.letter in {0x65 as Unit, 0x45} && e.sign in {[], [0x2B as Unit], [0x2D as Unit]}
      && e.digits != [] && AllDigits(e.digits)
  }

  function WholeText(n: Numeral): Text { (if n.negative then [0x2D as Unit] else []) + n.digits }

  function FractionText(n: Numeral): Text { if n.fraction == [] then [] else [0x2E] + n.fraction }

  function ExponentText(e: Exponent): Text {
    if e.NoExponent? then [] else [e.letter] + e.sign + e.digits
  }

  function NumeralText(n: Numeral): Text { WholeText(n) + FractionText(n) + ExponentText(n.exponent) }

  /** What follows does not go on with a number. */
  predicate Stops(rest: Text) {
    rest == [] || !(0x30 <= rest[0] <= 0x39 || rest[0] in {0x2E as Unit, 0x65, 0x45})
  }

  lemma {:induction false} RunIsRead(digits: Text, rest: Text)
    requires AllDigits(digits) && (rest == [] || !Digit(rest[0]))
    ensures DigitRun(digits + rest) == |digits|
  {
    if digits == [] {
      assert digits + rest == rest;
    } else {
      assert (digits + rest)[1..] == digits[1..] + rest;
      RunIsRead(digits[1..], rest);
    }
  }

  lemma WholeIsRead(n: Numeral, rest: Text)
    requires NumeralFits(n) && (rest == [] || !Digit(rest[0]))
    ensures IntegerLength(WholeText(n) + rest) == |WholeText(n)|
  {
    var s := WholeText(n) + rest;
    var sign := if n.negative then 1 else 0;
    assert s[sign..] == n.digits + rest;
    assert s[sign] == n.digits[0];
    RunIsRead(n.digits, rest);
  }

  lemma FractionIsRead(n: Numeral, rest: Text)
    requires NumeralFits(n) && (rest == [] || !(Digit(rest[0]) || rest[0] == DOT))
    ensures FractionLength(FractionText(n) + rest) == |FractionText(n)|
  {
    var s := FractionText(n) + rest;
    if n.fraction == [] {
      assert s == rest;
    } else {
      assert s[1..] == n.fraction + rest;
      RunIsRead(n.fraction, rest);
    }
  }

  lemma StopsRun(rest: Text)
    requires Stops(rest)
    ensures rest == [] || !Digit(rest[0])
  {
  }

  lemma ExponentIsRead(e: Exponent, rest: Text)
    requires ExponentFits(e) && Stops(rest)
    ensures ExponentLength(ExponentText(e) + rest) == |ExponentText(e)|
  {
    var s := ExponentText(e) + rest;
    if e.NoExponent? {
      assert s == rest;
    } else {
      hide DigitRun, Stops;
      var sign := 1 + |e.sign|;
      assert s[sign..] == e.digits + rest;
      assert s[1] == if e.sign == [] then e.digits[0] else e.sign[0];
      assert rest == [] || !Digit(rest[0]) by { StopsRun(rest); }
      RunIsRead(e.digits, rest);
      assert s[0] == e.letter;
    }
  }

  lemma PartsAreRead(a: Text, b: Text, c: Text, rest: Text)
    requires a != [] && IntegerLength(a + (b + (c + rest))) == |a|
    requires FractionLength(b + (c + rest)) == |b| && ExponentLength(c + rest) == |c|
    ensures ReadNumber(a + b + c + rest) == Parsed(a + b + c, rest)
  {
    hide IntegerLength, FractionLength, ExponentLength;
    var s := a + b + c + rest;
    assert s == a + (b + (c + rest));
    assert s[|a|..] == b + (c + rest) && s[|a| + |b|..] == c + rest;
    assert s[..|a + b + c|] == a + b + c && s[|a + b + c|..] == rest;
  }

  lemma PartsContinue(n: Numeral, rest: Text)
    requires NumeralFits(n) && Stops(rest)
    ensures WholeText(n) != []
    ensures var e := ExponentText(n.exponent) + rest; e == [] || !(Digit(e[0]) || e[0] == DOT)
    ensures var f := FractionText(n) + (ExponentText(n.exponent) + rest); f == [] || !Digit(f[0])
  {
  }

  lemma NumeralIsRead(n: Numeral, rest: Text)
    requires NumeralFits(n) && Stops(rest)
    ensures NumeralText(n) != [] && ReadNumber(NumeralText(n) + rest) == Parsed(NumeralText(n), rest)
  {
    hide WholeText, FractionText, ExponentText, ReadNumber, IntegerLength, FractionLength, ExponentLength, Stops, ExponentFits;
    PartsContinue(n, rest);
    WholeIsRead(n, FractionText(n) + (ExponentText(n.exponent) + rest));
    FractionIsRead(n, ExponentText(n.exponent) + rest);
    ExponentIsRead(n.exponent, rest);
    PartsAreRead(WholeText(n), FractionText(n), ExponentText(n.exponent), rest);
  }

  lemma RunIsDigits(s: Text)
    ensures AllDigits(s[..DigitRun(s)])
  {
  }

  lemma WholeIsSpelled(s: Text) returns (negative: bool, digits: Text)
    requires IntegerLength(s) > 0
    ensures digits != [] && AllDigits(digits) && (digits[0] == 0x30 ==> |digits| == 1)
    ensures s[..IntegerLength(s)] == (if negative then [0x2D as Unit] else []) + digits
  {
    negative := s[0] == MINUS;
    var sign := if negative then 1 else 0;
    digits := s[sign..IntegerLength(s)];
    RunIsDigits(s[sign..]);
    assert s[sign] != ZERO ==> digits == s[sign..][..DigitRun(s[sign..])];
  }

  lemma ExponentIsSpelled(s: Text) returns (e: Exponent)
    ensures ExponentFits(e) && s[..ExponentLength(s)] == ExponentText(e)
  {
    if ExponentLength(s) == 0 {
      e := NoExponent;
    } else {
      var sign := if |s| > 1 && (s[1] == PLUS || s[1] == MINUS) then 2 else 1;
      RunIsDigits(s[sign..]);
      e := Exponent(s[0], s[1..sign], s[sign..ExponentLength(s)]);
      assert e.sign == if sign == 2 then [s[1]] else [];
      assert e.digits == s[sign..][..DigitRun(s[sign..])];
    }
  }

  lemma FractionIsSpelled(s: Text) returns (fraction: Text)
    ensures AllDigits(fraction) && s[..FractionLength(s)] == if fraction == [] then [] else [0x2E as Unit] + fraction
  {
    if FractionLength(s) == 0 {
      fraction := [];
    } else {
      RunIsDigits(s[1..]);
      fraction := s[1..][..DigitRun(s[1..])];
    }
  }

  lemma NumberIsSpelled(s: Text) returns (n: Numeral)
    requires ReadNumber(s).Parsed?
    ensures NumeralFits(n) && ReadNumber(s).value == NumeralText(n)
  {
    hide DigitRun, IntegerLength, FractionLength, ExponentLength, ExponentFits, ExponentText, AllDigits;
    var i := IntegerLength(s);
    var j := i + FractionLength(s[i..]);
    var negative, digits := WholeIsSpelled(s);
    var fraction := FractionIsSpelled(s[i..]);
    var exponent := ExponentIsSpelled(s[j..]);
    n := Numeral(negative, digits, fraction, exponent);
    assert s[..NumberLength(s)] == s[..i] + s[i..][..j - i] + s[j..][..ExponentLength(s[j..])];
  }
}
