/** JSON texts over UTF-16 code units: strings, numbers and white space, as the
    TypeScript canonical form prints and reads them. */
module JsonText {

  newtype Unit = u: int | 0 <= u < 0x10000
  type Text = seq<Unit>

  datatype Parsed<+T> = Parsed(value: T, rest: Text) | Bad

  const QUOTE: Unit := 0x22
  const COMMA: Unit := 0x2C
  const COLON: Unit := 0x3A
  const SLASH: Unit := 0x2F
  const BACKSLASH: Unit := 0x5C
  const MINUS: Unit := 0x2D
  const PLUS: Unit := 0x2B
  const DOT: Unit := 0x2E
  const ZERO: Unit := 0x30
  const LOWER_E: Unit := 0x65
  const UPPER_E: Unit := 0x45
  const LOWER_U: Unit := 0x75
  const LINE_SEPARATOR: Unit := 0x2028
  const PARAGRAPH_SEPARATOR: Unit := 0x2029

  predicate StartsWith(s: Text, prefix: Text) {
    |prefix| <= |s| && s[..|prefix|] == prefix
  }

  // ---- Hexadecimal -----------------------------------------------------

  function HexDigit(n: int): Unit
    requires 0 <= n < 16
  {
    if n < 10 then (0x30 + n) as Unit else (0x61 + n - 10) as Unit
  }

  function HexValue(c: Unit): (v: int)
    ensures -1 <= v < 16
  {
    if 0x30 <= c <= 0x39 then c as int - 0x30
    else if 0x61 <= c <= 0x66 then c as int - 0x61 + 10
    else if 0x41 <= c <= 0x46 then c as int - 0x41 + 10
    else -1
  }

  /** The escape `\uXXXX`, in lower case. */
  function UnicodeEscape(c: Unit): Text {
    var n := c as int;
    [BACKSLASH, LOWER_U, HexDigit(n / 16 / 16 / 16), HexDigit(n / 16 / 16 % 16), HexDigit(n / 16 % 16), HexDigit(n % 16)]
  }

  /** The unit written by four hexadecimal digits. */
  function HexUnit(s: Text): Parsed<Unit> {
    if |s| < 4 || HexValue(s[0]) < 0 || HexValue(s[1]) < 0 || HexValue(s[2]) < 0 || HexValue(s[3]) < 0 then Bad
    else Parsed((HexValue(s[0]) * 4096 + HexValue(s[1]) * 256 + HexValue(s[2]) * 16 + HexValue(s[3])) as Unit, s[4..])
  }

  lemma DigitReads(n: int)
    requires 0 <= n < 16
    ensures HexValue(HexDigit(n)) == n
  {
  }

  lemma HexRoundTrip(c: Unit, rest: Text)
    ensures HexUnit(UnicodeEscape(c)[2..] + rest) == Parsed(c, rest)
  {
    var n := c as int;
    var a, b, d := n / 16 / 16 / 16, n / 16 / 16 % 16, n / 16 % 16;
    DigitReads(a);
    DigitReads(b);
    DigitReads(d);
    DigitReads(n % 16);
    hide HexDigit, HexValue;
    var s := UnicodeEscape(c)[2..] + rest;
    assert s[4..] == rest;
    assert s[0] == HexDigit(a) && s[1] == HexDigit(b) && s[2] == HexDigit(d) && s[3] == HexDigit(n % 16);
  }

  // ---- Escaping --------------------------------------------------------

  predicate High(c: Unit) { 0xD800 <= c <= 0xDBFF }
  predicate Low(c: Unit) { 0xDC00 <= c <= 0xDFFF }

  predicate PairAt(s: Text) { |s| >= 2 && High(s[0]) && Low(s[1]) }

  /** How `JSON.stringify` writes one unit that is not half of a surrogate pair. */
  function EscapeUnit(c: Unit): (e: Text)
    ensures |e| > 0
    ensures e[0] == BACKSLASH <==> |e| > 1
    ensures |e| == 1 ==> e == [c] && c >= 0x20 && c != QUOTE && c != BACKSLASH
    ensures |e| == 1 || |e| == 2 || e == UnicodeEscape(c)
  {
    if c == QUOTE || c == BACKSLASH then [BACKSLASH, c]
    else if c == 0x08 then [BACKSLASH, 0x62]
    else if c == 0x09 then [BACKSLASH, 0x74]
    else if c == 0x0A then [BACKSLASH, 0x6E]
    else if c == 0x0C then [BACKSLASH, 0x66]
    else if c == 0x0D then [BACKSLASH, 0x72]
    else if c < 0x20 || High(c) || Low(c) then UnicodeEscape(c)
    else [c]
  }

  /** `JSON.stringify` of a string, between the quotes. */
  function Stringify(s: Text): Text {
    if s == [] then []
    else if PairAt(s) then s[..2] + Stringify(s[2..])
    else EscapeUnit(s[0]) + Stringify(s[1..])
  }

  /** The six units `\u2028` or `\u2029`, as text. */
  function Literal(separator: Unit): Text {
    [BACKSLASH, LOWER_U, 0x32, 0x30, 0x32, if separator == LINE_SEPARATOR then 0x38 else 0x39]
  }

  /** Replaces every occurrence of the literal by the separator itself. */
  function Replace(s: Text, separator: Unit): Text {
    if s == [] then []
    else if StartsWith(s, Literal(separator)) then [separator] + Replace(s[6..], separator)
    else [s[0]] + Replace(s[1..], separator)
  }

  /** A string as the canonical form writes it. */
  function EscapeString(s: Text): Text {
    Replace(Replace([QUOTE] + Stringify(s) + [QUOTE], LINE_SEPARATOR), PARAGRAPH_SEPARATOR)
  }

  /** The string holds the literal text of a separator's escape. */
  predicate HoldsLiteral(s: Text) {
    s != [] && (StartsWith(s, Literal(LINE_SEPARATOR)) || StartsWith(s, Literal(PARAGRAPH_SEPARATOR)) || HoldsLiteral(s[1..]))
  }

  // ---- Reading a string ------------------------------------------------

  function SimpleEscape(c: Unit): Parsed<Unit> {
    if c == QUOTE || c == BACKSLASH || c == SLASH then Parsed(c, [])
    else if c == 0x62 then Parsed(0x08, [])
    else if c == 0x66 then Parsed(0x0C, [])
    else if c == 0x6E then Parsed(0x0A, [])
    else if c == 0x72 then Parsed(0x0D, [])
    else if c == 0x74 then Parsed(0x09, [])
    else Bad
  }

  /** The units of a string up to its closing quote. */
  function ReadUnits(s: Text): (r: Parsed<Text>)
    ensures r.Parsed? ==> |r.rest| < |s|
  {
    if s == [] || s[0] < 0x20 then Bad
    else if s[0] == QUOTE then Parsed([], s[1..])
    else if s[0] != BACKSLASH then
      var more := ReadUnits(s[1..]);
      if more.Parsed? then Parsed([s[0]] + more.value, more.rest) else Bad
    else if |s| < 2 then Bad
    else if s[1] == LOWER_U then
      var unit := HexUnit(s[2..]);
      if unit.Bad? then Bad
      else
        var more := ReadUnits(unit.rest);
        if more.Parsed? then Parsed([unit.value] + more.value, more.rest) else Bad
    else
      var unit := SimpleEscape(s[1]);
      if unit.Bad? then Bad
      else
        var more := ReadUnits(s[2..]);
        if more.Parsed? then Parsed([unit.value] + more.value, more.rest) else Bad
  }

  // ---- What escaping writes --------------------------------------------

  /** Where a backslash of the string stands before one of the replaced literals. */
  predicate LiteralAt(s: Text, first: bool, second: bool) {
    || (first && StartsWith(s, Literal(LINE_SEPARATOR)))
    || (second && StartsWith(s, Literal(PARAGRAPH_SEPARATOR)))
  }

  /** The written string after neither, the first or both replacements: a replaced
      literal leaves a backslash that escapes a separator. */
  function Written(s: Text, first: bool, second: bool): Text {
    if s == [] then []
    else if LiteralAt(s, first, second) then
      [BACKSLASH, if first && StartsWith(s, Literal(LINE_SEPARATOR)) then LINE_SEPARATOR else PARAGRAPH_SEPARATOR]
      + Written(s[6..], first, second)
    else if PairAt(s) then s[..2] + Written(s[2..], first, second)
    else EscapeUnit(s[0]) + Written(s[1..], first, second)
  }

  lemma {:induction false} StringifyWrites(s: Text)
    ensures Stringify(s) == Written(s, false, false)
  {
    if s != [] {
      if PairAt(s) {
        StringifyWrites(s[2..]);
      } else {
        StringifyWrites(s[1..]);
      }
    }
  }

  /** Units that are written as they are and that no escape starts with. */
  predicate Plain(c: Unit) { EscapeUnit(c) == [c] }

  lemma StartsDiffer(s: Text, prefix: Text, i: nat)
    requires i < |prefix| && (i < |s| ==> s[i] != prefix[i])
    ensures !StartsWith(s, prefix)
  {
  }

  /** The written string starts with a plain text exactly when the string does. */
  lemma {:induction false} WrittenStarts(s: Text, prefix: Text, first: bool, second: bool)
    requires forall i :: 0 <= i < |prefix| ==> Plain(prefix[i])
    ensures StartsWith(Written(s, first, second) + [QUOTE], prefix) <==> StartsWith(s, prefix)
    ensures StartsWith(s, prefix) ==> |prefix| <= |s| && Written(s, first, second) == prefix + Written(s[|prefix|..], first, second)
  {
    hide Written, StartsWith, EscapeUnit, LiteralAt, PairAt, Plain;
    if prefix == [] || s == [] {
      EmptyStarts(s, prefix, first, second);
    } else {
      var w := Written(s, first, second) + [QUOTE];
      StartsWithCons(s, prefix);
      StartsWithCons(w, prefix);
      if LiteralAt(s, first, second) || PairAt(s) || |EscapeUnit(s[0])| > 1 {
        SpecialStarts(s, prefix[0], first, second);
      } else {
        PlainStarts(s, first, second);
        WrittenStarts(s[1..], prefix[1..], first, second);
        assert w[1..] == Written(s[1..], first, second) + [QUOTE];
        if StartsWith(s, prefix) {
          StartsLong(s, prefix);
          assert s[1..][|prefix| - 1..] == s[|prefix|..];
          assert [prefix[0]] + prefix[1..] == prefix;
        }
      }
    }
  }

  lemma StartsLong(s: Text, prefix: Text)
    requires StartsWith(s, prefix)
    ensures |prefix| <= |s|
  {
  }

  lemma EmptyStarts(s: Text, prefix: Text, first: bool, second: bool)
    requires forall i :: 0 <= i < |prefix| ==> Plain(prefix[i])
    requires prefix == [] || s == []
    ensures StartsWith(Written(s, first, second) + [QUOTE], prefix) <==> StartsWith(s, prefix)
    ensures StartsWith(s, prefix) ==> |prefix| <= |s| && Written(s, first, second) == prefix + Written(s[|prefix|..], first, second)
  {
    if prefix != [] {
      assert Plain(prefix[0]);
      StartsDiffer([QUOTE], prefix, 0);
    } else {
      assert s[0..] == s;
    }
  }

  /** What is not written as it is starts with no plain unit, before or after. */
  lemma SpecialStarts(s: Text, c: Unit, first: bool, second: bool)
    requires s != [] && Plain(c) && (LiteralAt(s, first, second) || PairAt(s) || |EscapeUnit(s[0])| > 1)
    ensures Written(s, first, second) != [] && Written(s, first, second)[0] != c && s[0] != c
  {
  }

  lemma PlainStarts(s: Text, first: bool, second: bool)
    requires s != [] && !LiteralAt(s, first, second) && !PairAt(s) && |EscapeUnit(s[0])| == 1
    ensures Written(s, first, second) == [s[0]] + Written(s[1..], first, second)
  {
  }

  lemma StartsWithCons(s: Text, prefix: Text)
    requires s != [] && prefix != []
    ensures StartsWith(s, prefix) <==> s[0] == prefix[0] && StartsWith(s[1..], prefix[1..])
  {
    if |prefix| <= |s| {
      assert s[..|prefix|] == [s[0]] + s[1..][..|prefix| - 1];
      assert prefix == [prefix[0]] + prefix[1..];
    }
  }

  lemma ReplacePassesOne(c: Unit, rest: Text, separator: Unit)
    requires c != BACKSLASH
    ensures Replace([c] + rest, separator) == [c] + Replace(rest, separator)
  {
    StartsDiffer([c] + rest, Literal(separator), 0);
    assert ([c] + rest)[1..] == rest;
  }

  /** Replacing passes over units that are not backslashes. */
  lemma {:induction false} ReplacePasses(prefix: Text, rest: Text, separator: Unit)
    requires BACKSLASH !in prefix
    ensures Replace(prefix + rest, separator) == prefix + Replace(rest, separator)
  {
    hide Replace;
    if prefix == [] {
      assert prefix + rest == rest;
    } else {
      ReplacePasses(prefix[1..], rest, separator);
      ReplacePassesOne(prefix[0], prefix[1..] + rest, separator);
      assert prefix + rest == [prefix[0]] + (prefix[1..] + rest);
    }
  }

  /** A backslash that starts no literal stays. */
  lemma ReplaceKeepsBackslash(rest: Text, separator: Unit)
    requires !StartsWith(rest, Literal(separator)[1..])
    ensures Replace([BACKSLASH] + rest, separator) == [BACKSLASH] + Replace(rest, separator)
  {
    var s := [BACKSLASH] + rest;
    assert s[1..] == rest;
    StartsWithCons(s, Literal(separator));
  }

  lemma ReplaceTakesLiteral(rest: Text, separator: Unit)
    ensures Replace(Literal(separator) + rest, separator) == [separator] + Replace(rest, separator)
  {
    var s := Literal(separator) + rest;
    assert s[..6] == Literal(separator) && s[6..] == rest;
  }

  /** No escape but a doubled backslash can be mistaken for a literal. */
  lemma EscapePasses(c: Unit, rest: Text, separator: Unit)
    requires c != BACKSLASH && (separator == LINE_SEPARATOR || separator == PARAGRAPH_SEPARATOR)
    ensures Replace(EscapeUnit(c) + rest, separator) == EscapeUnit(c) + Replace(rest, separator)
  {
    var e := EscapeUnit(c);
    if |e| == 1 {
      ReplacePasses(e, rest, separator);
    } else {
      EscapeIsNoLiteral(c, rest, separator);
      assert e == [BACKSLASH] + e[1..];
      assert e + rest == [BACKSLASH] + (e[1..] + rest);
      ReplaceKeepsBackslash(e[1..] + rest, separator);
      ReplacePasses(e[1..], rest, separator);
    }
  }

  lemma EscapeIsNoLiteral(c: Unit, rest: Text, separator: Unit)
    requires c != BACKSLASH && |EscapeUnit(c)| > 1
    ensures !StartsWith(EscapeUnit(c)[1..] + rest, Literal(separator)[1..])
    ensures BACKSLASH !in EscapeUnit(c)[1..]
  {
    var e := EscapeUnit(c);
    var s, lit := e[1..] + rest, Literal(separator)[1..];
    if |e| == 2 {
      StartsDiffer(s, lit, 0);
    } else {
      var n := c as int;
      assert n < 0x20 || 0xD800 <= n <= 0xDFFF;
      assert n / 16 / 16 / 16 == 0 || n / 16 / 16 / 16 == 13;
      assert s[1] == HexDigit(n / 16 / 16 / 16);
      StartsDiffer(s, lit, 1);
    }
  }

  lemma LiteralIsPlain(separator: Unit)
    ensures |Literal(separator)| == 6 && Literal(separator)[0] == BACKSLASH && Literal(separator)[1] == LOWER_U
    ensures forall i :: 0 <= i < 5 ==> Plain(Literal(separator)[1..][i])
  {
  }

  /** One replacement over the written string replaces exactly the literals of the string,
      each behind the backslash that escaped its own. */
  lemma {:induction false} ReplaceWrites(s: Text, separator: Unit)
    requires separator == LINE_SEPARATOR || separator == PARAGRAPH_SEPARATOR
    ensures var second := separator == PARAGRAPH_SEPARATOR;
      Replace(Written(s, second, false) + [QUOTE], separator) == Written(s, true, second) + [QUOTE]
  {
    var second := separator == PARAGRAPH_SEPARATOR;
    var lit := Literal(separator);
    if s == [] {
      assert Written(s, second, false) + [QUOTE] == [QUOTE] + [];
      ReplacePasses([QUOTE], [], separator);
    } else if LiteralAt(s, second, false) {
      ReplaceWrites(s[6..], separator);
      AfterFirst(s, separator);
    } else if StartsWith(s, lit) {
      ReplaceWrites(s[6..], separator);
      AtLiteral(s, separator);
    } else if PairAt(s) {
      ReplaceWrites(s[2..], separator);
      ReplacePasses(s[..2], Written(s[2..], second, false) + [QUOTE], separator);
      assert Written(s, second, false) + [QUOTE] == s[..2] + (Written(s[2..], second, false) + [QUOTE]);
    } else {
      ReplaceWrites(s[1..], separator);
      assert Written(s, second, false) + [QUOTE] == EscapeUnit(s[0]) + (Written(s[1..], second, false) + [QUOTE]);
      if s[0] == BACKSLASH {
        DoubledBackslash(s, separator);
      } else {
        EscapePasses(s[0], Written(s[1..], second, false) + [QUOTE], separator);
      }
    }
  }

  /** A literal replaced before is passed over. */
  lemma AfterFirst(s: Text, separator: Unit)
    requires separator == PARAGRAPH_SEPARATOR && StartsWith(s, Literal(LINE_SEPARATOR))
    requires Replace(Written(s[6..], true, false) + [QUOTE], separator) == Written(s[6..], true, true) + [QUOTE]
    ensures Replace(Written(s, true, false) + [QUOTE], separator) == Written(s, true, true) + [QUOTE]
  {
    var rest := Written(s[6..], true, false) + [QUOTE];
    assert Written(s, true, false) + [QUOTE] == [BACKSLASH] + ([LINE_SEPARATOR] + rest);
    assert Written(s, true, true) == [BACKSLASH, LINE_SEPARATOR] + Written(s[6..], true, true);
    hide Written, Replace;
    var after, lit := [LINE_SEPARATOR] + rest, Literal(separator)[1..];
    StartsDiffer(after, lit, 0);
    ReplaceKeepsBackslash(after, separator);
    ReplacePasses([LINE_SEPARATOR], rest, separator);
  }

  /** A literal of the string: its second backslash and the text become the separator. */
  lemma AtLiteral(s: Text, separator: Unit)
    requires separator == LINE_SEPARATOR || separator == PARAGRAPH_SEPARATOR
    requires var second := separator == PARAGRAPH_SEPARATOR;
      && StartsWith(s, Literal(separator)) && !LiteralAt(s, second, false)
      && Replace(Written(s[6..], second, false) + [QUOTE], separator) == Written(s[6..], true, second) + [QUOTE]
    ensures var second := separator == PARAGRAPH_SEPARATOR;
      Replace(Written(s, second, false) + [QUOTE], separator) == Written(s, true, second) + [QUOTE]
  {
    var second := separator == PARAGRAPH_SEPARATOR;
    var lit := Literal(separator);
    hide Written, StartsWith, Replace, LiteralAt;
    LiteralWritten(s, separator);
    var rest := Written(s[6..], second, false) + [QUOTE];
    assert Written(s, second, false) + [QUOTE] == [BACKSLASH] + (lit + rest);
    StartsDiffer(lit + rest, lit[1..], 0);
    ReplaceKeepsBackslash(lit + rest, separator);
    ReplaceTakesLiteral(rest, separator);
  }

  /** Before its replacement a literal is written with its backslash doubled. */
  lemma LiteralWritten(s: Text, separator: Unit)
    requires separator == LINE_SEPARATOR || separator == PARAGRAPH_SEPARATOR
    requires StartsWith(s, Literal(separator)) && !LiteralAt(s, separator == PARAGRAPH_SEPARATOR, false)
    ensures |s| >= 6
    ensures var second := separator == PARAGRAPH_SEPARATOR;
      && Written(s, second, false) == [BACKSLASH] + Literal(separator) + Written(s[6..], second, false)
      && Written(s, true, second) == [BACKSLASH, separator] + Written(s[6..], true, second)
  {
    hide Written, StartsWith, LiteralAt, Plain, Literal;
    var second := separator == PARAGRAPH_SEPARATOR;
    var lit := Literal(separator);
    LiteralIsPlain(separator);
    StartsLong(s, lit);
    StartsWithCons(s, lit);
    TakenWritten(s, separator);
    BackslashWritten(s, second);
    WrittenStarts(s[1..], lit[1..], second, false);
    assert s[1..][5..] == s[6..];
    DoubledIs(lit, Written(s[6..], second, false));
  }

  lemma DoubledIs(lit: Text, rest: Text)
    requires |lit| == 6 && lit[0] == BACKSLASH
    ensures [BACKSLASH, BACKSLASH] + (lit[1..] + rest) == [BACKSLASH] + lit + rest
  {
    assert [lit[0]] + lit[1..] == lit;
  }

  lemma BackslashWritten(s: Text, second: bool)
    requires s != [] && s[0] == BACKSLASH && !LiteralAt(s, second, false)
    ensures Written(s, second, false) == [BACKSLASH, BACKSLASH] + Written(s[1..], second, false)
  {
  }

  lemma TakenWritten(s: Text, separator: Unit)
    requires separator == LINE_SEPARATOR || separator == PARAGRAPH_SEPARATOR
    requires StartsWith(s, Literal(separator)) && !LiteralAt(s, separator == PARAGRAPH_SEPARATOR, false)
    ensures var second := separator == PARAGRAPH_SEPARATOR;
      |s| >= 6 && Written(s, true, second) == [BACKSLASH, separator] + Written(s[6..], true, second)
  {
  }

  /** A backslash that starts no literal stays doubled. */
  lemma DoubledBackslash(s: Text, separator: Unit)
    requires separator == LINE_SEPARATOR || separator == PARAGRAPH_SEPARATOR
    requires s != [] && s[0] == BACKSLASH && !StartsWith(s, Literal(separator))
    ensures var rest := Written(s[1..], separator == PARAGRAPH_SEPARATOR, false) + [QUOTE];
      Replace(EscapeUnit(s[0]) + rest, separator) == EscapeUnit(s[0]) + Replace(rest, separator)
  {
    hide Written, StartsWith, Plain, Literal, Replace;
    var second := separator == PARAGRAPH_SEPARATOR;
    var lit := Literal(separator);
    var rest := Written(s[1..], second, false) + [QUOTE];
    LiteralIsPlain(separator);
    StartsWithCons(s, lit);
    WrittenStarts(s[1..], lit[1..], second, false);
    assert EscapeUnit(s[0]) + rest == [BACKSLASH] + ([BACKSLASH] + rest);
    var after := [BACKSLASH] + rest;
    StartsDiffer(after, lit[1..], 0);
    ReplaceKeepsBackslash(after, separator);
    ReplaceKeepsBackslash(rest, separator);
  }

  lemma EscapeStringWrites(s: Text)
    ensures EscapeString(s) == [QUOTE] + Written(s, true, true) + [QUOTE]
  {
    StringifyWrites(s);
    ReplaceWrites(s, LINE_SEPARATOR);
    ReplaceWrites(s, PARAGRAPH_SEPARATOR);
    var w, m := Written(s, false, false) + [QUOTE], Written(s, true, false) + [QUOTE];
    assert [QUOTE] + Stringify(s) + [QUOTE] == [QUOTE] + w;
    ReplacePasses([QUOTE], w, LINE_SEPARATOR);
    ReplacePasses([QUOTE], m, PARAGRAPH_SEPARATOR);
    assert [QUOTE] + Written(s, true, true) + [QUOTE] == [QUOTE] + (Written(s, true, true) + [QUOTE]);
  }

  // ---- Reading back ----------------------------------------------------

  function Cons(c: Unit, more: Parsed<Text>): Parsed<Text> {
    if more.Parsed? then Parsed([c] + more.value, more.rest) else Bad
  }

  lemma PlainReads(c: Unit, rest: Text)
    requires c >= 0x20 && c != QUOTE && c != BACKSLASH
    ensures ReadUnits([c] + rest) == Cons(c, ReadUnits(rest))
  {
    assert ([c] + rest)[1..] == rest;
  }

  lemma ShortEscapeReads(c: Unit, rest: Text)
    requires |EscapeUnit(c)| == 2
    ensures ReadUnits(EscapeUnit(c) + rest) == Cons(c, ReadUnits(rest))
  {
    var s := EscapeUnit(c) + rest;
    assert s[1] != LOWER_U && SimpleEscape(s[1]) == Parsed(c, []);
    assert s[2..] == rest;
    hide SimpleEscape, EscapeUnit;
  }

  lemma UnicodeEscapeReads(c: Unit, rest: Text)
    ensures ReadUnits(UnicodeEscape(c) + rest) == Cons(c, ReadUnits(rest))
  {
    HexRoundTrip(c, rest);
    var s := UnicodeEscape(c) + rest;
    assert s[0] == BACKSLASH && s[1] == LOWER_U && s[2..] == UnicodeEscape(c)[2..] + rest;
    hide UnicodeEscape, HexUnit, SimpleEscape;
  }

  /** Every escape reads back as its unit. */
  lemma UnitReads(c: Unit, rest: Text)
    ensures ReadUnits(EscapeUnit(c) + rest) == Cons(c, ReadUnits(rest))
  {
    hide ReadUnits, UnicodeEscape;
    if |EscapeUnit(c)| == 1 {
      PlainReads(c, rest);
    } else if |EscapeUnit(c)| == 2 {
      ShortEscapeReads(c, rest);
    } else {
      UnicodeEscapeReads(c, rest);
    }
  }

  lemma LiteralBreaks(separator: Unit, rest: Text)
    requires separator == LINE_SEPARATOR || separator == PARAGRAPH_SEPARATOR
    ensures ReadUnits([BACKSLASH, separator] + rest) == Bad
  {
  }

  lemma PairHoldsNothing(s: Text)
    requires PairAt(s)
    ensures HoldsLiteral(s) <==> HoldsLiteral(s[2..])
  {
    StartsDiffer(s, Literal(LINE_SEPARATOR), 0);
    StartsDiffer(s, Literal(PARAGRAPH_SEPARATOR), 0);
    StartsDiffer(s[1..], Literal(LINE_SEPARATOR), 0);
    StartsDiffer(s[1..], Literal(PARAGRAPH_SEPARATOR), 0);
    assert s[1..][1..] == s[2..];
  }

  lemma PairReads(s: Text, rest: Text)
    requires PairAt(s)
    ensures ReadUnits(s[..2] + rest) == Cons(s[0], Cons(s[1], ReadUnits(rest)))
  {
    var t := s[..2] + rest;
    assert t[1..] == [s[1]] + rest && t[1..][1..] == rest;
  }

  lemma WrittenAtLiteral(s: Text)
    requires LiteralAt(s, true, true)
    ensures HoldsLiteral(s)
    ensures exists separator, rest :: (separator == LINE_SEPARATOR || separator == PARAGRAPH_SEPARATOR)
              && Written(s, true, true) == [BACKSLASH, separator] + rest
  {
    var separator := if StartsWith(s, Literal(LINE_SEPARATOR)) then LINE_SEPARATOR else PARAGRAPH_SEPARATOR;
    assert Written(s, true, true) == [BACKSLASH, separator] + Written(s[6..], true, true);
  }

  /** A written string reads back as itself, unless it holds the text of a separator's
      escape: then it does not read at all. */
  lemma {:induction false} WrittenReads(s: Text, rest: Text)
    ensures ReadUnits(Written(s, true, true) + [QUOTE] + rest) == if HoldsLiteral(s) then Bad else Parsed(s, rest)
  {
    hide Written, ReadUnits, StartsWith, LiteralAt, PairAt, EscapeUnit, HoldsLiteral;
    var w := Written(s, true, true) + [QUOTE] + rest;
    if s == [] {
      EmptyReads(rest);
    } else if LiteralAt(s, true, true) {
      WrittenAtLiteral(s);
      var separator, more :| (separator == LINE_SEPARATOR || separator == PARAGRAPH_SEPARATOR)
        && Written(s, true, true) == [BACKSLASH, separator] + more;
      assert w == [BACKSLASH, separator] + (more + [QUOTE] + rest);
      LiteralBreaks(separator, more + [QUOTE] + rest);
    } else if PairAt(s) {
      WrittenPair(s);
      WrittenReads(s[2..], rest);
      PairHoldsNothing(s);
      assert w == s[..2] + (Written(s[2..], true, true) + [QUOTE] + rest);
      PairReads(s, Written(s[2..], true, true) + [QUOTE] + rest);
      assert s == [s[0]] + ([s[1]] + s[2..]);
    } else {
      WrittenUnit(s);
      WrittenReads(s[1..], rest);
      assert w == EscapeUnit(s[0]) + (Written(s[1..], true, true) + [QUOTE] + rest);
      UnitReads(s[0], Written(s[1..], true, true) + [QUOTE] + rest);
      assert s == [s[0]] + s[1..];
    }
  }

  lemma EmptyReads(rest: Text)
    ensures ReadUnits(Written([], true, true) + [QUOTE] + rest) == Parsed([], rest) && !HoldsLiteral([])
  {
    assert Written([], true, true) + [QUOTE] + rest == [QUOTE] + rest;
    assert ([QUOTE] + rest)[1..] == rest;
  }

  lemma WrittenPair(s: Text)
    requires PairAt(s)
    ensures |s| >= 2 && Written(s, true, true) == s[..2] + Written(s[2..], true, true)
  {
    StartsDiffer(s, Literal(LINE_SEPARATOR), 0);
    StartsDiffer(s, Literal(PARAGRAPH_SEPARATOR), 0);
  }

  lemma WrittenUnit(s: Text)
    requires s != [] && !LiteralAt(s, true, true) && !PairAt(s)
    ensures Written(s, true, true) == EscapeUnit(s[0]) + Written(s[1..], true, true)
    ensures HoldsLiteral(s) <==> HoldsLiteral(s[1..])
  {
  }

  /** A quoted string, its quotes included. */
  function ReadString(s: Text): (r: Parsed<Text>)
    ensures r.Parsed? ==> |r.rest| < |s|
  {
    if s == [] || s[0] != QUOTE then Bad else ReadUnits(s[1..])
  }

  lemma StringRoundTrip(s: Text, rest: Text)
    ensures ReadString(EscapeString(s) + rest) == if HoldsLiteral(s) then Bad else Parsed(s, rest)
  {
    EscapeStringWrites(s);
    WrittenReads(s, rest);
    var w := EscapeString(s) + rest;
    assert w[0] == QUOTE && w[1..] == Written(s, true, true) + [QUOTE] + rest;
  }
}
