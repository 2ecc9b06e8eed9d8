/** What the printer writes, as concrete syntax: no white space, fields in key order, and no
    unit escaped that need not be. */
module JsonPrinted {
  import opened JsonText
  import opened JsonTree
  import opened JsonRoundTrip
  import opened JsonOrder
  import opened JsonGrammar
  import opened JsonSyntax

  // ---- Strings ---------------------------------------------------------

  /** The unit at `i` is one half of a surrogate pair. */
  predicate Paired(s: Text, i: nat)
    requires i < |s|
  {
    || (0xD800 <= s[i] <= 0xDBFF && i + 1 < |s| && 0xDC00 <= s[i + 1] <= 0xDFFF)
    || (0xDC00 <= s[i] <= 0xDFFF && i > 0 && 0xD800 <= s[i - 1] <= 0xDBFF)
  }

  predicate Surrogate(c: Unit) { 0xD800 <= c <= 0xDFFF }

  const LETTERED: set<Unit> := {0x08, 0x09, 0x0A, 0x0C, 0x0D}

  /** Quotes, backslashes and controls are escaped, by a letter where there is one, and so is a
      surrogate without its other half; every other unit stands for itself. */
  predicate WrittenLeast(s: Text, i: nat, x: Piece)
    requires i < |s|
  {
    match x
    case Raw(_) => Surrogate(s[i]) ==> Paired(s, i)
    case Short(_) => s[i] in LETTERED || s[i] == 0x22 || s[i] == 0x5C
    case Hex(digits) =>
      && ((s[i] < 0x20 && s[i] !in LETTERED) || (Surrogate(s[i]) && !Paired(s, i)))
      && forall k :: 0 <= k < |digits| ==> !digits[k].1
  }

  /** These pieces write this string, and no piece is longer than it must be. */
  predicate Least(pieces: seq<Piece>, s: Text) {
    && AllFit(pieces) && Units(pieces) == s
    && forall i :: 0 <= i < |s| ==> WrittenLeast(s, i, pieces[i])
  }

  lemma EscapeIsPiece(c: Unit) returns (x: Piece)
    ensures PieceFits(x) && PieceText(x) == EscapeUnit(c) && PieceUnit(x) == c
    ensures x.Raw? ==> !Surrogate(c)
    ensures x.Short? ==> c in LETTERED || c == 0x22 || c == 0x5C
    ensures x.Hex? ==> ((c < 0x20 && c !in LETTERED) || Surrogate(c)) && forall k :: 0 <= k < 4 ==> !x.digits[k].1
  {
    var e := EscapeUnit(c);
    if |e| == 1 {
      x := Raw(c);
    } else if |e| == 2 {
      x := Short(e[1]);
    } else {
      x := UnicodeIsPiece(c);
    }
  }

  lemma UnicodeIsPiece(c: Unit) returns (x: Piece)
    ensures x.Hex? && PieceFits(x) && PieceText(x) == UnicodeEscape(c) && PieceUnit(x) == c
    ensures forall k :: 0 <= k < 4 ==> !x.digits[k].1
  {
    var n := c as int;
    var a, b, d, e := n / 16 / 16 / 16, n / 16 / 16 % 16, n / 16 % 16, n % 16;
    x := Hex([(a, false), (b, false), (d, false), (e, false)]);
    assert DigitText(a, false) == HexDigit(a) && DigitText(b, false) == HexDigit(b);
    assert DigitText(d, false) == HexDigit(d) && DigitText(e, false) == HexDigit(e);
    hide DigitText, HexDigit;
    var letters := seq(4, i requires 0 <= i < 4 => DigitText(x.digits[i].0, x.digits[i].1));
    assert letters == [HexDigit(a), HexDigit(b), HexDigit(d), HexDigit(e)];
    assert PieceText(x) == [BACKSLASH, LOWER_U] + letters;
  }

  lemma LeastAfterOne(x: Piece, more: seq<Piece>, s: Text)
    requires s != [] && !PairAt(s) && PieceFits(x) && PieceUnit(x) == s[0] && Least(more, s[1..])
    requires x.Raw? ==> !Surrogate(s[0])
    requires x.Short? ==> s[0] in LETTERED || s[0] == 0x22 || s[0] == 0x5C
    requires x.Hex? ==> ((s[0] < 0x20 && s[0] !in LETTERED) || Surrogate(s[0])) && forall k :: 0 <= k < 4 ==> !x.digits[k].1
    ensures Least([x] + more, s) && PiecesText([x] + more) == PieceText(x) + PiecesText(more)
  {
    PiecesPrepend(x, more);
    hide Units, AllFit, PiecesText, PieceUnit, PieceText;
    forall i | 0 <= i < |s| ensures WrittenLeast(s, i, ([x] + more)[i]) {
      if i > 0 {
        assert WrittenLeast(s[1..], i - 1, more[i - 1]);
        assert Paired(s, i) <==> Paired(s[1..], i - 1);
      }
    }
  }

  lemma LeastAfterPair(more: seq<Piece>, s: Text)
    requires PairAt(s) && Least(more, s[2..])
    ensures Least([Raw(s[0]), Raw(s[1])] + more, s) && PiecesText([Raw(s[0]), Raw(s[1])] + more) == s[..2] + PiecesText(more)
  {
    PairIsSpelled(s, more);
    hide Units, AllFit, PiecesText, WrittenLeast;
    var all := [Raw(s[0]), Raw(s[1])] + more;
    forall i | 0 <= i < |s| ensures WrittenLeast(s, i, all[i]) {
      if i > 1 {
        assert all[i] == more[i - 2];
        LeastLater(s, i, more[i - 2]);
      } else {
        HalvesAreLeast(s, i);
      }
    }
  }

  lemma PairIsSpelled(s: Text, more: seq<Piece>)
    requires PairAt(s) && AllFit(more) && Units(more) == s[2..]
    ensures var all := [Raw(s[0]), Raw(s[1])] + more;
      AllFit(all) && Units(all) == s && PiecesText(all) == s[..2] + PiecesText(more)
  {
    hide Units, AllFit, PiecesText;
    PiecesPrepend(Raw(s[1]), more);
    PiecesPrepend(Raw(s[0]), [Raw(s[1])] + more);
    assert [Raw(s[0]), Raw(s[1])] + more == [Raw(s[0])] + ([Raw(s[1])] + more);
    assert s == [s[0]] + ([s[1]] + s[2..]);
    assert s[..2] + PiecesText(more) == [s[0]] + ([s[1]] + PiecesText(more));
  }

  lemma LeastLater(s: Text, i: nat, x: Piece)
    requires PairAt(s) && 2 <= i < |s| && WrittenLeast(s[2..], i - 2, x)
    ensures WrittenLeast(s, i, x)
  {
    assert Paired(s, i) <==> Paired(s[2..], i - 2);
  }

  lemma HalvesAreLeast(s: Text, i: nat)
    requires PairAt(s) && i < 2
    ensures WrittenLeast(s, i, Raw(s[i]))
  {
  }

  lemma {:induction false} WrittenIsLeast(s: Text) returns (pieces: seq<Piece>)
    requires !HoldsLiteral(s)
    ensures Least(pieces, s) && PiecesText(pieces) == JsonText.Written(s, true, true)
    decreases |s|
  {
    if s == [] {
      pieces := [];
    } else if PairAt(s) {
      hide Least, PiecesText, PieceText;
      PairHoldsNothing(s);
      var more := WrittenIsLeast(s[2..]);
      LeastAfterPair(more, s);
      pieces := [Raw(s[0]), Raw(s[1])] + more;
    } else {
      hide Least, PiecesText, PieceText;
      var more := WrittenIsLeast(s[1..]);
      var x := EscapeIsPiece(s[0]);
      LeastAfterOne(x, more, s);
      pieces := [x] + more;
    }
  }

  lemma StringIsLeast(s: Text) returns (pieces: seq<Piece>)
    requires !HoldsLiteral(s)
    ensures Least(pieces, s) && Quoted(pieces) == EscapeString(s)
  {
    pieces := WrittenIsLeast(s);
    EscapeStringWrites(s);
  }

  // ---- Trees -----------------------------------------------------------

  /** No white space, integers, least strings, and keys that ascend by code unit. */
  ghost predicate Compact(x: Syntax)
    requires Fits(x)
  {
    match x
    case Word(_) => true
    case Number(n) => n.fraction == [] && n.exponent == NoExponent
    case String(pieces) => Least(pieces, Units(pieces))
    case EmptyArray(pad) => pad == []
    case EmptyObject(pad) => pad == []
    case Array(items) => ItemsCompact(items)
    case Object(members) => MembersCompact(members)
  }

  ghost predicate ItemCompact(x: Item)
    requires ItemFits(x)
  {
    x.before == [] && Compact(x.value) && x.after == []
  }

  ghost predicate ItemsCompact(xs: Items)
    requires ItemsFit(xs)
  {
    ItemCompact(xs.item) && (xs.MoreItems? ==> ItemsCompact(xs.rest))
  }

  ghost predicate MemberCompact(x: Member)
    requires MemberFits(x)
  {
    x.before == [] && Least(x.key, Units(x.key)) && x.between == [] && ItemCompact(x.item)
  }

  ghost predicate MembersCompact(xs: Members)
    requires MembersFit(xs)
  {
    && MemberCompact(xs.member)
    && (xs.MoreMembers? ==> MembersCompact(xs.rest) && KeyBelow(xs.member, xs.rest.member))
  }

  ghost predicate KeyBelow(a: Member, b: Member) {
    AllFit(a.key) && AllFit(b.key) && exists k: nat :: DiffersAt(Units(a.key), Units(b.key), k)
  }

  /** `a` comes before `b`: it is a prefix, or smaller at the first difference. */
  predicate DiffersAt(a: Text, b: Text, k: nat) {
    k <= |a| && k < |b| && a[..k] == b[..k] && (k < |a| ==> a[k] < b[k])
  }

  lemma {:induction false} KeyLessMeans(a: Text, b: Text)
    ensures KeyLess(a, b) ==> exists k: nat :: DiffersAt(a, b, k)
  {
    if KeyLess(a, b) {
      if a == [] || a[0] < b[0] {
        assert DiffersAt(a, b, 0);
      } else {
        KeyLessMeans(a[1..], b[1..]);
        var k: nat :| DiffersAt(a[1..], b[1..], k);
        assert a[..k + 1] == [a[0]] + a[1..][..k] && b[..k + 1] == [b[0]] + b[1..][..k];
        assert DiffersAt(a, b, k + 1);
      }
    }
  }

  /** The syntax tree is compact, and spells this text. */
  ghost predicate Prints(x: Syntax, text: Text) { Fits(x) && Compact(x) && Spell(x) == text }

  ghost predicate PrintsItems(xs: Items, text: Text) { ItemsFit(xs) && ItemsCompact(xs) && SpellItems(xs) == text }

  ghost predicate PrintsMembers(xs: Members, text: Text) { MembersFit(xs) && MembersCompact(xs) && SpellMembers(xs) == text }

  lemma IntegerIsCompact(token: Text) returns (x: Syntax)
    requires IsInteger(token)
    ensures Prints(x, token)
  {
    var negative, digits := WholeIsSpelled(token);
    assert token[..IntegerLength(token)] == token;
    x := Number(Numeral(negative, digits, [], NoExponent));
    hide IntegerLength, AllDigits;
    assert NumeralText(x.numeral) == token;
  }

  function Breadth(t: Node): nat {
    match t
    case NArr(elements) => |elements| + 1
    case NObj(fields) => |fields| + 1
    case _ => 0
  }

  /** What is printed of a tree whose text reads back is spelled compactly. */
  lemma {:induction false} PrintsCompactly(t: Node, pyFloat: Text -> Text) returns (x: Syntax)
    requires Valid(t) && Sound(t)
    ensures Prints(x, Print(t, pyFloat))
    decreases t, Breadth(t)
  {
    match t {
      case NNull => x := Word(t);
      case NTrue => x := Word(t);
      case NFalse => x := Word(t);
      case NNum(token) => x := IntegerIsCompact(token);
      case NStr(text) =>
        var pieces := StringIsLeast(text);
        x := String(pieces);
      case NArr(elements) =>
        ArrayPrints(elements, pyFloat);
        hide Print, Prints, PrintsItems;
        if elements == [] {
          x := EmptyArray([]);
          EmptyIsCompact(x, pyFloat);
        } else {
          var xs := ItemsCompactly(t, 0, pyFloat);
          assert PrintAll(elements, pyFloat)[0..] == PrintAll(elements, pyFloat);
          x := Array(xs);
          ArrayIsCompact(xs, JoinTexts(PrintAll(elements, pyFloat)));
        }
      case NObj(fields) =>
        ObjectPrints(fields, pyFloat);
        hide Print, Prints, PrintsMembers, SortFields;
        if fields == [] {
          x := EmptyObject([]);
          EmptyIsCompact(x, pyFloat);
        } else {
          var xs := MembersCompactly(t, 0, pyFloat);
          var texts := FieldTexts(MapValues(SortFields(fields), Printer(pyFloat)));
          assert texts[0..] == texts;
          x := Object(xs);
          ObjectIsCompact(xs, JoinTexts(texts));
        }
    }
  }

  lemma EmptyIsCompact(x: Syntax, pyFloat: Text -> Text)
    requires x == EmptyArray([]) || x == EmptyObject([])
    ensures Prints(x, if x.EmptyArray? then [OPEN_BRACKET] + [] + [CLOSE_BRACKET] else [OPEN_BRACE] + [] + [CLOSE_BRACE])
  {
  }

  lemma ArrayIsCompact(xs: Items, text: Text)
    requires PrintsItems(xs, text)
    ensures Prints(Array(xs), [OPEN_BRACKET] + text + [CLOSE_BRACKET])
  {
    hide ItemsFit, ItemsCompact, SpellItems;
  }

  lemma ObjectIsCompact(xs: Members, text: Text)
    requires PrintsMembers(xs, text)
    ensures Prints(Object(xs), [OPEN_BRACE] + text + [CLOSE_BRACE])
  {
    hide MembersFit, MembersCompact, SpellMembers;
  }

  /** The elements from `i` on. */
  lemma ItemsCompactly(t: Node, i: nat, pyFloat: Text -> Text) returns (xs: Items)
    requires t.NArr? && Valid(t) && Sound(t) && i < |t.elements|
    ensures PrintsItems(xs, JoinTexts(PrintAll(t.elements, pyFloat)[i..]))
    decreases t, |t.elements| - i
  {
    var texts := PrintAll(t.elements, pyFloat);
    JoinStep(texts, i);
    hide Print, JoinTexts, Prints, PrintsItems;
    var value := PrintsCompactly(t.elements[i], pyFloat);
    if i + 1 < |t.elements| {
      var rest := ItemsCompactly(t, i + 1, pyFloat);
      xs := MoreItems(Item([], value, []), rest);
      MoreIsCompact(value, rest, texts[i], JoinTexts(texts[i + 1..]));
    } else {
      xs := LastItem(Item([], value, []));
      LastIsCompact(value, texts[i]);
    }
  }

  lemma BareItem(x: Syntax)
    requires Fits(x) && Compact(x)
    ensures ItemFits(Item([], x, [])) && ItemCompact(Item([], x, [])) && SpellItem(Item([], x, [])) == Spell(x)
  {
    hide Fits, Compact, Spell;
    assert [] + Spell(x) + [] == Spell(x);
  }

  lemma BareMember(key: seq<Piece>, x: Syntax)
    requires AllFit(key) && Least(key, Units(key)) && Fits(x) && Compact(x)
    ensures var m := Member([], key, [], Item([], x, []));
      && ItemFits(m.item) && MemberFits(m) && MemberCompact(m) && SpellMember(m) == Quoted(key) + [COLON] + Spell(x)
  {
    BareItem(x);
    hide Fits, Compact, Spell, Least, Units, AllFit, PiecesText;
    assert [] + Quoted(key) + [] == Quoted(key);
  }

  lemma LastIsCompact(x: Syntax, text: Text)
    requires Prints(x, text)
    ensures PrintsItems(LastItem(Item([], x, [])), text + [])
  {
    hide Fits, Compact, Spell;
    BareItem(x);
  }

  lemma MoreIsCompact(x: Syntax, xs: Items, text: Text, more: Text)
    requires Prints(x, text) && PrintsItems(xs, more)
    ensures PrintsItems(MoreItems(Item([], x, []), xs), text + ([COMMA] + more))
  {
    hide Fits, Compact, Spell;
    BareItem(x);
  }

  /** The text of field `i` in key order. */
  function TextOfField(fields: seq<(Text, Node)>, i: nat, pyFloat: Text -> Text): Text
    requires i < |fields|
  {
    Print(SortFields(fields)[i].1, pyFloat)
  }

  lemma FieldIsPrinted(fields: seq<(Text, Node)>, i: nat, pyFloat: Text -> Text)
    requires i < |fields|
    ensures FieldTexts(MapValues(SortFields(fields), Printer(pyFloat)))[i]
            == EscapeString(SortFields(fields)[i].0) + [COLON] + TextOfField(fields, i, pyFloat)
  {
    hide EscapeString, Print, SortFields;
  }

  lemma FieldIsSound(t: Node, j: nat)
    requires t.NObj? && Valid(t) && Sound(t) && j < |t.fields|
    ensures Valid(t.fields[j].1) && Sound(t.fields[j].1) && !HoldsLiteral(t.fields[j].0) && DistinctKeys(t.fields)
  {
    hide HoldsLiteral;
  }

  /** The fields from `i` on, in key order. */
  lemma MembersCompactly(t: Node, i: nat, pyFloat: Text -> Text) returns (xs: Members)
    requires t.NObj? && Valid(t) && Sound(t) && i < |t.fields|
    ensures PrintsMembers(xs, JoinTexts(FieldTexts(MapValues(SortFields(t.fields), Printer(pyFloat)))[i..]))
    ensures AllFit(xs.member.key) && Units(xs.member.key) == SortFields(t.fields)[i].0
    decreases t, |t.fields| - i
  {
    hide SortFields, Print, JoinTexts, Prints, PrintsMembers, EscapeString, HoldsLiteral, Valid, Sound, FieldTexts, DistinctKeys,
         Quoted, KeyBelow;
    var sorted := SortFields(t.fields);
    var texts := FieldTexts(MapValues(sorted, Printer(pyFloat)));
    TextsAreAsMany(sorted, pyFloat);
    var j := SortedFieldFrom(t.fields, i);
    JoinStep(texts, i);
    FieldIsSound(t, j);
    FieldIsPrinted(t.fields, i, pyFloat);
    var key := StringIsLeast(sorted[i].0);
    LeastIsSpelled(key, sorted[i].0);
    hide Least, Units, AllFit;
    var value := PrintsCompactly(t.fields[j].1, pyFloat);
    if i + 1 < |t.fields| {
      var rest := MembersCompactly(t, i + 1, pyFloat);
      SortedKeys(t.fields, i);
      xs := MoreMembers(Member([], key, [], Item([], value, [])), rest);
      MoreMembersCompact(key, value, rest, TextOfField(t.fields, i, pyFloat), JoinTexts(texts[i + 1..]));
    } else {
      xs := LastMember(Member([], key, [], Item([], value, [])));
      LastMemberCompact(key, value, TextOfField(t.fields, i, pyFloat));
    }
  }

  lemma TextsAreAsMany(sorted: seq<(Text, Node)>, pyFloat: Text -> Text)
    ensures |FieldTexts(MapValues(sorted, Printer(pyFloat)))| == |sorted|
  {
  }

  lemma LeastIsSpelled(pieces: seq<Piece>, s: Text)
    requires Least(pieces, s)
    ensures AllFit(pieces) && Units(pieces) == s && Least(pieces, Units(pieces))
  {
  }

  lemma SortedKeys(fields: seq<(Text, Node)>, i: nat)
    requires DistinctKeys(fields) && i + 1 < |fields|
    ensures KeyLess(SortFields(fields)[i].0, SortFields(fields)[i + 1].0)
  {
    SortOrders(fields);
  }

  lemma LastMemberCompact(key: seq<Piece>, x: Syntax, text: Text)
    requires AllFit(key) && Least(key, Units(key)) && Prints(x, text)
    ensures PrintsMembers(LastMember(Member([], key, [], Item([], x, []))), Quoted(key) + [COLON] + text + [])
  {
    hide Fits, Compact, Spell, PiecesText, Units, AllFit, Least;
    BareMember(key, x);
  }

  lemma MoreMembersCompact(key: seq<Piece>, x: Syntax, xs: Members, text: Text, more: Text)
    requires AllFit(key) && Least(key, Units(key)) && Prints(x, text) && PrintsMembers(xs, more)
    requires AllFit(xs.member.key) && KeyLess(Units(key), Units(xs.member.key))
    ensures PrintsMembers(MoreMembers(Member([], key, [], Item([], x, [])), xs), Quoted(key) + [COLON] + text + ([COMMA] + more))
  {
    hide Fits, Compact, Spell, PiecesText, Units, AllFit, Least, KeyLess, DiffersAt;
    KeyLessMeans(Units(key), Units(xs.member.key));
    BareMember(key, x);
  }

  /** The printed text of a tree is a compact spelling of it: no white space, keys that ascend,
      integers as they were, nothing escaped that need not be. */
  lemma PrintIsCompact(t: Node, pyFloat: Text -> Text)
    requires Valid(t) && Sound(t)
    ensures exists x :: Fits(x) && Compact(x) && Print(t, pyFloat) == Spell(x) && Meaning(x) == Normal(t)
  {
    hide Print, Compact, Fits, Spell, Meaning;
    var x := PrintsCompactly(t, pyFloat);
    RoundTrip(t, pyFloat);
    TextIsRead([], x, []);
    assert [] + Spell(x) + [] == Spell(x);
  }

  // ---- Numbers ---------------------------------------------------------

  /** An integer numeral: no fraction and no exponent. */
  ghost predicate IsWhole(token: Text) {
    exists n :: NumeralFits(n) && n.fraction == [] && n.exponent == NoExponent && NumeralText(n) == token
  }

  /** Integers are printed as they were written, other numbers as Python prints the float. */
  lemma NumbersPrint(token: Text, pyFloat: Text -> Text)
    ensures IsWhole(token) ==> Print(NNum(token), pyFloat) == token
    ensures !IsWhole(token) ==> Print(NNum(token), pyFloat) == pyFloat(token)
  {
    IntegerMeans(token);
    hide IsInteger, IsWhole;
  }

  lemma IntegerMeans(token: Text)
    ensures IsInteger(token) <==> IsWhole(token)
  {
    hide WholeText, NumeralFits, IntegerLength;
    if IsInteger(token) {
      IntegerIsWhole(token);
    }
    if IsWhole(token) {
      var n :| NumeralFits(n) && n.fraction == [] && n.exponent == NoExponent && NumeralText(n) == token;
      WholeIsRead(n, []);
      PartsContinue(n, []);
      assert WholeText(n) + [] == WholeText(n);
      assert WholeText(n) + [] + [] == WholeText(n);
    }
  }

  lemma IntegerIsWhole(token: Text)
    requires IsInteger(token)
    ensures IsWhole(token)
  {
    var negative, digits := WholeIsSpelled(token);
    hide IntegerLength, AllDigits;
    assert token[..IntegerLength(token)] == token;
    var n := Numeral(negative, digits, [], NoExponent);
    assert WholeText(n) == token;
    assert token + [] + [] == token;
    assert NumeralText(n) == token;
  }

  /** An object that looks like a number marker is printed as its number. */
  lemma MarkersPrint(fields: seq<(Text, Node)>, i: nat, token: Text, pyFloat: Text -> Text)
    requires DistinctKeys(fields) && i < |fields| && fields[i] == (DOLLAR_NUM, NStr(token))
    ensures Print(NObj(fields), pyFloat) == Print(NNum(token), pyFloat)
  {
    assert fields[i].0 == DOLLAR_NUM;
    LooksUp(fields, i);
  }
}
