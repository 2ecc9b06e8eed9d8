/** Whole JSON texts as concrete syntax trees, and what the parser makes of them. */
module JsonSyntax {
  import opened JsonText
  import opened JsonTree
  import opened JsonGrammar

  // ---- Syntax trees ----------------------------------------------------

  /** A text with all its white space: what is written, before it is read. */
  datatype Syntax =
    | Word(node: Node)
    | Number(numeral: Numeral)
    | String(pieces: seq<Piece>)
    | EmptyArray(pad: Text)
    | Array(items: Items)
    | EmptyObject(pad: Text)
    | Object(members: Members)

  datatype Item = Item(before: Text, value: Syntax, after: Text)
  datatype Items = LastItem(item: Item) | MoreItems(item: Item, rest: Items)

  datatype Member = Member(before: Text, key: seq<Piece>, between: Text, item: Item)
  datatype Members = LastMember(member: Member) | MoreMembers(member: Member, rest: Members)

  predicate Spaces(s: Text) { forall i :: 0 <= i < |s| ==> s[i] in {0x20 as Unit, 0x09, 0x0A, 0x0D} }

  predicate Fits(x: Syntax) {
    match x
    case Word(node) => node in {NNull, NTrue, NFalse}
    case Number(numeral) => NumeralFits(numeral)
    case String(pieces) => AllFit(pieces)
    case EmptyArray(pad) => Spaces(pad)
    case Array(items) => ItemsFit(items)
    case EmptyObject(pad) => Spaces(pad)
    case Object(members) => MembersFit(members)
  }

  predicate ItemFits(x: Item) { Spaces(x.before) && Fits(x.value) && Spaces(x.after) }

  predicate ItemsFit(xs: Items) { ItemFits(xs.item) && (xs.MoreItems? ==> ItemsFit(xs.rest)) }

  predicate MemberFits(x: Member) { Spaces(x.before) && AllFit(x.key) && Spaces(x.between) && ItemFits(x.item) }

  predicate MembersFit(xs: Members) { MemberFits(xs.member) && (xs.MoreMembers? ==> MembersFit(xs.rest)) }

  // ---- The text --------------------------------------------------------

  function Spell(x: Syntax): (text: Text)
    requires Fits(x)
  {
    match x
    case Word(node) => if node.NNull? then NULL else if node.NTrue? then TRUE else FALSE
    case Number(numeral) => NumeralText(numeral)
    case String(pieces) => Quoted(pieces)
    case EmptyArray(pad) => [0x5B] + pad + [0x5D]
    case Array(items) => [0x5B] + SpellItems(items) + [0x5D]
    case EmptyObject(pad) => [0x7B] + pad + [0x7D]
    case Object(members) => [0x7B] + SpellMembers(members) + [0x7D]
  }

  function SpellItem(x: Item): Text
    requires ItemFits(x)
  {
    x.before + Spell(x.value) + x.after
  }

  function SpellItems(xs: Items): Text
    requires ItemsFit(xs)
  {
    SpellItem(xs.item) + if xs.MoreItems? then [0x2C] + SpellItems(xs.rest) else []
  }

  function SpellMember(x: Member): Text
    requires MemberFits(x)
  {
    x.before + Quoted(x.key) + x.between + [0x3A] + SpellItem(x.item)
  }

  function SpellMembers(xs: Members): Text
    requires MembersFit(xs)
  {
    SpellMember(xs.member) + if xs.MoreMembers? then [0x2C] + SpellMembers(xs.rest) else []
  }

  // ---- The meaning -----------------------------------------------------

  function Meaning(x: Syntax): Node
    requires Fits(x)
  {
    match x
    case Word(node) => node
    case Number(numeral) => NNum(NumeralText(numeral))
    case String(pieces) => NStr(Units(pieces))
    case EmptyArray(_) => NArr([])
    case Array(items) => NArr(ItemsMean(items))
    case EmptyObject(_) => NObj([])
    case Object(members) => NObj(MembersMean(members, []))
  }

  function ItemsMean(xs: Items): seq<Node>
    requires ItemsFit(xs)
  {
    assert ItemFits(xs.item);
    [Meaning(xs.item.value)] + if xs.MoreItems? then ItemsMean(xs.rest) else []
  }

  /** Fields are set one after the other. */
  function MembersMean(xs: Members, before: seq<(Text, Node)>): seq<(Text, Node)>
    requires MembersFit(xs)
  {
    assert MemberFits(xs.member) && ItemFits(xs.member.item);
    var fields := SetField(before, Units(xs.member.key), Meaning(xs.member.item.value));
    if xs.MoreMembers? then MembersMean(xs.rest, fields) else fields
  }

  /** A new key goes to the end, and `__proto__` sets nothing. */
  lemma {:induction false} SettingNew(fields: seq<(Text, Node)>, key: Text, value: Node)
    ensures key == PROTO ==> SetField(fields, key, value) == fields
    ensures key != PROTO && (forall i :: 0 <= i < |fields| ==> fields[i].0 != key) ==>
      SetField(fields, key, value) == fields + [(key, value)]
  {
    if key != PROTO && fields != [] && forall i :: 0 <= i < |fields| ==> fields[i].0 != key {
      SettingNew(fields[1..], key, value);
    }
  }

  /** A known key keeps its place and gets the new value. */
  lemma {:induction false} SettingKnown(fields: seq<(Text, Node)>, key: Text, value: Node, i: nat)
    requires key != PROTO && i < |fields| && fields[i].0 == key && forall j :: 0 <= j < i ==> fields[j].0 != key
    ensures SetField(fields, key, value) == fields[i := (key, value)]
  {
    if i > 0 {
      SettingKnown(fields[1..], key, value, i - 1);
      assert [fields[0]] + fields[1..][i - 1 := (key, value)] == fields[i := (key, value)];
    } else {
      assert [(key, value)] + fields[1..] == fields[0 := (key, value)];
    }
  }

  // ---- White space -----------------------------------------------------

  lemma {:induction false} SpacesAreSkipped(pad: Text, rest: Text)
    requires Spaces(pad) && (rest == [] || !JsonSpace(rest[0]))
    ensures SkipSpace(pad + rest) == rest
  {
    if pad == [] {
      assert pad + rest == rest;
    } else {
      assert (pad + rest)[1..] == pad[1..] + rest;
      SpacesAreSkipped(pad[1..], rest);
    }
  }

  lemma {:induction false} SkippedAreSpaces(s: Text) returns (pad: Text)
    ensures Spaces(pad) && s == pad + SkipSpace(s)
  {
    if s != [] && JsonSpace(s[0]) {
      var more := SkippedAreSpaces(s[1..]);
      pad := [s[0]] + more;
    } else {
      pad := [];
    }
  }

  lemma {:induction false} OnlySpaces(pad: Text)
    ensures Spaces(pad) ==> SkipSpace(pad) == []
    ensures SkipSpace(pad) == [] ==> Spaces(pad)
  {
    if Spaces(pad) {
      assert pad + [] == pad;
      SpacesAreSkipped(pad, []);
    }
    if SkipSpace(pad) == [] {
      var spaces := SkippedAreSpaces(pad);
      assert spaces + [] == spaces;
    }
  }

  // ---- Every syntax tree is read as what it means ----------------------

  predicate Follows(x: Syntax, rest: Text) { x.Number? ==> Stops(rest) }

  /** What a value starts with: no white space, and not the end of a list. */
  lemma SpellStarts(x: Syntax)
    requires Fits(x)
    ensures Spell(x) != [] && !JsonSpace(Spell(x)[0]) && Spell(x)[0] != CLOSE_BRACKET && Spell(x)[0] != CLOSE_BRACE
    ensures Spell(x)[0] != COMMA
  {
  }

  lemma WordIsRead(x: Syntax, rest: Text)
    requires Fits(x) && x.Word?
    ensures ReadValue(Spell(x) + rest) == Parsed(Meaning(x), rest)
  {
    var s := Spell(x) + rest;
    assert s[..|Spell(x)|] == Spell(x) && s[|Spell(x)|..] == rest;
  }

  lemma NumberIsRead(x: Syntax, rest: Text)
    requires Fits(x) && x.Number? && Stops(rest)
    ensures ReadValue(Spell(x) + rest) == Parsed(Meaning(x), rest)
  {
    hide NumeralText, ReadNumber, NumeralFits;
    NumeralIsRead(x.numeral, rest);
    NumeralStarts(x.numeral);
    var s := Spell(x) + rest;
    assert s[0] == NumeralText(x.numeral)[0];
  }

  lemma NumeralStarts(n: Numeral)
    requires NumeralFits(n)
    ensures NumeralText(n) != [] && (NumeralText(n)[0] == MINUS || Digit(NumeralText(n)[0]))
  {
  }

  lemma QuoteOpens(s: Text)
    requires s != [] && s[0] == QUOTE && ReadString(s).Parsed?
    ensures ReadValue(s) == Parsed(NStr(ReadString(s).value), ReadString(s).rest)
  {
    hide ReadString;
    assert SkipSpace(s) == s;
  }

  lemma StringIsRead(pieces: seq<Piece>, rest: Text)
    requires AllFit(pieces)
    ensures ReadString(Quoted(pieces) + rest) == Parsed(Units(pieces), rest)
    ensures ReadValue(Quoted(pieces) + rest) == Parsed(NStr(Units(pieces)), rest)
  {
    hide ReadUnits, PiecesText, Units, AllFit;
    PiecesAreRead(pieces, rest);
    var s := Quoted(pieces) + rest;
    assert s[1..] == PiecesText(pieces) + [QUOTE] + rest;
    QuoteOpens(s);
  }

  lemma EmptyIsRead(x: Syntax, rest: Text)
    requires Fits(x) && (x.EmptyArray? || x.EmptyObject?)
    ensures ReadValue(Spell(x) + rest) == Parsed(Meaning(x), rest)
  {
    var s := Spell(x) + rest;
    var close := if x.EmptyArray? then CLOSE_BRACKET else CLOSE_BRACE;
    assert s[1..] == x.pad + ([close] + rest);
    SpacesAreSkipped(x.pad, [close] + rest);
    assert ([close] + rest)[1..] == rest;
  }

  /** What follows a value in a list: white space, then a comma or the end. */
  predicate Closes(rest: Text) { rest != [] && rest[0] in {0x2C as Unit, 0x5D, 0x7D} }

  lemma PadFollows(x: Syntax, after: Text, rest: Text)
    requires Spaces(after) && (rest == [] || Closes(rest))
    ensures Follows(x, after + rest)
  {
    if after == [] {
      assert after + rest == rest;
    }
  }

  lemma {:induction false} ValueIsRead(x: Syntax, rest: Text)
    requires Fits(x) && Follows(x, rest)
    ensures ReadValue(Spell(x) + rest) == Parsed(Meaning(x), rest)
    decreases x
  {
    match x {
      case Word(_) => WordIsRead(x, rest);
      case Number(_) => NumberIsRead(x, rest);
      case String(pieces) => StringIsRead(pieces, rest);
      case EmptyArray(_) => EmptyIsRead(x, rest);
      case EmptyObject(_) => EmptyIsRead(x, rest);
      case Array(items) =>
        ItemsAreRead(items, [], rest);
        ArrayOpens(items, rest);
        assert [] + ItemsMean(items) == ItemsMean(items);
      case Object(members) =>
        MembersAreRead(members, [], rest);
        ObjectOpens(members, rest);
    }
  }

  lemma ItemIsRead(x: Item, rest: Text)
    requires ItemFits(x) && Closes(rest)
    requires ReadValue(Spell(x.value) + (x.after + rest)) == Parsed(Meaning(x.value), x.after + rest)
    ensures ReadValue(SpellItem(x) + rest) == Parsed(Meaning(x.value), x.after + rest)
    ensures SkipSpace(x.after + rest) == rest
  {
    SpellStarts(x.value);
    hide Fits, Meaning, Spell;
    var s := Spell(x.value) + (x.after + rest);
    assert SpellItem(x) + rest == x.before + s;
    SpacesAreSkipped(x.before, s);
    SpacesAreSkipped(x.after, rest);
    SkippedReadsTheSame(x.before + s);
  }

  lemma SkippedReadsTheSame(text: Text)
    ensures ReadValue(SkipSpace(text)) == ReadValue(text)
  {
    assert SkipSpace(SkipSpace(text)) == SkipSpace(text);
  }

  lemma ElementStep(text: Text, before: seq<Node>, value: Node, after: Text)
    requires ReadValue(text) == Parsed(value, after) && SkipSpace(after) != []
    ensures var s := SkipSpace(after);
      && (s[0] == COMMA ==> ReadElements(text, before) == ReadElements(s[1..], before + [value]))
      && (s[0] == CLOSE_BRACKET ==> ReadElements(text, before) == Parsed(NArr(before + [value]), s[1..]))
  {
    hide ReadValue, SkipSpace;
  }

  lemma FieldStep(text: Text, before: seq<(Text, Node)>, key: Text, colon: Text, value: Node, after: Text)
    requires ReadString(SkipSpace(text)) == Parsed(key, colon) && SkipSpace(colon) != [] && SkipSpace(colon)[0] == COLON
    requires ReadValue(SkipSpace(colon)[1..]) == Parsed(value, after) && SkipSpace(after) != []
    ensures var s, fields := SkipSpace(after), SetField(before, key, value);
      && (s[0] == COMMA ==> ReadFields(text, before) == ReadFields(s[1..], fields))
      && (s[0] == CLOSE_BRACE ==> ReadFields(text, before) == Parsed(NObj(fields), s[1..]))
  {
    hide ReadValue, SkipSpace, ReadString, SetField;
  }

  lemma ItemsUnfold(xs: Items, before: seq<Node>, rest: Text)
    requires ItemsFit(xs)
    ensures ItemFits(xs.item) && Fits(xs.item.value) && Spaces(xs.item.after)
    ensures var more := if xs.MoreItems? then [COMMA] + (SpellItems(xs.rest) + [CLOSE_BRACKET] + rest) else [CLOSE_BRACKET] + rest;
      && SpellItems(xs) + [CLOSE_BRACKET] + rest == SpellItem(xs.item) + more
      && more[1..] == if xs.MoreItems? then SpellItems(xs.rest) + [CLOSE_BRACKET] + rest else rest
    ensures before + ItemsMean(xs) == before + [Meaning(xs.item.value)] + if xs.MoreItems? then ItemsMean(xs.rest) else []
  {
    hide SpellItem, Meaning, Spaces;
    assert ItemFits(xs.item);
    var first := SpellItem(xs.item);
    if xs.MoreItems? {
      JoinMore(first, SpellItems(xs.rest), rest);
      NodesGrow(before, Meaning(xs.item.value), ItemsMean(xs.rest));
    } else {
      JoinLast(first, rest);
    }
  }

  lemma JoinMore(first: Text, more: Text, rest: Text)
    ensures first + ([COMMA] + more) + [CLOSE_BRACKET] + rest == first + ([COMMA] + (more + [CLOSE_BRACKET] + rest))
    ensures ([COMMA] + (more + [CLOSE_BRACKET] + rest))[1..] == more + [CLOSE_BRACKET] + rest
  {
  }

  lemma JoinLast(first: Text, rest: Text)
    ensures first + [] + [CLOSE_BRACKET] + rest == first + ([CLOSE_BRACKET] + rest)
    ensures ([CLOSE_BRACKET] + rest)[1..] == rest
  {
  }

  lemma {:induction false} ItemsAreRead(xs: Items, before: seq<Node>, rest: Text)
    requires ItemsFit(xs)
    ensures ReadElements(SpellItems(xs) + [CLOSE_BRACKET] + rest, before) == Parsed(NArr(before + ItemsMean(xs)), rest)
    decreases xs
  {
    hide ReadValue, SkipSpace, SpellItem, ReadElements, Fits, ItemFits, Meaning, SpellItems, Spell, ItemsMean, Spaces, Follows;
    ItemsUnfold(xs, before, rest);
    var x := xs.item;
    var more := if xs.MoreItems? then [COMMA] + (SpellItems(xs.rest) + [CLOSE_BRACKET] + rest) else [CLOSE_BRACKET] + rest;
    PadFollows(x.value, x.after, more);
    ValueIsRead(x.value, x.after + more);
    ItemIsRead(x, more);
    ElementStep(SpellItem(x) + more, before, Meaning(x.value), x.after + more);
    if xs.MoreItems? {
      ItemsAreRead(xs.rest, before + [Meaning(x.value)], rest);
    } else {
      assert before + [Meaning(x.value)] + [] == before + [Meaning(x.value)];
    }
  }

  lemma MemberIsRead(x: Member, rest: Text)
    requires MemberFits(x) && Closes(rest)
    requires ReadValue(SpellItem(x.item) + rest) == Parsed(Meaning(x.item.value), x.item.after + rest)
    ensures var after := x.between + [COLON] + SpellItem(x.item) + rest;
      && ReadString(SkipSpace(SpellMember(x) + rest)) == Parsed(Units(x.key), after)
      && SkipSpace(after) == [COLON] + (SpellItem(x.item) + rest)
  {
    hide SpellItem, Meaning, ReadValue, Quoted, ReadString, Fits, AllFit, Units;
    var after := x.between + [COLON] + SpellItem(x.item) + rest;
    assert SpellMember(x) + rest == x.before + (Quoted(x.key) + after);
    QuotedStarts(x.key);
    SpacesAreSkipped(x.before, Quoted(x.key) + after);
    StringIsRead(x.key, after);
    assert after == x.between + ([COLON] + (SpellItem(x.item) + rest));
    SpacesAreSkipped(x.between, [COLON] + (SpellItem(x.item) + rest));
  }

  lemma QuotedStarts(pieces: seq<Piece>)
    requires AllFit(pieces)
    ensures Quoted(pieces) != [] && Quoted(pieces)[0] == QUOTE
  {
    hide PiecesText;
  }

  lemma {:induction false} MembersAreRead(xs: Members, before: seq<(Text, Node)>, rest: Text)
    requires MembersFit(xs)
    ensures ReadFields(SpellMembers(xs) + [CLOSE_BRACE] + rest, before) == Parsed(NObj(MembersMean(xs, before)), rest)
    decreases xs
  {
    var x := xs.member;
    var more := if xs.MoreMembers? then [COMMA] + (SpellMembers(xs.rest) + [CLOSE_BRACE] + rest) else [CLOSE_BRACE] + rest;
    assert MemberFits(x) && ItemFits(x.item);
    assert SpellMembers(xs) + [CLOSE_BRACE] + rest == SpellMember(x) + more;
    PadFollows(x.item.value, x.item.after, more);
    ValueIsRead(x.item.value, x.item.after + more);
    ItemIsRead(x.item, more);
    MemberIsRead(x, more);
    assert ([COLON] + (SpellItem(x.item) + more))[1..] == SpellItem(x.item) + more;
    FieldStep(SpellMember(x) + more, before, Units(x.key), x.between + [COLON] + SpellItem(x.item) + more,
              Meaning(x.item.value), x.item.after + more);
    hide ReadValue, SkipSpace, SpellItem, ReadString, SetField, SpellMember, ReadFields, Fits, Meaning;
    if xs.MoreMembers? {
      MembersAreRead(xs.rest, SetField(before, Units(x.key), Meaning(x.item.value)), rest);
      assert more[1..] == SpellMembers(xs.rest) + [CLOSE_BRACE] + rest;
    } else {
      assert more[1..] == rest;
    }
  }

  lemma ElementsSkip(text: Text, before: seq<Node>)
    ensures ReadElements(SkipSpace(text), before) == ReadElements(text, before)
  {
    SkippedReadsTheSame(text);
    hide ReadValue, SkipSpace;
  }

  lemma FieldsSkip(text: Text, before: seq<(Text, Node)>)
    ensures ReadFields(SkipSpace(text), before) == ReadFields(text, before)
  {
    assert SkipSpace(SkipSpace(text)) == SkipSpace(text);
    hide ReadValue, SkipSpace;
  }

  lemma ArrayOpens(xs: Items, rest: Text)
    requires ItemsFit(xs)
    ensures ReadValue(Spell(Array(xs)) + rest) == ReadElements(SpellItems(xs) + [CLOSE_BRACKET] + rest, [])
  {
    var inner := SpellItems(xs) + [CLOSE_BRACKET] + rest;
    var s := Spell(Array(xs)) + rest;
    assert s[0] == OPEN_BRACKET && s[1..] == inner && SkipSpace(s) == s;
    ElementsSkip(inner, []);
    ItemsStart(xs, [CLOSE_BRACKET] + rest);
    assert inner == SpellItems(xs) + ([CLOSE_BRACKET] + rest);
    hide SkipSpace, SpellItems, Spell, ItemsFit;
  }

  lemma ItemsStart(xs: Items, more: Text)
    requires ItemsFit(xs)
    ensures var inner := SkipSpace(SpellItems(xs) + more); inner != [] && inner[0] != CLOSE_BRACKET
  {
    var x := xs.item;
    assert ItemFits(x);
    SpellStarts(x.value);
    hide Spell, Fits;
    var tail := x.after + (if xs.MoreItems? then [0x2C] + SpellItems(xs.rest) else []) + more;
    assert SpellItems(xs) + more == x.before + (Spell(x.value) + tail);
    SpacesAreSkipped(x.before, Spell(x.value) + tail);
  }

  lemma BraceOpens(inner: Text)
    requires SkipSpace(inner) != [] && SkipSpace(inner)[0] != CLOSE_BRACE
    ensures ReadValue([OPEN_BRACE] + inner) == ReadFields(inner, [])
  {
    FieldsSkip(inner, []);
    hide ReadFields;
    var s := [OPEN_BRACE] + inner;
    assert s[1..] == inner && SkipSpace(s) == s;
  }

  lemma ObjectOpens(xs: Members, rest: Text)
    requires MembersFit(xs)
    ensures ReadValue(Spell(Object(xs)) + rest) == ReadFields(SpellMembers(xs) + [CLOSE_BRACE] + rest, [])
  {
    hide SkipSpace, ReadValue, ReadFields, SpellMembers, MembersFit;
    var inner := SpellMembers(xs) + [CLOSE_BRACE] + rest;
    assert inner == SpellMembers(xs) + ([CLOSE_BRACE] + rest);
    assert Spell(Object(xs)) + rest == [OPEN_BRACE] + inner;
    MembersStart(xs, [CLOSE_BRACE] + rest);
    BraceOpens(inner);
  }

  lemma MembersStart(xs: Members, more: Text)
    requires MembersFit(xs)
    ensures var inner := SkipSpace(SpellMembers(xs) + more); inner != [] && inner[0] == QUOTE
  {
    hide Spell, Fits, PiecesText, SpellItem, SkipSpace, AllFit, Spaces;
    var x := xs.member;
    assert MemberFits(x) && ItemFits(x.item);
    var tail := PiecesText(x.key) + [0x22] + x.between + [0x3A] + SpellItem(x.item)
                + (if xs.MoreMembers? then [0x2C] + SpellMembers(xs.rest) else []) + more;
    assert SpellMembers(xs) + more == x.before + ([0x22] + tail);
    SpacesAreSkipped(x.before, [0x22] + tail);
  }

  // ---- Whatever is read was written by a syntax tree -------------------

  /** `text` starts with white space and a value, and goes on with `rest`. */
  ghost predicate Written(text: Text, pad: Text, x: Syntax, rest: Text) {
    Spaces(pad) && Fits(x) && text == pad + Spell(x) + rest
  }

  lemma {:induction false} ValueIsSpelled(text: Text) returns (pad: Text, x: Syntax)
    requires ReadValue(text).Parsed?
    ensures Written(text, pad, x, ReadValue(text).rest) && Meaning(x) == ReadValue(text).value
    decreases |text|, 1
  {
    hide SkipSpace, Fits, Spell, Meaning, Spaces, Written;
    pad := SkippedAreSpaces(text);
    var s := SkipSpace(text);
    SkippedReadsTheSame(text);
    SkippedIsSkipped(text);
    StartOfValue(s);
    hide ReadValue;
    if s[0] == OPEN_BRACE {
      x := ObjectIsSpelled(s);
    } else if s[0] == OPEN_BRACKET {
      x := ArrayIsSpelled(s);
    } else if s[0] == QUOTE {
      x := StringIsSpelled(s);
    } else if s[0] == MINUS || Digit(s[0]) {
      x := NumberIsSpelledAs(s);
    } else {
      x := WordIsSpelled(s);
    }
    Padded(text, pad, s, x, ReadValue(s).rest);
  }

  lemma Padded(text: Text, pad: Text, s: Text, x: Syntax, rest: Text)
    requires Spaces(pad) && text == pad + s && Written(s, [], x, rest)
    ensures Written(text, pad, x, rest)
  {
    hide Fits, Spell;
  }

  lemma SkippedIsSkipped(text: Text)
    ensures SkipSpace(SkipSpace(text)) == SkipSpace(text)
  {
  }

  lemma StartOfValue(s: Text)
    requires SkipSpace(s) == s && ReadValue(s).Parsed?
    ensures s != []
  {
  }

  lemma WordIsSpelled(s: Text) returns (x: Syntax)
    requires s != [] && SkipSpace(s) == s && ReadValue(s).Parsed?
    requires s[0] !in {OPEN_BRACE, OPEN_BRACKET, QUOTE, MINUS} && !Digit(s[0])
    ensures Written(s, [], x, ReadValue(s).rest) && Meaning(x) == ReadValue(s).value
  {
    x := Word(ReadValue(s).value);
    assert s == Spell(x) + ReadValue(s).rest;
  }

  lemma NumberSplits(s: Text)
    requires ReadNumber(s).Parsed?
    ensures s == ReadNumber(s).value + ReadNumber(s).rest
  {
  }

  lemma NumberIsSpelledAs(s: Text) returns (x: Syntax)
    requires s != [] && SkipSpace(s) == s && ReadValue(s).Parsed? && (s[0] == MINUS || Digit(s[0]))
    ensures Written(s, [], x, ReadValue(s).rest) && Meaning(x) == ReadValue(s).value
  {
    hide NumeralText, NumeralFits, ReadNumber;
    NumberSplits(s);
    var n := NumberIsSpelled(s);
    x := Number(n);
  }

  lemma StringIsSpelled(s: Text) returns (x: Syntax)
    requires s != [] && SkipSpace(s) == s && ReadValue(s).Parsed? && s[0] == QUOTE
    ensures Written(s, [], x, ReadValue(s).rest) && Meaning(x) == ReadValue(s).value
  {
    var pieces := QuotedIsSpelled(s);
    x := String(pieces);
  }

  lemma QuotedIsSpelled(s: Text) returns (pieces: seq<Piece>)
    requires ReadString(s).Parsed?
    ensures AllFit(pieces) && s == Quoted(pieces) + ReadString(s).rest && Units(pieces) == ReadString(s).value
  {
    hide ReadUnits, PiecesText, Units, AllFit;
    pieces := UnitsAreSpelled(s[1..]);
    assert s == [QUOTE] + s[1..];
  }

  lemma ArrayUnfolds(s: Text)
    requires s != [] && SkipSpace(s) == s && s[0] == OPEN_BRACKET
    ensures var inner := SkipSpace(s[1..]);
      ReadValue(s) == if inner != [] && inner[0] == CLOSE_BRACKET then Parsed(NArr([]), inner[1..]) else ReadElements(s[1..], [])
  {
    ElementsSkip(s[1..], []);
    hide ReadElements;
  }

  lemma ObjectUnfolds(s: Text)
    requires s != [] && SkipSpace(s) == s && s[0] == OPEN_BRACE
    ensures var inner := SkipSpace(s[1..]);
      ReadValue(s) == if inner != [] && inner[0] == CLOSE_BRACE then Parsed(NObj([]), inner[1..]) else ReadFields(s[1..], [])
  {
    FieldsSkip(s[1..], []);
    hide ReadFields;
  }

  lemma ArrayIsSpelled(s: Text) returns (x: Syntax)
    requires s != [] && SkipSpace(s) == s && ReadValue(s).Parsed? && s[0] == OPEN_BRACKET
    ensures Written(s, [], x, ReadValue(s).rest) && Meaning(x) == ReadValue(s).value
    decreases |s|, 0
  {
    hide ReadValue, ReadElements, SkipSpace;
    ArrayUnfolds(s);
    var inner := SkipSpace(s[1..]);
    assert s == [OPEN_BRACKET] + s[1..];
    if inner != [] && inner[0] == CLOSE_BRACKET {
      var pad := SkippedAreSpaces(s[1..]);
      x := EmptyArray(pad);
      assert inner == [CLOSE_BRACKET] + inner[1..];
    } else {
      hide SpellItems, ItemsFit, ItemsMean;
      var xs := ElementsAreSpelled(s[1..], []);
      x := Array(xs);
      assert [] + ItemsMean(xs) == ItemsMean(xs);
    }
  }

  lemma ObjectIsSpelled(s: Text) returns (x: Syntax)
    requires s != [] && SkipSpace(s) == s && ReadValue(s).Parsed? && s[0] == OPEN_BRACE
    ensures Written(s, [], x, ReadValue(s).rest) && Meaning(x) == ReadValue(s).value
    decreases |s|, 0
  {
    hide ReadValue, ReadFields, SkipSpace;
    ObjectUnfolds(s);
    var inner := SkipSpace(s[1..]);
    assert s == [OPEN_BRACE] + s[1..];
    if inner != [] && inner[0] == CLOSE_BRACE {
      var pad := SkippedAreSpaces(s[1..]);
      x := EmptyObject(pad);
      assert inner == [CLOSE_BRACE] + inner[1..];
    } else {
      hide SpellMembers, MembersFit, MembersMean;
      var xs := FieldsAreSpelled(s[1..], []);
      x := Object(xs);
    }
  }

  /** An item of a list, up to the comma or the end. */
  lemma ItemIsSpelled(text: Text) returns (x: Item)
    requires ReadValue(text).Parsed?
    ensures ItemFits(x) && text == SpellItem(x) + SkipSpace(ReadValue(text).rest) && Meaning(x.value) == ReadValue(text).value
    decreases |text|, 2
  {
    hide ReadValue, SkipSpace, Fits, Spell, Meaning;
    var pad, value := ValueIsSpelled(text);
    var after := SkippedAreSpaces(ReadValue(text).rest);
    x := Item(pad, value, after);
  }

  ghost predicate ItemsWritten(xs: Items, text: Text, before: seq<Node>, r: Parsed<Node>) {
    && r.Parsed? && ItemsFit(xs) && text == SpellItems(xs) + [CLOSE_BRACKET] + r.rest
    && r.value == NArr(before + ItemsMean(xs))
  }

  lemma MoreItemsAre(x: Item, xs: Items)
    requires ItemFits(x) && ItemsFit(xs)
    ensures ItemsFit(MoreItems(x, xs)) && SpellItems(MoreItems(x, xs)) == SpellItem(x) + ([COMMA] + SpellItems(xs))
    ensures ItemsMean(MoreItems(x, xs)) == [Meaning(x.value)] + ItemsMean(xs)
  {
    hide SpellItem, Meaning;
  }

  lemma TextGrows(first: Text, more: Text, s: Text, rest: Text)
    requires s != [] && s[0] == COMMA && s[1..] == more + [CLOSE_BRACKET] + rest
    ensures first + s == first + ([COMMA] + more) + [CLOSE_BRACKET] + rest
  {
    assert s == [COMMA] + s[1..];
  }

  lemma NodesGrow(before: seq<Node>, value: Node, more: seq<Node>)
    ensures before + [value] + more == before + ([value] + more)
  {
  }

  lemma ItemsGrow(x: Item, xs: Items, s: Text, before: seq<Node>, r: Parsed<Node>)
    requires ItemFits(x) && s != [] && s[0] == COMMA && ItemsWritten(xs, s[1..], before + [Meaning(x.value)], r)
    ensures ItemsWritten(MoreItems(x, xs), SpellItem(x) + s, before, r)
  {
    hide SpellItem, Meaning, SpellItems, ItemsMean, ItemsFit, Fits, Spaces;
    MoreItemsAre(x, xs);
    TextGrows(SpellItem(x), SpellItems(xs), s, r.rest);
    NodesGrow(before, Meaning(x.value), ItemsMean(xs));
  }

  lemma ItemsEnd(x: Item, s: Text, before: seq<Node>)
    requires ItemFits(x) && s != [] && s[0] == CLOSE_BRACKET
    ensures ItemsWritten(LastItem(x), SpellItem(x) + s, before, Parsed(NArr(before + [Meaning(x.value)]), s[1..]))
  {
    hide SpellItem, Meaning;
    assert s == [CLOSE_BRACKET] + s[1..];
    assert before + [Meaning(x.value)] == before + ItemsMean(LastItem(x));
  }

  lemma ElementsAreSpelled(text: Text, before: seq<Node>) returns (xs: Items)
    requires ReadElements(text, before).Parsed?
    ensures ItemsWritten(xs, text, before, ReadElements(text, before))
    decreases |text|, 3
  {
    hide ReadValue, ReadElements, SkipSpace, SpellItem, ItemFits, Fits, Meaning, ItemsWritten;
    ElementsGoOn(text, before);
    var value, after := ReadValue(text).value, ReadValue(text).rest;
    var s := SkipSpace(after);
    ElementStep(text, before, value, after);
    var x := ItemIsSpelled(text);
    if s[0] == COMMA {
      var rest := ElementsAreSpelled(s[1..], before + [value]);
      ItemsGrow(x, rest, s, before, ReadElements(text, before));
      xs := MoreItems(x, rest);
    } else {
      ItemsEnd(x, s, before);
      xs := LastItem(x);
    }
  }

  lemma ElementsGoOn(text: Text, before: seq<Node>)
    requires ReadElements(text, before).Parsed?
    ensures ReadValue(text).Parsed?
    ensures var s := SkipSpace(ReadValue(text).rest); s != [] && (s[0] == COMMA || s[0] == CLOSE_BRACKET)
  {
    hide ReadValue, SkipSpace;
  }

  lemma MemberIsSpelled(text: Text) returns (x: Member)
    requires ReadString(SkipSpace(text)).Parsed?
    requires var colon := SkipSpace(ReadString(SkipSpace(text)).rest);
      colon != [] && colon[0] == COLON && ReadValue(colon[1..]).Parsed? && |colon| <= |text|
    ensures ItemFits(x.item)
    ensures var quoted := ReadString(SkipSpace(text));
      var value := ReadValue(SkipSpace(quoted.rest)[1..]);
      && MemberFits(x) && text == SpellMember(x) + SkipSpace(value.rest)
      && Units(x.key) == quoted.value && Meaning(x.item.value) == value.value
    decreases |text|, 1
  {
    hide ReadValue, SkipSpace, Fits, Spell, Meaning, ReadString, AllFit, Units, Quoted, SpellItem, Spaces;
    var before := SkippedAreSpaces(text);
    var quoted := ReadString(SkipSpace(text));
    var key := QuotedIsSpelled(SkipSpace(text));
    var between := SkippedAreSpaces(quoted.rest);
    var colon := SkipSpace(quoted.rest);
    var item := ItemIsSpelled(colon[1..]);
    x := Member(before, key, between, item);
    MemberJoins(before, Quoted(key), between, colon, SpellItem(item), SkipSpace(ReadValue(colon[1..]).rest));
  }

  lemma MemberJoins(before: Text, key: Text, between: Text, colon: Text, item: Text, rest: Text)
    requires colon != [] && colon[0] == COLON && colon[1..] == item + rest
    ensures before + (key + (between + colon)) == before + key + between + [COLON] + item + rest
  {
    assert colon == [COLON] + colon[1..];
  }

  ghost predicate MembersWritten(xs: Members, text: Text, before: seq<(Text, Node)>, r: Parsed<Node>) {
    && r.Parsed? && MembersFit(xs) && text == SpellMembers(xs) + [CLOSE_BRACE] + r.rest
    && r.value == NObj(MembersMean(xs, before))
  }

  lemma MembersGrow(x: Member, xs: Members, s: Text, before: seq<(Text, Node)>, r: Parsed<Node>)
    requires MemberFits(x) && ItemFits(x.item) && s != [] && s[0] == COMMA
    requires MembersWritten(xs, s[1..], SetField(before, Units(x.key), Meaning(x.item.value)), r)
    ensures MembersWritten(MoreMembers(x, xs), SpellMember(x) + s, before, r)
  {
    hide SpellMember, Meaning, Units, SetField;
    assert s == [COMMA] + s[1..];
  }

  lemma MembersEnd(x: Member, s: Text, before: seq<(Text, Node)>)
    requires MemberFits(x) && ItemFits(x.item) && s != [] && s[0] == CLOSE_BRACE
    ensures MembersWritten(LastMember(x), SpellMember(x) + s, before,
                           Parsed(NObj(SetField(before, Units(x.key), Meaning(x.item.value))), s[1..]))
  {
    hide SpellMember, Meaning, Units, SetField;
    assert s == [CLOSE_BRACE] + s[1..];
  }

  lemma FieldsGoOn(text: Text, before: seq<(Text, Node)>)
    requires ReadFields(text, before).Parsed?
    ensures ReadString(SkipSpace(text)).Parsed?
    ensures var colon := SkipSpace(ReadString(SkipSpace(text)).rest);
      && colon != [] && colon[0] == COLON && |colon| <= |text| && ReadValue(colon[1..]).Parsed?
      && var s := SkipSpace(ReadValue(colon[1..]).rest); s != [] && |s| < |text| && (s[0] == COMMA || s[0] == CLOSE_BRACE)
  {
    hide ReadValue, SkipSpace, ReadString;
  }

  lemma FieldsAreSpelled(text: Text, before: seq<(Text, Node)>) returns (xs: Members)
    requires ReadFields(text, before).Parsed?
    ensures MembersWritten(xs, text, before, ReadFields(text, before))
    decreases |text|, 3
  {
    hide ReadValue, ReadFields, SkipSpace, SpellMember, MemberFits, Fits, Meaning, ReadString, SetField, Units, MembersWritten;
    FieldsGoOn(text, before);
    var quoted := ReadString(SkipSpace(text));
    var colon := SkipSpace(quoted.rest);
    var value, after := ReadValue(colon[1..]).value, ReadValue(colon[1..]).rest;
    var s := SkipSpace(after);
    FieldStep(text, before, quoted.value, quoted.rest, value, after);
    var x := MemberIsSpelled(text);
    if s[0] == COMMA {
      var rest := FieldsAreSpelled(s[1..], SetField(before, quoted.value, value));
      MembersGrow(x, rest, s, before, ReadFields(text, before));
      xs := MoreMembers(x, rest);
    } else {
      MembersEnd(x, s, before);
      xs := LastMember(x);
    }
  }

  /** The text spells a syntax tree of this meaning, with white space around it. */
  ghost predicate Denotes(text: Text, node: Node) {
    exists before, x, after :: Spaces(before) && Fits(x) && Spaces(after) && text == before + Spell(x) + after && Meaning(x) == node
  }

  /** `parseRaw` accepts a text exactly when some syntax tree, with white space around it, is
      written like that, and gives what that tree means. */
  lemma ParsesExactly(text: Text, node: Node)
    ensures Parse(text) == Tree(node) <==> Denotes(text, node)
  {
    hide ReadValue, SkipSpace, Fits, Spell, Meaning, Spaces;
    var value := ReadValue(text);
    if Parse(text) == Tree(node) {
      var before, x := ValueIsSpelled(text);
      OnlySpaces(value.rest);
      assert text == before + Spell(x) + value.rest;
    }
    forall before, x, after | Spaces(before) && Fits(x) && Spaces(after) && text == before + Spell(x) + after && Meaning(x) == node
      ensures Parse(text) == Tree(node)
    {
      TextIsRead(before, x, after);
    }
  }

  lemma TextIsRead(before: Text, x: Syntax, after: Text)
    requires Spaces(before) && Fits(x) && Spaces(after)
    ensures Parse(before + Spell(x) + after) == Tree(Meaning(x))
  {
    hide ReadValue, Fits, Spell, Meaning;
    assert after + [] == after;
    PadFollows(x, after, []);
    ValueIsRead(x, after);
    SpellStarts(x);
    SpacesAreSkipped(before, Spell(x) + after);
    assert before + Spell(x) + after == before + (Spell(x) + after);
    SkippedReadsTheSame(before + Spell(x) + after);
    OnlySpaces(after);
  }
}
