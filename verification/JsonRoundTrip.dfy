/** Reading what was printed gives the tree back. */
module JsonRoundTrip {
  import opened JsonText
  import opened JsonTree

  // ---- The trees ------------------------------------------------------

  predicate DistinctKeys(fields: seq<(Text, Node)>) {
    forall i, j :: 0 <= i < j < |fields| ==> fields[i].0 != fields[j].0
  }

  /** Integer tokens, distinct keys, and no key with a special meaning. */
  predicate Valid(t: Node)
    decreases t
  {
    match t
    case NNum(token) => IsInteger(token)
    case NArr(elements) => forall i :: 0 <= i < |elements| ==> Valid(elements[i])
    case NObj(fields) =>
      && DistinctKeys(fields) && !HasKey(fields, DOLLAR_NUM) && !HasKey(fields, PROTO)
      && forall i :: 0 <= i < |fields| ==> Valid(fields[i].1)
    case _ => true
  }

  /** No string and no key holds the literal text of a separator's escape. */
  predicate Sound(t: Node)
    decreases t
  {
    match t
    case NStr(text) => !HoldsLiteral(text)
    case NArr(elements) => forall i :: 0 <= i < |elements| ==> Sound(elements[i])
    case NObj(fields) => forall i :: 0 <= i < |fields| ==> !HoldsLiteral(fields[i].0) && Sound(fields[i].1)
    case _ => true
  }

  function MapValues<X, Y>(fields: seq<(Text, X)>, f: X -> Y): (mapped: seq<(Text, Y)>)
    ensures |mapped| == |fields|
    ensures forall i :: 0 <= i < |fields| ==> mapped[i] == (fields[i].0, f(fields[i].1))
  {
    seq(|fields|, i requires 0 <= i < |fields| => (fields[i].0, f(fields[i].1)))
  }

  /** The same tree with the fields of every object in key order. */
  function Normal(t: Node): Node
    decreases t
  {
    match t
    case NArr(elements) => NArr(seq(|elements|, i requires 0 <= i < |elements| => Normal(elements[i])))
    case NObj(fields) =>
      NObj(SortFields(seq(|fields|, i requires 0 <= i < |fields| => (fields[i].0, Normal(fields[i].1)))))
    case _ => t
  }

  // ---- Sorting ---------------------------------------------------------

  lemma {:induction false} InsertMaps<X, Y>(field: (Text, X), fields: seq<(Text, X)>, f: X -> Y)
    ensures InsertField((field.0, f(field.1)), MapValues(fields, f)) == MapValues(InsertField(field, fields), f)
  {
    if fields != [] && !KeyLess(field.0, fields[0].0) {
      InsertMaps(field, fields[1..], f);
      assert MapValues(fields, f)[1..] == MapValues(fields[1..], f);
    }
  }

  /** Sorting looks at keys only. */
  lemma {:induction false} SortMaps<X, Y>(fields: seq<(Text, X)>, f: X -> Y)
    ensures SortFields(MapValues(fields, f)) == MapValues(SortFields(fields), f)
  {
    if fields != [] {
      var n := |fields| - 1;
      SortMaps(fields[..n], f);
      assert MapValues(fields, f)[..n] == MapValues(fields[..n], f);
      InsertMaps(fields[n], SortFields(fields[..n]), f);
    }
  }

  lemma {:induction false} InsertKeeps<X>(field: (Text, X), fields: seq<(Text, X)>)
    ensures multiset(InsertField(field, fields)) == multiset(fields) + multiset{field}
  {
    if fields != [] {
      assert fields == [fields[0]] + fields[1..];
      if !KeyLess(field.0, fields[0].0) {
        InsertKeeps(field, fields[1..]);
      }
    }
  }

  lemma {:induction false} SortKeeps<X>(fields: seq<(Text, X)>)
    ensures multiset(SortFields(fields)) == multiset(fields)
  {
    if fields != [] {
      var n := |fields| - 1;
      SortKeeps(fields[..n]);
      InsertKeeps(fields[n], SortFields(fields[..n]));
      assert fields == fields[..n] + [fields[n]];
    }
  }

  lemma SortedFieldFrom<X>(fields: seq<(Text, X)>, i: nat) returns (j: nat)
    requires i < |fields|
    ensures j < |fields| && fields[j] == SortFields(fields)[i]
  {
    SortKeeps(fields);
    var field := SortFields(fields)[i];
    assert field in multiset(SortFields(fields));
    assert field in multiset(fields);
    j :| 0 <= j < |fields| && fields[j] == field;
  }

  lemma FieldSortedTo<X>(fields: seq<(Text, X)>, j: nat) returns (i: nat)
    requires j < |fields|
    ensures i < |fields| && SortFields(fields)[i] == fields[j]
  {
    SortKeeps(fields);
    assert fields[j] in multiset(fields);
    assert fields[j] in multiset(SortFields(fields));
    i :| 0 <= i < |fields| && SortFields(fields)[i] == fields[j];
  }

  // ---- Numbers ---------------------------------------------------------

  /** What may follow a value inside a text. */
  predicate Ends(rest: Text) {
    rest == [] || rest[0] == COMMA || rest[0] == CLOSE_BRACKET || rest[0] == CLOSE_BRACE
  }

  lemma {:induction false} RunStops(s: Text, rest: Text)
    requires DigitRun(s) == |s| && (rest == [] || !Digit(rest[0]))
    ensures DigitRun(s + rest) == |s|
  {
    if s == [] {
      assert s + rest == rest;
    } else {
      assert (s + rest)[1..] == s[1..] + rest;
      RunStops(s[1..], rest);
    }
  }

  lemma IntegerStops(token: Text, rest: Text)
    requires IsInteger(token) && Ends(rest)
    ensures IntegerLength(token + rest) == |token|
  {
    var s := token + rest;
    var sign := if token[0] == MINUS then 1 else 0;
    assert s[sign..] == token[sign..] + rest;
    if token[sign] != ZERO {
      RunStops(token[sign..], rest);
    }
  }

  lemma NumberReads(token: Text, rest: Text)
    requires IsInteger(token) && Ends(rest)
    ensures ReadNumber(token + rest) == Parsed(token, rest)
  {
    IntegerStops(token, rest);
    var s := token + rest;
    assert s[|token|..] == rest && s[..|token|] == token;
    assert FractionLength(rest) == 0 && ExponentLength(rest) == 0;
  }

  // ---- Printing --------------------------------------------------------

  function Printer(pyFloat: Text -> Text): Node -> Text {
    n => Print(n, pyFloat)
  }

  function PrintAll(elements: seq<Node>, pyFloat: Text -> Text): (texts: seq<Text>)
    ensures |texts| == |elements| && forall i :: 0 <= i < |elements| ==> texts[i] == Print(elements[i], pyFloat)
  {
    seq(|elements|, i requires 0 <= i < |elements| => Print(elements[i], pyFloat))
  }

  lemma ArrayPrints(elements: seq<Node>, pyFloat: Text -> Text)
    ensures Print(NArr(elements), pyFloat) == [OPEN_BRACKET] + JoinTexts(PrintAll(elements, pyFloat)) + [CLOSE_BRACKET]
  {
    assert PrintAll(elements, pyFloat) == seq(|elements|, i requires 0 <= i < |elements| => Print(elements[i], pyFloat));
  }

  /** An object prints its fields in key order, whatever order they were inserted in. */
  lemma ObjectPrints(fields: seq<(Text, Node)>, pyFloat: Text -> Text)
    requires !HasKey(fields, DOLLAR_NUM)
    ensures Print(NObj(fields), pyFloat) ==
            [OPEN_BRACE] + JoinTexts(FieldTexts(MapValues(SortFields(fields), Printer(pyFloat)))) + [CLOSE_BRACE]
  {
    SortMaps(fields, Printer(pyFloat));
    assert MapValues(fields, Printer(pyFloat))
        == seq(|fields|, i requires 0 <= i < |fields| => (fields[i].0, Print(fields[i].1, pyFloat)));
  }

  lemma ObjectNormal(fields: seq<(Text, Node)>)
    ensures Normal(NObj(fields)) == NObj(MapValues(SortFields(fields), Normal))
  {
    SortMaps(fields, Normal);
    assert MapValues(fields, Normal) == seq(|fields|, i requires 0 <= i < |fields| => (fields[i].0, Normal(fields[i].1)));
  }

  /** No printed value starts with white space or a closing bracket. */
  lemma PrintStarts(t: Node, pyFloat: Text -> Text)
    requires Valid(t)
    ensures Print(t, pyFloat) != []
    ensures var c := Print(t, pyFloat)[0]; !JsonSpace(c) && c != CLOSE_BRACKET && c != CLOSE_BRACE
  {
    match t
    case NStr(text) => EscapeStringWrites(text);
    case _ =>
  }

  lemma JoinStep(texts: seq<Text>, i: nat)
    requires i < |texts|
    ensures JoinTexts(texts[i..]) == texts[i] + if i + 1 < |texts| then [COMMA] + JoinTexts(texts[i + 1..]) else []
  {
    assert texts[i..][0] == texts[i] && texts[i..][1..] == texts[i + 1..];
  }

  lemma NoSpace(s: Text)
    requires s == [] || !JsonSpace(s[0])
    ensures SkipSpace(s) == s
  {
  }

  // ---- Reading a printed tree ------------------------------------------

  function Expected(t: Node, rest: Text): Parsed<Node> {
    if Sound(t) then Parsed(Normal(t), rest) else Bad
  }

  lemma ElementsUnfold(text: Text, before: seq<Node>)
    ensures ReadElements(text, before) ==
            (var value := ReadValue(text);
             if value.Bad? then Bad
             else
               var s := SkipSpace(value.rest);
               if s != [] && s[0] == COMMA then ReadElements(s[1..], before + [value.value])
               else if s != [] && s[0] == CLOSE_BRACKET then Parsed(NArr(before + [value.value]), s[1..])
               else Bad)
  {
  }

  lemma FieldsUnfold(text: Text, before: seq<(Text, Node)>, key: Text, after: Text)
    requires ReadString(SkipSpace(text)) == Parsed(key, [COLON] + after)
    ensures ReadFields(text, before) ==
            (var value := ReadValue(after);
             if value.Bad? then Bad
             else
               var s := SkipSpace(value.rest);
               var fields := SetField(before, key, value.value);
               if s != [] && s[0] == COMMA then ReadFields(s[1..], fields)
               else if s != [] && s[0] == CLOSE_BRACE then Parsed(NObj(fields), s[1..])
               else Bad)
  {
    NoSpace([COLON] + after);
    assert ([COLON] + after)[1..] == after;
  }

  lemma BadKeyStops(text: Text, before: seq<(Text, Node)>)
    requires ReadString(SkipSpace(text)) == Bad
    ensures ReadFields(text, before) == Bad
  {
  }

  lemma ArrayStarts(inner: Text)
    requires inner != [] && !JsonSpace(inner[0]) && inner[0] != CLOSE_BRACKET
    ensures ReadValue([OPEN_BRACKET] + inner) == ReadElements(inner, [])
  {
    var s := [OPEN_BRACKET] + inner;
    NoSpace(s);
    NoSpace(inner);
    assert s[1..] == inner;
  }

  lemma ObjectStarts(inner: Text)
    requires inner != [] && !JsonSpace(inner[0]) && inner[0] != CLOSE_BRACE
    ensures ReadValue([OPEN_BRACE] + inner) == ReadFields(inner, [])
  {
    var s := [OPEN_BRACE] + inner;
    NoSpace(s);
    NoSpace(inner);
    assert s[1..] == inner;
  }

  lemma EmptyReads(rest: Text)
    ensures ReadValue([OPEN_BRACKET, CLOSE_BRACKET] + rest) == Parsed(NArr([]), rest)
    ensures ReadValue([OPEN_BRACE, CLOSE_BRACE] + rest) == Parsed(NObj([]), rest)
  {
    var a, o := [OPEN_BRACKET, CLOSE_BRACKET] + rest, [OPEN_BRACE, CLOSE_BRACE] + rest;
    NoSpace(a);
    NoSpace(o);
    assert a[1..] == [CLOSE_BRACKET] + rest && o[1..] == [CLOSE_BRACE] + rest;
    NoSpace(a[1..]);
    NoSpace(o[1..]);
    assert a[1..][1..] == rest && o[1..][1..] == rest;
  }

  lemma LiteralReads(word: Text, rest: Text)
    requires word == NULL || word == TRUE || word == FALSE
    ensures ReadValue(word + rest) == Parsed(if word == NULL then NNull else if word == TRUE then NTrue else NFalse, rest)
  {
    var s := word + rest;
    NoSpace(s);
    assert s[..|word|] == word && s[|word|..] == rest;
  }

  lemma StringReads(text: Text, rest: Text)
    ensures ReadValue(EscapeString(text) + rest) == if HoldsLiteral(text) then Bad else Parsed(NStr(text), rest)
  {
    EscapeStringWrites(text);
    StringRoundTrip(text, rest);
    var s := EscapeString(text) + rest;
    assert s[0] == QUOTE;
    NoSpace(s);
    hide EscapeString, ReadString;
  }

  lemma TokenReads(token: Text, rest: Text)
    requires IsInteger(token) && Ends(rest)
    ensures ReadValue(token + rest) == Parsed(NNum(token), rest)
  {
    NumberReads(token, rest);
    var s := token + rest;
    assert s[0] == token[0] && (token[0] == MINUS || Digit(token[0]));
    NoSpace(s);
    hide ReadNumber, IsInteger, IntegerLength;
  }

  /** What follows element `i` of a printed list. */
  function After(texts: seq<Text>, i: nat, close: Unit, rest: Text): Text
    requires i < |texts|
  {
    (if i + 1 < |texts| then [COMMA] + JoinTexts(texts[i + 1..]) else []) + [close] + rest
  }

  lemma AfterEnds(texts: seq<Text>, i: nat, close: Unit, rest: Text)
    requires i < |texts| && (close == CLOSE_BRACKET || close == CLOSE_BRACE)
    ensures Ends(After(texts, i, close, rest)) && SkipSpace(After(texts, i, close, rest)) == After(texts, i, close, rest)
    ensures JoinTexts(texts[i..]) + [close] + rest == texts[i] + After(texts, i, close, rest)
    ensures var after := After(texts, i, close, rest);
      if i + 1 < |texts| then after[0] == COMMA && after[1..] == JoinTexts(texts[i + 1..]) + [close] + rest
      else after[0] == close && after[1..] == rest
  {
    JoinStep(texts, i);
    NoSpace(After(texts, i, close, rest));
  }

  function Normals(elements: seq<Node>): (normals: seq<Node>)
    ensures |normals| == |elements| && forall i :: 0 <= i < |elements| ==> normals[i] == Normal(elements[i])
  {
    seq(|elements|, i requires 0 <= i < |elements| => Normal(elements[i]))
  }

  predicate SoundFrom(elements: seq<Node>, i: nat) {
    forall j :: i <= j < |elements| ==> Sound(elements[j])
  }

  /** The elements of a printed array, from the `i`th on. */
  lemma {:induction false} ElementsRead(t: Node, i: nat, rest: Text, pyFloat: Text -> Text)
    requires t.NArr? && Valid(t) && i < |t.elements| && Ends(rest)
    ensures ReadElements(JoinTexts(PrintAll(t.elements, pyFloat)[i..]) + [CLOSE_BRACKET] + rest, Normals(t.elements)[..i]) ==
            if SoundFrom(t.elements, i) then Parsed(NArr(Normals(t.elements)), rest) else Bad
    decreases t, |t.elements| - i
  {
    hide ReadElements, Print, Normal, After, Ends, Sound;
    var es, texts := t.elements, PrintAll(t.elements, pyFloat);
    var after := After(texts, i, CLOSE_BRACKET, rest);
    var before := Normals(es)[..i];
    AfterEnds(texts, i, CLOSE_BRACKET, rest);
    ValueReads(es[i], after, pyFloat);
    ElementsUnfold(texts[i] + after, before);
    assert Normals(es)[..i + 1] == before + [Normal(es[i])];
    if i + 1 < |es| {
      ElementsRead(t, i + 1, rest, pyFloat);
      assert SoundFrom(es, i) <==> Sound(es[i]) && SoundFrom(es, i + 1);
    } else {
      assert Normals(es)[..i + 1] == Normals(es);
      assert SoundFrom(es, i) <==> Sound(es[i]);
    }
  }

  predicate SoundFields(fields: seq<(Text, Node)>, i: nat) {
    forall j :: i <= j < |fields| ==> !HoldsLiteral(fields[j].0) && Sound(fields[j].1)
  }

  lemma {:induction false} SetAppends(fields: seq<(Text, Node)>, key: Text, value: Node)
    requires key != PROTO && !HasKey(fields, key)
    ensures SetField(fields, key, value) == fields + [(key, value)]
  {
    if fields != [] {
      assert !HasKey(fields[1..], key);
      SetAppends(fields[1..], key, value);
    }
  }

  lemma SortedKeys(fields: seq<(Text, Node)>, i: nat)
    requires Valid(NObj(fields)) && i < |fields|
    ensures SortFields(fields)[i].0 != PROTO
    ensures !HasKey(MapValues(SortFields(fields), Normal)[..i], SortFields(fields)[i].0)
    ensures Valid(SortFields(fields)[i].1) && SortFields(fields)[i].1 < NObj(fields)
  {
    var j := SortedFieldFrom(fields, i);
    assert !HasKey(fields, PROTO);
    assert fields[j].1 < NObj(fields);
    SortedDistinct(fields);
  }

  lemma {:induction false} InsertKeys(field: (Text, Node), fields: seq<(Text, Node)>, key: Text)
    ensures HasKey(InsertField(field, fields), key) <==> key == field.0 || HasKey(fields, key)
  {
    if fields == [] || KeyLess(field.0, fields[0].0) {
      var sorted := InsertField(field, fields);
      assert sorted == [field] + fields;
      assert forall i :: 0 <= i < |fields| ==> sorted[i + 1] == fields[i];
      if HasKey(fields, key) {
        var i :| 0 <= i < |fields| && fields[i].0 == key;
        assert sorted[i + 1].0 == key;
      }
      assert sorted[0].0 == field.0;
    } else {
      InsertKeys(field, fields[1..], key);
      HasKeyCons(fields, key);
      HasKeyCons(InsertField(field, fields), key);
    }
  }

  lemma HasKeyCons(fields: seq<(Text, Node)>, key: Text)
    requires fields != []
    ensures HasKey(fields, key) <==> fields[0].0 == key || HasKey(fields[1..], key)
  {
    if HasKey(fields[1..], key) {
      var i :| 0 <= i < |fields[1..]| && fields[1..][i].0 == key;
      assert fields[i + 1].0 == key;
    }
    if HasKey(fields, key) {
      var i :| 0 <= i < |fields| && fields[i].0 == key;
      if i > 0 {
        assert fields[1..][i - 1].0 == key;
      }
    }
  }

  lemma {:induction false} InsertDistinct(field: (Text, Node), fields: seq<(Text, Node)>)
    requires DistinctKeys(fields) && !HasKey(fields, field.0)
    ensures DistinctKeys(InsertField(field, fields))
  {
    if fields != [] && !KeyLess(field.0, fields[0].0) {
      HasKeyCons(fields, field.0);
      InsertDistinct(field, fields[1..]);
      InsertKeys(field, fields[1..], fields[0].0);
      assert !HasKey(fields[1..], fields[0].0);
    }
  }

  lemma {:induction false} SortKeys(fields: seq<(Text, Node)>, key: Text)
    ensures HasKey(SortFields(fields), key) <==> HasKey(fields, key)
  {
    if fields != [] {
      var n := |fields| - 1;
      SortKeys(fields[..n], key);
      InsertKeys(fields[n], SortFields(fields[..n]), key);
      assert HasKey(fields, key) <==> fields[n].0 == key || HasKey(fields[..n], key);
    }
  }

  lemma {:induction false} SortedDistinct(fields: seq<(Text, Node)>)
    requires DistinctKeys(fields)
    ensures DistinctKeys(SortFields(fields))
  {
    if fields != [] {
      var n := |fields| - 1;
      SortedDistinct(fields[..n]);
      SortKeys(fields[..n], fields[n].0);
      assert !HasKey(fields[..n], fields[n].0);
      InsertDistinct(fields[n], SortFields(fields[..n]));
    }
  }

  /** The fields of a printed object, from the `i`th in key order on. */
  lemma {:induction false} FieldsRead(t: Node, i: nat, rest: Text, pyFloat: Text -> Text)
    requires t.NObj? && Valid(t) && i < |t.fields| && Ends(rest)
    ensures var sorted := SortFields(t.fields);
      ReadFields(JoinTexts(FieldTexts(MapValues(sorted, Printer(pyFloat)))[i..]) + [CLOSE_BRACE] + rest, MapValues(sorted, Normal)[..i]) ==
      if SoundFields(sorted, i) then Parsed(NObj(MapValues(sorted, Normal)), rest) else Bad
    decreases t, |t.fields| - i
  {
    hide ReadFields, Print, Normal, After, Ends, Sound, Valid, SortFields, EscapeString, ReadString, HoldsLiteral, SkipSpace;
    var sorted := SortFields(t.fields);
    var texts := FieldTexts(MapValues(sorted, Printer(pyFloat)));
    var after := After(texts, i, CLOSE_BRACE, rest);
    var before, key, value := MapValues(sorted, Normal)[..i], sorted[i].0, sorted[i].1;
    AfterEnds(texts, i, CLOSE_BRACE, rest);
    SortedKeys(t.fields, i);
    var tail := Print(value, pyFloat) + after;
    FieldStarts(key, Print(value, pyFloat), after);
    assert texts[i] + after == EscapeString(key) + ([COLON] + tail);
    if HoldsLiteral(key) {
      BadKeyStops(texts[i] + after, before);
    } else {
      FieldsUnfold(texts[i] + after, before, key, tail);
      ValueReads(value, after, pyFloat);
      SetAppends(before, key, Normal(value));
      assert MapValues(sorted, Normal)[..i + 1] == before + [(key, Normal(value))];
      if i + 1 < |sorted| {
        FieldsRead(t, i + 1, rest, pyFloat);
      } else {
        assert MapValues(sorted, Normal)[..i + 1] == MapValues(sorted, Normal);
      }
    }
    assert SoundFields(sorted, i) <==> !HoldsLiteral(key) && Sound(value) && SoundFields(sorted, i + 1);
  }

  lemma FieldStarts(key: Text, printed: Text, after: Text)
    ensures var text := EscapeString(key) + ([COLON] + (printed + after));
      ReadString(SkipSpace(text)) == if HoldsLiteral(key) then Bad else Parsed(key, [COLON] + (printed + after))
    ensures FieldText((key, printed)) + after == EscapeString(key) + ([COLON] + (printed + after))
  {
    hide EscapeString, ReadString, SkipSpace, HoldsLiteral, Written;
    EscapeStringWrites(key);
    StringRoundTrip(key, [COLON] + (printed + after));
    var text := EscapeString(key) + ([COLON] + (printed + after));
    assert text[0] == QUOTE;
    NoSpace(text);
  }

  lemma SoundSorted(fields: seq<(Text, Node)>)
    ensures SoundFields(SortFields(fields), 0) <==> Sound(NObj(fields))
  {
    hide Sound;
    forall j | 0 <= j < |fields| && SoundFields(SortFields(fields), 0) ensures !HoldsLiteral(fields[j].0) && Sound(fields[j].1) {
      var i := FieldSortedTo(fields, j);
    }
    forall i | 0 <= i < |fields| && SoundFields(fields, 0)
      ensures !HoldsLiteral(SortFields(fields)[i].0) && Sound(SortFields(fields)[i].1)
    {
      var j := SortedFieldFrom(fields, i);
    }
    assert Sound(NObj(fields)) <==> SoundFields(fields, 0) by { SoundObject(fields); }
  }

  lemma SoundObject(fields: seq<(Text, Node)>)
    ensures Sound(NObj(fields)) <==> SoundFields(fields, 0)
  {
  }

  /** A printed value reads back in normal form, or not at all. */
  lemma {:induction false} ValueReads(t: Node, rest: Text, pyFloat: Text -> Text)
    requires Valid(t) && Ends(rest)
    ensures ReadValue(Print(t, pyFloat) + rest) == Expected(t, rest)
    decreases t
  {
    match t
    case NNull => LiteralReads(NULL, rest);
    case NTrue => LiteralReads(TRUE, rest);
    case NFalse => LiteralReads(FALSE, rest);
    case NStr(text) => StringReads(text, rest);
    case NNum(token) => TokenReads(token, rest);
    case NArr(elements) => ArrayReads(t, rest, pyFloat);
    case NObj(fields) => ObjectReads(t, rest, pyFloat);
  }

  lemma ArrayNormal(elements: seq<Node>)
    ensures Normal(NArr(elements)) == NArr(Normals(elements))
    ensures Sound(NArr(elements)) <==> SoundFrom(elements, 0)
  {
    assert Normals(elements) == seq(|elements|, i requires 0 <= i < |elements| => Normal(elements[i]));
  }

  lemma ArrayOpens(es: seq<Node>, rest: Text, pyFloat: Text -> Text)
    requires es != [] && Valid(NArr(es))
    ensures ReadValue(Print(NArr(es), pyFloat) + rest) ==
            ReadElements(JoinTexts(PrintAll(es, pyFloat)[0..]) + [CLOSE_BRACKET] + rest, Normals(es)[..0])
  {
    hide ReadValue, ReadElements, Print, JoinTexts, After, Normal, Ends, SkipSpace;
    var texts := PrintAll(es, pyFloat);
    var inner := JoinTexts(texts) + [CLOSE_BRACKET] + rest;
    ArrayPrints(es, pyFloat);
    assert Valid(es[0]);
    PrintStarts(es[0], pyFloat);
    AfterEnds(texts, 0, CLOSE_BRACKET, rest);
    assert texts[0..] == texts;
    assert inner[0] == texts[0][0];
    ArrayStarts(inner);
    assert Print(NArr(es), pyFloat) + rest == [OPEN_BRACKET] + inner;
    assert texts[0..] == texts && Normals(es)[..0] == [];
  }

  lemma {:induction false} ArrayReads(t: Node, rest: Text, pyFloat: Text -> Text)
    requires t.NArr? && Valid(t) && Ends(rest)
    ensures ReadValue(Print(t, pyFloat) + rest) == Expected(t, rest)
    decreases t, |t.elements| + 1
  {
    ArrayNormal(t.elements);
    ArrayPrints(t.elements, pyFloat);
    hide ReadValue, ReadElements, Print, Normal, Sound, Valid;
    if t.elements == [] {
      EmptyReads(rest);
      assert Print(t, pyFloat) + rest == [OPEN_BRACKET, CLOSE_BRACKET] + rest;
    } else {
      ArrayOpens(t.elements, rest, pyFloat);
      ElementsRead(t, 0, rest, pyFloat);
    }
  }

  lemma ObjectOpens(fields: seq<(Text, Node)>, rest: Text, pyFloat: Text -> Text)
    requires fields != [] && !HasKey(fields, DOLLAR_NUM)
    ensures var sorted := SortFields(fields);
      ReadValue(Print(NObj(fields), pyFloat) + rest) ==
      ReadFields(JoinTexts(FieldTexts(MapValues(sorted, Printer(pyFloat)))[0..]) + [CLOSE_BRACE] + rest, MapValues(sorted, Normal)[..0])
  {
    hide ReadValue, ReadFields, Print, JoinTexts, After, SortFields, EscapeString, HasKey;
    var sorted := SortFields(fields);
    var texts := FieldTexts(MapValues(sorted, Printer(pyFloat)));
    var inner := JoinTexts(texts) + [CLOSE_BRACE] + rest;
    ObjectPrints(fields, pyFloat);
    assert texts[0..] == texts && MapValues(sorted, Normal)[..0] == [];
    AfterEnds(texts, 0, CLOSE_BRACE, rest);
    EscapeStringWrites(sorted[0].0);
    assert inner[0] == texts[0][0] == QUOTE;
    ObjectStarts(inner);
    assert Print(NObj(fields), pyFloat) + rest == [OPEN_BRACE] + inner;
  }

  lemma {:induction false} ObjectReads(t: Node, rest: Text, pyFloat: Text -> Text)
    requires t.NObj? && Valid(t) && Ends(rest)
    ensures ReadValue(Print(t, pyFloat) + rest) == Expected(t, rest)
    decreases t, |t.fields| + 1
  {
    ObjectPrints(t.fields, pyFloat);
    ObjectNormal(t.fields);
    SoundSorted(t.fields);
    hide ReadValue, ReadFields, Print, Normal, Sound, SortFields;
    if t.fields == [] {
      EmptyReads(rest);
      assert Print(t, pyFloat) + rest == [OPEN_BRACE, CLOSE_BRACE] + rest;
    } else {
      ObjectOpens(t.fields, rest, pyFloat);
      FieldsRead(t, 0, rest, pyFloat);
    }
  }

  // ---- The laws --------------------------------------------------------

  /** Parsing what was printed consumes all of it and returns the tree, its fields in key
      order, exactly when no string or key holds the text of a separator's escape. */
  lemma RoundTrip(t: Node, pyFloat: Text -> Text)
    requires Valid(t)
    ensures Parse(Print(t, pyFloat)) == if Sound(t) then Tree(Normal(t)) else Invalid
  {
    ValueReads(t, [], pyFloat);
    assert Print(t, pyFloat) + [] == Print(t, pyFloat);
  }
}
