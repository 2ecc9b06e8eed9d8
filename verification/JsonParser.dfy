/** The parser as it runs: one position advancing over the text. */
module JsonParser {
  import opened JsonText
  import opened JsonTree
  import JsonSyntax

  /** What a step yields, when it does not fail. */
  datatype Step<+T> = Done(value: T) | Failed

  class Parser {
    const text: Text
    var pos: nat

    constructor (text: Text)
      ensures this.text == text && pos == 0
    {
      this.text, pos := text, 0;
    }

    function Rest(): Text
      requires pos <= |text|
      reads this
    {
      text[pos..]
    }

    method SkipWs()
      requires pos <= |text|
      modifies this
      ensures old(pos) <= pos <= |text| && Rest() == SkipSpace(old(Rest()))
    {
      while pos < |text| && JsonSpace(text[pos])
        invariant old(pos) <= pos <= |text|
        invariant SkipSpace(text[pos..]) == SkipSpace(old(Rest()))
        decreases |text| - pos
      {
        assert text[pos..][1..] == text[pos + 1..];
        pos := pos + 1;
      }
    }

    /** Moves to where the reading of a prefix left off. */
    method Advance(rest: Text)
      requires pos <= |text| && |rest| <= |Rest()| && Rest()[|Rest()| - |rest|..] == rest
      modifies this
      ensures old(pos) <= pos <= |text| && Rest() == rest
    {
      assert text[pos..][|text| - pos - |rest|..] == text[|text| - |rest|..];
      pos := |text| - |rest|;
    }

    /** The step did what reading from there does. */
    predicate Did<T(==)>(step: Step<T>, read: Parsed<T>)
      requires pos <= |text|
      reads this
    {
      if step.Done? then read == Parsed(step.value, Rest()) else read.Bad?
    }

    method ParseLiteral(word: Text, node: Node) returns (r: Step<Node>)
      requires pos <= |text| && word != []
      modifies this
      ensures old(pos) <= pos <= |text| && Did(r, ReadLiteral(old(Rest()), word, node))
      ensures r.Done? ==> pos > old(pos)
    {
      if !StartsWith(text[pos..], word) {
        return Failed;
      }
      assert text[pos..][|word|..] == text[pos + |word|..];
      pos := pos + |word|;
      r := Done(node);
    }

    method ParseString() returns (r: Step<Text>)
      requires pos <= |text|
      modifies this
      ensures old(pos) <= pos <= |text| && Did(r, ReadString(old(Rest())))
      ensures r.Done? ==> pos > old(pos)
    {
      var matched := ReadString(text[pos..]);
      if matched.Bad? {
        return Failed;
      }
      StringSuffix(text[pos..]);
      Advance(matched.rest);
      r := Done(matched.value);
    }

    method ParseNumber() returns (r: Step<Node>)
      requires pos <= |text|
      modifies this
      ensures old(pos) <= pos <= |text| && Did(r, NumberNode(old(Rest())))
      ensures r.Done? ==> pos > old(pos)
    {
      var matched := ReadNumber(text[pos..]);
      if matched.Bad? {
        return Failed;
      }
      Advance(matched.rest);
      r := Done(NNum(matched.value));
    }

    method ParseValue() returns (r: Step<Node>)
      requires pos <= |text|
      modifies this
      ensures old(pos) <= pos <= |text| && Did(r, ReadValue(old(Rest())))
      ensures r.Done? ==> pos > old(pos)
      decreases |text| - pos, 1
    {
      hide ReadFields, ReadElements, ReadNumber, ReadString, ReadLiteral;
      SkipWs();
      if pos == |text| {
        return Failed;
      }
      var c := text[pos];
      ghost var s := text[pos..];
      assert s[0] == c;
      SpaceSkipped(old(Rest()), s);
      if c == OPEN_BRACE {
        r := ParseObject();
      } else if c == OPEN_BRACKET {
        r := ParseArray();
      } else if c == QUOTE {
        var quoted := ParseString();
        r := if quoted.Done? then Done(NStr(quoted.value)) else Failed;
      } else if c == TRUE[0] {
        r := ParseLiteral(TRUE, NTrue);
      } else if c == FALSE[0] {
        r := ParseLiteral(FALSE, NFalse);
      } else if c == NULL[0] {
        r := ParseLiteral(NULL, NNull);
      } else if c == MINUS || Digit(c) {
        r := ParseNumber();
      } else {
        r := Failed;
      }
    }

    method ParseArray() returns (r: Step<Node>)
      requires pos < |text| && text[pos] == OPEN_BRACKET
      modifies this
      ensures old(pos) <= pos <= |text| && Did(r, ReadValue(old(Rest())))
      ensures r.Done? ==> pos > old(pos)
      decreases |text| - pos, 0
    {
      hide ReadValue, ReadElements, Separator;
      ArrayUnfold(text[pos..]);
      assert text[pos..][1..] == text[pos + 1..];
      pos := pos + 1;
      var out: seq<Node> := [];
      SkipWs();
      if pos < |text| && text[pos] == CLOSE_BRACKET {
        assert text[pos..][1..] == text[pos + 1..];
        pos := pos + 1;
        return Done(NArr(out));
      }
      while true
        invariant old(pos) < pos <= |text|
        invariant ReadValue(old(Rest())) == ReadElements(text[pos..], out)
        decreases |text| - pos
      {
        ElementsUnfold(text[pos..], out);
        var value := ParseValue();
        if value.Failed? {
          return Failed;
        }
        out := out + [value.value];
        var closed := ParseSeparator(CLOSE_BRACKET);
        if closed.Failed? {
          return Failed;
        }
        if closed.value {
          return Done(NArr(out));
        }
      }
    }

    /** A comma, or the end of the list. */
    method ParseSeparator(close: Unit) returns (r: Step<bool>)
      requires pos <= |text|
      modifies this
      ensures old(pos) <= pos <= |text| && Did(r, Separator(old(Rest()), close))
      ensures r.Done? ==> pos > old(pos)
    {
      SkipWs();
      if pos == |text| || (text[pos] != COMMA && text[pos] != close) {
        return Failed;
      }
      var c := text[pos];
      assert text[pos..][0] == c && text[pos..][1..] == text[pos + 1..];
      pos := pos + 1;
      r := Done(c != COMMA);
    }

    method ParseObject() returns (r: Step<Node>)
      requires pos < |text| && text[pos] == OPEN_BRACE
      modifies this
      ensures old(pos) <= pos <= |text| && Did(r, ReadValue(old(Rest())))
      ensures r.Done? ==> pos > old(pos)
      decreases |text| - pos, 0
    {
      hide ReadValue, ReadFields, ReadField, Separator, SetField;
      ObjectUnfold(text[pos..]);
      assert text[pos..][1..] == text[pos + 1..];
      pos := pos + 1;
      var out: seq<(Text, Node)> := [];
      SkipWs();
      if pos < |text| && text[pos] == CLOSE_BRACE {
        assert text[pos..][1..] == text[pos + 1..];
        pos := pos + 1;
        return Done(NObj(out));
      }
      while true
        invariant old(pos) < pos <= |text|
        invariant ReadValue(old(Rest())) == ReadFields(text[pos..], out)
        decreases |text| - pos
      {
        FieldsUnfold(text[pos..], out);
        var field := ParseField();
        if field.Failed? {
          return Failed;
        }
        out := SetField(out, field.value.0, field.value.1);
        var closed := ParseSeparator(CLOSE_BRACE);
        if closed.Failed? {
          return Failed;
        }
        if closed.value {
          return Done(NObj(out));
        }
      }
    }

    /** A key, a colon and a value. */
    method ParseField() returns (r: Step<(Text, Node)>)
      requires pos <= |text|
      modifies this
      ensures old(pos) <= pos <= |text| && Did(r, ReadField(old(Rest())))
      ensures r.Done? ==> pos > old(pos)
      decreases |text| - pos, 2
    {
      hide ReadValue, ReadString;
      SkipWs();
      var key := ParseString();
      if key.Failed? {
        return Failed;
      }
      SkipWs();
      if pos == |text| || text[pos] != COLON {
        return Failed;
      }
      assert text[pos..][0] == COLON && text[pos..][1..] == text[pos + 1..];
      pos := pos + 1;
      var value := ParseValue();
      if value.Failed? {
        return Failed;
      }
      r := Done((key.value, value.value));
    }
  }

  function Separator(s: Text, close: Unit): Parsed<bool> {
    var t := SkipSpace(s);
    if t != [] && t[0] == COMMA then Parsed(false, t[1..])
    else if t != [] && t[0] == close then Parsed(true, t[1..])
    else Bad
  }

  function ReadField(s: Text): Parsed<(Text, Node)> {
    var key := ReadString(SkipSpace(s));
    if key.Bad? then Bad
    else
      var colon := SkipSpace(key.rest);
      if colon == [] || colon[0] != COLON then Bad
      else
        var value := ReadValue(colon[1..]);
        if value.Bad? then Bad else Parsed((key.value, value.value), value.rest)
  }

  function NumberNode(s: Text): Parsed<Node> {
    var number := ReadNumber(s);
    if number.Parsed? then Parsed(NNum(number.value), number.rest) else Bad
  }

  lemma SpaceSkipped(text: Text, s: Text)
    requires SkipSpace(text) == s && s != []
    ensures SkipSpace(s) == s && ReadValue(s) == ReadValue(text)
  {
  }

  lemma ArrayUnfold(s: Text)
    requires s != [] && s[0] == OPEN_BRACKET
    ensures ReadValue(s) ==
            (var inner := SkipSpace(s[1..]);
             if inner != [] && inner[0] == CLOSE_BRACKET then Parsed(NArr([]), inner[1..]) else ReadElements(inner, []))
  {
    assert SkipSpace(s) == s;
  }

  lemma ObjectUnfold(s: Text)
    requires s != [] && s[0] == OPEN_BRACE
    ensures ReadValue(s) ==
            (var inner := SkipSpace(s[1..]);
             if inner != [] && inner[0] == CLOSE_BRACE then Parsed(NObj([]), inner[1..]) else ReadFields(inner, []))
  {
    assert SkipSpace(s) == s;
  }

  lemma ElementsUnfold(s: Text, before: seq<Node>)
    ensures ReadElements(s, before) ==
            (var value := ReadValue(s);
             if value.Bad? then Bad
             else
               match Separator(value.rest, CLOSE_BRACKET)
               case Bad => Bad
               case Parsed(closed, rest) =>
                 if closed then Parsed(NArr(before + [value.value]), rest) else ReadElements(rest, before + [value.value]))
  {
  }

  lemma FieldsUnfold(s: Text, before: seq<(Text, Node)>)
    ensures ReadFields(s, before) ==
            (var field := ReadField(s);
             if field.Bad? then Bad
             else
               var fields := SetField(before, field.value.0, field.value.1);
               match Separator(field.rest, CLOSE_BRACE)
               case Bad => Bad
               case Parsed(closed, rest) => if closed then Parsed(NObj(fields), rest) else ReadFields(rest, fields))
  {
  }

  lemma {:induction false} UnitsSuffix(s: Text)
    ensures ReadUnits(s).Parsed? ==> s[|s| - |ReadUnits(s).rest|..] == ReadUnits(s).rest
  {
    if s != [] && s[0] >= 0x20 && s[0] != QUOTE {
      if s[0] != BACKSLASH {
        UnitsSuffix(s[1..]);
      } else if |s| >= 2 {
        if s[1] == LOWER_U && HexUnit(s[2..]).Parsed? {
          assert HexUnit(s[2..]).rest == s[6..];
          UnitsSuffix(s[6..]);
        } else {
          UnitsSuffix(s[2..]);
        }
      }
    }
  }

  lemma StringSuffix(s: Text)
    requires ReadString(s).Parsed?
    ensures s[|s| - |ReadString(s).rest|..] == ReadString(s).rest
  {
    UnitsSuffix(s[1..]);
  }

  /** `parseRaw`. */
  method ParseRaw(text: Text) returns (result: Result)
    ensures result == Parse(text)
    ensures forall node :: result == Tree(node) <==> JsonSyntax.Denotes(text, node)
  {
    hide ReadValue, JsonSyntax.Denotes;
    forall node ensures Parse(text) == Tree(node) <==> JsonSyntax.Denotes(text, node) {
      JsonSyntax.ParsesExactly(text, node);
    }
    var parser := new Parser(text);
    assert text[0..] == text;
    var value := parser.ParseValue();
    if value.Failed? {
      return Invalid;
    }
    parser.SkipWs();
    if parser.pos != |text| {
      return Invalid;
    }
    result := Tree(value.value);
  }
}
