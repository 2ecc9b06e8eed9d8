/** JSON trees: printing with sorted keys, reading back, and the round trip. */
module JsonTree {
  import opened JsonText

  /** A parsed tree. Numbers keep their source text; fields keep insertion order. */
  datatype Node =
    | NNull
    | NTrue
    | NFalse
    | NNum(token: Text)
    | NStr(text: Text)
    | NArr(elements: seq<Node>)
    | NObj(fields: seq<(Text, Node)>)

  const OPEN_BRACE: Unit := 0x7B
  const CLOSE_BRACE: Unit := 0x7D
  const OPEN_BRACKET: Unit := 0x5B
  const CLOSE_BRACKET: Unit := 0x5D

  const NULL: Text := [0x6E, 0x75, 0x6C, 0x6C]
  const TRUE: Text := [0x74, 0x72, 0x75, 0x65]
  const FALSE: Text := [0x66, 0x61, 0x6C, 0x73, 0x65]
  const DOLLAR_NUM: Text := [0x24, 0x6E, 0x75, 0x6D]
  const PROTO: Text := [0x5F, 0x5F, 0x70, 0x72, 0x6F, 0x74, 0x6F, 0x5F, 0x5F]

  // ---- Numbers ---------------------------------------------------------

  predicate Digit(c: Unit) { 0x30 <= c <= 0x39 }

  function DigitRun(s: Text): (n: nat)
    ensures n <= |s|
    ensures forall i :: 0 <= i < n ==> Digit(s[i])
    ensures n < |s| ==> !Digit(s[n])
  {
    if s == [] || !Digit(s[0]) then 0 else 1 + DigitRun(s[1..])
  }

  /** The length of `-?(?:0|[1-9]\d*)` at the start, 0 when it does not match. */
  function IntegerLength(s: Text): (n: nat)
    ensures n <= |s|
  {
    var sign := if s != [] && s[0] == MINUS then 1 else 0;
    if |s| <= sign || !Digit(s[sign]) then 0
    else if s[sign] == ZERO then sign + 1
    else sign + DigitRun(s[sign..])
  }

  /** The length of `(?:\.\d+)?`. */
  function FractionLength(s: Text): (n: nat)
    ensures n <= |s|
  {
    if s == [] || s[0] != DOT || DigitRun(s[1..]) == 0 then 0 else 1 + DigitRun(s[1..])
  }

  /** The length of `(?:[eE][+-]?\d+)?`. */
  function ExponentLength(s: Text): (n: nat)
    ensures n <= |s|
  {
    if s == [] || (s[0] != LOWER_E && s[0] != UPPER_E) then 0
    else
      var sign := if |s| > 1 && (s[1] == PLUS || s[1] == MINUS) then 2 else 1;
      if DigitRun(s[sign..]) == 0 then 0 else sign + DigitRun(s[sign..])
  }

  /** The length of a number token at the start, 0 when there is none. */
  function NumberLength(s: Text): (n: nat)
    ensures n <= |s|
  {
    var i := IntegerLength(s);
    if i == 0 then 0
    else
      var j := i + FractionLength(s[i..]);
      j + ExponentLength(s[j..])
  }

  function ReadNumber(s: Text): (r: Parsed<Text>)
    ensures r.Parsed? ==> |r.rest| < |s| && s == r.value + r.rest
  {
    var n := NumberLength(s);
    if n == 0 then Bad else Parsed(s[..n], s[n..])
  }

  predicate IsInteger(token: Text) {
    token != [] && IntegerLength(token) == |token|
  }

  // ---- Sorting by key --------------------------------------------------

  /** The order of JavaScript's default sort: by code unit. */
  predicate KeyLess(a: Text, b: Text) {
    b != [] && (a == [] || a[0] < b[0] || (a[0] == b[0] && KeyLess(a[1..], b[1..])))
  }

  function InsertField<X>(field: (Text, X), fields: seq<(Text, X)>): (sorted: seq<(Text, X)>)
    ensures |sorted| == |fields| + 1
  {
    if fields == [] then [field]
    else if KeyLess(field.0, fields[0].0) then [field] + fields
    else [fields[0]] + InsertField(field, fields[1..])
  }

  function SortFields<X>(fields: seq<(Text, X)>): (sorted: seq<(Text, X)>)
    ensures |sorted| == |fields|
  {
    if fields == [] then []
    else InsertField(fields[|fields| - 1], SortFields(fields[..|fields| - 1]))
  }

  // ---- Printing --------------------------------------------------------

  predicate HasKey<X>(fields: seq<(Text, X)>, key: Text) {
    exists i :: 0 <= i < |fields| && fields[i].0 == key
  }

  function JoinTexts(texts: seq<Text>): Text {
    if texts == [] then []
    else if |texts| == 1 then texts[0]
    else texts[0] + [COMMA] + JoinTexts(texts[1..])
  }

  function FieldText(field: (Text, Text)): Text {
    EscapeString(field.0) + [COLON] + field.1
  }

  function FieldTexts(fields: seq<(Text, Text)>): seq<Text> {
    seq(|fields|, i requires 0 <= i < |fields| => FieldText(fields[i]))
  }

  /** The value under a key. */
  function FieldOf(fields: seq<(Text, Node)>, key: Text): (value: Node)
    requires HasKey(fields, key)
  {
    if fields[|fields| - 1].0 == key then fields[|fields| - 1].1 else FieldOf(fields[..|fields| - 1], key)
  }

  /** What an object that looks like a number marker holds as its token. */
  function MarkerToken(fields: seq<(Text, Node)>): Text
    requires HasKey(fields, DOLLAR_NUM)
  {
    var marker := FieldOf(fields, DOLLAR_NUM);
    if marker.NStr? then marker.text else []
  }

  /** Integer tokens verbatim, others as Python prints the float. */
  function NumberText(token: Text, pyFloat: Text -> Text): Text {
    if IsInteger(token) then token else pyFloat(token)
  }

  /** `canonicalRaw`. */
  function Print(node: Node, pyFloat: Text -> Text): Text {
    match node
    case NNull => NULL
    case NTrue => TRUE
    case NFalse => FALSE
    case NStr(text) => EscapeString(text)
    case NNum(token) => NumberText(token, pyFloat)
    case NArr(elements) =>
      var texts := seq(|elements|, i requires 0 <= i < |elements| => Print(elements[i], pyFloat));
      [OPEN_BRACKET] + JoinTexts(texts) + [CLOSE_BRACKET]
    case NObj(fields) =>
      if HasKey(fields, DOLLAR_NUM) then NumberText(MarkerToken(fields), pyFloat)
      else
        var texts := seq(|fields|, i requires 0 <= i < |fields| => (fields[i].0, Print(fields[i].1, pyFloat)));
        [OPEN_BRACE] + JoinTexts(FieldTexts(SortFields(texts))) + [CLOSE_BRACE]
  }

  // ---- Reading ---------------------------------------------------------

  predicate JsonSpace(c: Unit) { c == 0x20 || c == 0x09 || c == 0x0A || c == 0x0D }

  function SkipSpace(s: Text): (r: Text)
    ensures |r| <= |s|
    ensures r != [] ==> !JsonSpace(r[0])
  {
    if s != [] && JsonSpace(s[0]) then SkipSpace(s[1..]) else s
  }

  /** `out[key] = value`: replaces in place, and `__proto__` stores no field. */
  function SetField(fields: seq<(Text, Node)>, key: Text, value: Node): seq<(Text, Node)> {
    if key == PROTO then fields
    else if fields == [] then [(key, value)]
    else if fields[0].0 == key then [(key, value)] + fields[1..]
    else [fields[0]] + SetField(fields[1..], key, value)
  }

  function ReadLiteral(s: Text, word: Text, node: Node): (r: Parsed<Node>)
    requires word != []
    ensures r.Parsed? ==> |r.rest| < |s|
  {
    if StartsWith(s, word) then Parsed(node, s[|word|..]) else Bad
  }

  function ReadValue(text: Text): (r: Parsed<Node>)
    ensures r.Parsed? ==> |r.rest| < |text|
    decreases |text|, 0
  {
    var s := SkipSpace(text);
    if s == [] then Bad
    else if s[0] == OPEN_BRACE then
      var inner := SkipSpace(s[1..]);
      if inner != [] && inner[0] == CLOSE_BRACE then Parsed(NObj([]), inner[1..]) else ReadFields(inner, [])
    else if s[0] == OPEN_BRACKET then
      var inner := SkipSpace(s[1..]);
      if inner != [] && inner[0] == CLOSE_BRACKET then Parsed(NArr([]), inner[1..]) else ReadElements(inner, [])
    else if s[0] == QUOTE then
      var quoted := ReadString(s);
      if quoted.Parsed? then Parsed(NStr(quoted.value), quoted.rest) else Bad
    else if s[0] == TRUE[0] then ReadLiteral(s, TRUE, NTrue)
    else if s[0] == FALSE[0] then ReadLiteral(s, FALSE, NFalse)
    else if s[0] == NULL[0] then ReadLiteral(s, NULL, NNull)
    else if s[0] == MINUS || Digit(s[0]) then
      var number := ReadNumber(s);
      if number.Parsed? then Parsed(NNum(number.value), number.rest) else Bad
    else Bad
  }

  function ReadElements(text: Text, before: seq<Node>): (r: Parsed<Node>)
    ensures r.Parsed? ==> |r.rest| < |text|
    decreases |text|, 1
  {
    var value := ReadValue(text);
    if value.Bad? then Bad
    else
      var s := SkipSpace(value.rest);
      if s != [] && s[0] == COMMA then ReadElements(s[1..], before + [value.value])
      else if s != [] && s[0] == CLOSE_BRACKET then Parsed(NArr(before + [value.value]), s[1..])
      else Bad
  }

  function ReadFields(text: Text, before: seq<(Text, Node)>): (r: Parsed<Node>)
    ensures r.Parsed? ==> |r.rest| < |text|
    decreases |text|, 1
  {
    var key := ReadString(SkipSpace(text));
    if key.Bad? then Bad
    else
      var colon := SkipSpace(key.rest);
      if colon == [] || colon[0] != COLON then Bad
      else
        var value := ReadValue(colon[1..]);
        if value.Bad? then Bad
        else
          var s := SkipSpace(value.rest);
          var fields := SetField(before, key.value, value.value);
          if s != [] && s[0] == COMMA then ReadFields(s[1..], fields)
          else if s != [] && s[0] == CLOSE_BRACE then Parsed(NObj(fields), s[1..])
          else Bad
  }

  datatype Result = Tree(node: Node) | Invalid

  /** `parseRaw`: the whole text, white space around it allowed. */
  function Parse(text: Text): Result {
    var value := ReadValue(text);
    if value.Parsed? && SkipSpace(value.rest) == [] then Tree(value.value) else Invalid
  }
}
