/** The fused redact-and-canonicalize walk over an object graph. */
module Canonical {

  type Ref = nat

  /** A value as the walk sees it. Objects have identity and live in the heap; an opaque
      value is known by its type name only. */
  datatype Value =
    | None
    | Bool(b: bool)
    | Int(i: int)
    | Float(r: real)
    | NonFinite
    | Str(s: string)
    | Opaque(typeName: string)
    | Object(ref: Ref)

  /** A dictionary key; other keys than strings make the whole mapping opaque. */
  datatype Key = Name(name: string) | OtherKey

  type Fields = seq<(string, Value)>

  /** A mapping, an object with named fields, or a list or plain tuple. */
  datatype Obj = Mapping(items: seq<(Key, Value)>) | Record(fields: Fields) | Positional(elements: seq<Value>)

  /** The object graph: shared and cyclic references are allowed. */
  type Heap = Ref -> Obj

  /** Canonical output: a tree. */
  datatype Tree =
    | TNone
    | TBool(b: bool)
    | TInt(i: int)
    | TFloat(r: real)
    | TStr(s: string)
    | TObject(fields: seq<(string, Tree)>)
    | TList(elements: seq<Tree>)

  datatype Error = TooDeep | Cyclic | NotFinite
  datatype Outcome<T> = Ok(value: T) | Err(error: Error)

  /** Which names are sensitive (after folding), which strings match a pattern, and what
      `str` makes of a value. */
  datatype Policy = Policy(sensitive: string -> bool, matches: string -> bool, show: Value -> string)

  const MAX_DEPTH: nat := 64
  const REDACTED := "<REDACTED>"
  const NON_STRING_KEYS := "<unsupported:mapping-with-non-string-keys>"

  function Marker(typeName: string): string { "<unsupported:" + typeName + ">" }

  // ---- What a container expands to -------------------------------------

  predicate StringKeys(items: seq<(Key, Value)>) {
    forall i :: 0 <= i < |items| ==> items[i].0.Name?
  }

  function Named(items: seq<(Key, Value)>): (fields: Fields)
    requires StringKeys(items)
    ensures |fields| == |items| && forall i :: 0 <= i < |items| ==> fields[i] == (items[i].0.name, items[i].1)
  {
    seq(|items|, i requires 0 <= i < |items| => (items[i].0.name, items[i].1))
  }

  predicate Expands(o: Obj) { o.Mapping? ==> StringKeys(o.items) }

  /** The named fields of an object that expands by name. */
  function FieldsOf(o: Obj): Fields
    requires Expands(o) && !o.Positional?
  {
    if o.Mapping? then Named(o.items) else o.fields
  }

  // ---- The walk --------------------------------------------------------

  function Left(depth: nat): nat { if depth > MAX_DEPTH then 0 else MAX_DEPTH + 1 - depth }

  function Walk(p: Policy, h: Heap, v: Value, depth: nat, seen: set<Ref>): Outcome<Tree>
    decreases Left(depth), 0
  {
    if depth > MAX_DEPTH then Err(TooDeep)
    else
      match v
      case None => Ok(TNone)
      case Bool(b) => Ok(TBool(b))
      case Int(i) => Ok(TInt(i))
      case Float(r) => Ok(TFloat(r))
      case NonFinite => Err(NotFinite)
      case Str(s) => Ok(TStr(if s != "" && p.matches(s) then REDACTED else s))
      case Opaque(name) => Ok(TStr(Marker(name)))
      case Object(ref) =>
        if ref in seen then Err(Cyclic)
        else if !Expands(h(ref)) then Ok(TStr(NON_STRING_KEYS))
        else if h(ref).Positional? then
          var elements := WalkElements(p, h, h(ref).elements, depth + 1, seen + {ref});
          if elements.Ok? then Ok(TList(elements.value)) else Err(elements.error)
        else
          var fields := WalkFields(p, h, FieldsOf(h(ref)), depth + 1, seen + {ref});
          if fields.Ok? then Ok(TObject(fields.value)) else Err(fields.error)
  }

  /** Field by field; the first error ends the walk. */
  function WalkFields(p: Policy, h: Heap, fields: Fields, depth: nat, seen: set<Ref>): (r: Outcome<seq<(string, Tree)>>)
    ensures r.Ok? ==> |r.value| == |fields|
    decreases Left(depth), |fields| + 1
  {
    if fields == [] then Ok([])
    else
      var n := |fields| - 1;
      var before := WalkFields(p, h, fields[..n], depth, seen);
      if before.Err? then before
      else if p.sensitive(fields[n].0) then Ok(before.value + [(fields[n].0, TStr(REDACTED))])
      else
        var last := Walk(p, h, fields[n].1, depth, seen);
        if last.Ok? then Ok(before.value + [(fields[n].0, last.value)]) else Err(last.error)
  }

  function WalkElements(p: Policy, h: Heap, elements: seq<Value>, depth: nat, seen: set<Ref>): (r: Outcome<seq<Tree>>)
    ensures r.Ok? ==> |r.value| == |elements|
    decreases Left(depth), |elements| + 1
  {
    if elements == [] then Ok([])
    else
      var n := |elements| - 1;
      var before := WalkElements(p, h, elements[..n], depth, seen);
      if before.Err? then before
      else
        var last := Walk(p, h, elements[n], depth, seen);
        if last.Ok? then Ok(before.value + [last.value]) else Err(last.error)
  }

  function Canonicalize(p: Policy, h: Heap, v: Value): Outcome<Tree> {
    Walk(p, h, v, 0, {})
  }

  // ---- The walk, value by value ----------------------------------------

  /** What the walk descends into: the values under names that are not sensitive. */
  function Kept(p: Policy, fields: Fields): seq<Value> {
    if fields == [] then []
    else
      var n := |fields| - 1;
      Kept(p, fields[..n]) + if p.sensitive(fields[n].0) then [] else [fields[n].1]
  }

  function Children(p: Policy, h: Heap, v: Value): seq<Value> {
    if !v.Object? || !Expands(h(v.ref)) then []
    else if h(v.ref).Positional? then h(v.ref).elements
    else Kept(p, FieldsOf(h(v.ref)))
  }

  lemma FieldsUnfold(p: Policy, h: Heap, fields: Fields, depth: nat, seen: set<Ref>)
    requires fields != []
    ensures var n := |fields| - 1;
      WalkFields(p, h, fields, depth, seen).Err? <==>
        || WalkFields(p, h, fields[..n], depth, seen).Err?
        || (!p.sensitive(fields[n].0) && Walk(p, h, fields[n].1, depth, seen).Err?)
  {
  }

  lemma ElementsUnfold(p: Policy, h: Heap, elements: seq<Value>, depth: nat, seen: set<Ref>)
    requires elements != []
    ensures var n := |elements| - 1;
      WalkElements(p, h, elements, depth, seen).Err? <==>
        WalkElements(p, h, elements[..n], depth, seen).Err? || Walk(p, h, elements[n], depth, seen).Err?
  {
  }

  lemma {:induction false} FieldsFail(p: Policy, h: Heap, fields: Fields, depth: nat, seen: set<Ref>)
    ensures WalkFields(p, h, fields, depth, seen).Err? <==>
            exists c :: c in Kept(p, fields) && Walk(p, h, c, depth, seen).Err?
  {
    if fields != [] {
      var n := |fields| - 1;
      FieldsFail(p, h, fields[..n], depth, seen);
      FieldsUnfold(p, h, fields, depth, seen);
      hide Walk, WalkFields;
      var before := Kept(p, fields[..n]);
      assert forall c :: c in Kept(p, fields) <==> c in before || (!p.sensitive(fields[n].0) && c == fields[n].1);
    }
  }

  lemma {:induction false} ElementsFail(p: Policy, h: Heap, elements: seq<Value>, depth: nat, seen: set<Ref>)
    ensures WalkElements(p, h, elements, depth, seen).Err? <==>
            exists c :: c in elements && Walk(p, h, c, depth, seen).Err?
  {
    if elements != [] {
      var n := |elements| - 1;
      ElementsFail(p, h, elements[..n], depth, seen);
      ElementsUnfold(p, h, elements, depth, seen);
      hide Walk, WalkElements;
      assert elements == elements[..n] + [elements[n]];
    }
  }

  lemma ObjectUnfold(p: Policy, h: Heap, v: Value, depth: nat, seen: set<Ref>)
    requires depth <= MAX_DEPTH && v.Object? && v.ref !in seen && Expands(h(v.ref))
    ensures Walk(p, h, v, depth, seen).Err? <==>
            if h(v.ref).Positional? then WalkElements(p, h, h(v.ref).elements, depth + 1, seen + {v.ref}).Err?
            else WalkFields(p, h, FieldsOf(h(v.ref)), depth + 1, seen + {v.ref}).Err?
  {
  }

  /** One level of the walk: when it fails. */
  lemma WalkFails(p: Policy, h: Heap, v: Value, depth: nat, seen: set<Ref>)
    ensures Walk(p, h, v, depth, seen).Err? <==>
      || depth > MAX_DEPTH || v == NonFinite || (v.Object? && v.ref in seen)
      || (v.Object? && exists c :: c in Children(p, h, v) && Walk(p, h, c, depth + 1, seen + {v.ref}).Err?)
  {
    if depth <= MAX_DEPTH && v.Object? && v.ref !in seen && Expands(h(v.ref)) {
      ObjectUnfold(p, h, v, depth, seen);
      hide Walk;
      if h(v.ref).Positional? {
        ElementsFail(p, h, h(v.ref).elements, depth + 1, seen + {v.ref});
        assert Children(p, h, v) == h(v.ref).elements;
        assert Walk(p, h, v, depth, seen).Err? <==> exists c :: c in Children(p, h, v) && Walk(p, h, c, depth + 1, seen + {v.ref}).Err?;
      } else {
        FieldsFail(p, h, FieldsOf(h(v.ref)), depth + 1, seen + {v.ref});
        assert Children(p, h, v) == Kept(p, FieldsOf(h(v.ref)));
        assert Walk(p, h, v, depth, seen).Err? <==> exists c :: c in Children(p, h, v) && Walk(p, h, c, depth + 1, seen + {v.ref}).Err?;
      }
    }
  }

  // ---- When it raises --------------------------------------------------

  /** A way down from a value, through expanded containers and past no redacted field. */
  ghost predicate Descends(p: Policy, h: Heap, path: seq<Value>) {
    path != [] && forall i :: 0 <= i < |path| - 1 ==> Steps(p, h, path, i)
  }

  predicate Steps(p: Policy, h: Heap, path: seq<Value>, i: nat)
    requires i < |path| - 1
  {
    path[i + 1] in Children(p, h, path[i])
  }

  /** The way down ends badly: too deep, in a number that is not finite, or in a
      container it came through, or that was seen before. */
  predicate EndsBadly(path: seq<Value>, depth: nat, seen: set<Ref>)
    requires path != []
  {
    var last := path[|path| - 1];
    || depth + |path| - 1 > MAX_DEPTH
    || last == NonFinite
    || (last.Object? && (last.ref in seen || last in path[..|path| - 1]))
  }

  lemma TailDescends(p: Policy, h: Heap, path: seq<Value>)
    requires Descends(p, h, path) && |path| > 1
    ensures Descends(p, h, path[1..]) && path[1] in Children(p, h, path[0])
  {
    assert Steps(p, h, path, 0);
    forall i | 0 <= i < |path[1..]| - 1 ensures Steps(p, h, path[1..], i) {
      assert Steps(p, h, path, i + 1);
    }
  }

  lemma HeadDescends(p: Policy, h: Heap, v: Value, path: seq<Value>)
    requires Descends(p, h, path) && path[0] in Children(p, h, v)
    ensures Descends(p, h, [v] + path)
  {
    var longer := [v] + path;
    forall i | 0 <= i < |longer| - 1 ensures Steps(p, h, longer, i) {
      if i > 0 {
        assert Steps(p, h, path, i - 1);
      }
    }
  }

  lemma {:induction false} BadPathFails(p: Policy, h: Heap, path: seq<Value>, depth: nat, seen: set<Ref>)
    requires Descends(p, h, path) && EndsBadly(path, depth, seen)
    ensures Walk(p, h, path[0], depth, seen).Err?
    decreases |path|
  {
    hide Walk, Children;
    WalkFails(p, h, path[0], depth, seen);
    if |path| > 1 {
      TailDescends(p, h, path);
      assert path[0].Object? by { OnlyObjectsExpand(p, h, path[0], path[1]); }
      var last := path[|path| - 1];
      assert last in path[..|path| - 1] ==> last == path[0] || last in path[1..][..|path| - 2];
      BadPathFails(p, h, path[1..], depth + 1, seen + {path[0].ref});
    }
  }

  lemma OnlyObjectsExpand(p: Policy, h: Heap, v: Value, c: Value)
    requires c in Children(p, h, v)
    ensures v.Object? && Expands(h(v.ref))
  {
  }

  lemma {:induction false} FailureHasPath(p: Policy, h: Heap, v: Value, depth: nat, seen: set<Ref>) returns (path: seq<Value>)
    requires Walk(p, h, v, depth, seen).Err?
    ensures Descends(p, h, path) && path[0] == v && EndsBadly(path, depth, seen)
    decreases Left(depth)
  {
    hide Walk, Children;
    WalkFails(p, h, v, depth, seen);
    if depth > MAX_DEPTH || v == NonFinite || (v.Object? && v.ref in seen) {
      path := [v];
    } else {
      var c :| c in Children(p, h, v) && Walk(p, h, c, depth + 1, seen + {v.ref}).Err?;
      var rest := FailureHasPath(p, h, c, depth + 1, seen + {v.ref});
      HeadDescends(p, h, v, rest);
      path := [v] + rest;
      var last := rest[|rest| - 1];
      assert path[|path| - 1] == last && path[..|path| - 1] == [v] + rest[..|rest| - 1];
    }
  }

  /** The walk ends on every graph, and raises exactly when some way down through
      expanded containers, past no redacted field, revisits a container, goes deeper
      than the limit, or reaches a number that is not finite. */
  lemma RaisesExactlyOnBadPaths(p: Policy, h: Heap, v: Value)
    ensures Canonicalize(p, h, v).Err? <==>
            exists path :: Descends(p, h, path) && path[0] == v && EndsBadly(path, 0, {})
  {
    hide Walk;
    if Canonicalize(p, h, v).Err? {
      var path := FailureHasPath(p, h, v, 0, {});
    }
    forall path | Descends(p, h, path) && path[0] == v && EndsBadly(path, 0, {}) ensures Canonicalize(p, h, v).Err? {
      BadPathFails(p, h, path, 0, {});
    }
  }
}
