/** The walk as it runs: one traversal that also collects every value it removes. */
module CanonicalWalk {
  import opened Canonical

  class Collector {
    var removed: seq<string>

    constructor ()
      ensures removed == []
    {
      removed := [];
    }

    /** Replaces a value by the marker, remembering its text. */
    method Redact(p: Policy, v: Value) returns (t: Tree)
      modifies this
      ensures t == TStr(REDACTED) && removed == old(removed) + Texts(p, v)
    {
      if v.Str? && v.s != "" {
        removed := removed + [v.s];
      } else if v != None && !v.Str? {
        var text := p.show(v);
        if text != "" {
          removed := removed + [text];
        }
      }
      t := TStr(REDACTED);
    }
  }

  /** What is remembered of a removed value. */
  function Texts(p: Policy, v: Value): seq<string> {
    var text := if v.Str? then v.s else if v == None then "" else p.show(v);
    if text == "" then [] else [text]
  }

  /** Everything removed below a value, in the order of the walk. */
  function Removed(p: Policy, h: Heap, v: Value, depth: nat): seq<string>
    decreases Left(depth), 0
  {
    if depth > MAX_DEPTH then []
    else if v.Str? then if v.s != "" && p.matches(v.s) then [v.s] else []
    else if !v.Object? || !Expands(h(v.ref)) then []
    else if h(v.ref).Positional? then RemovedElements(p, h, h(v.ref).elements, depth + 1)
    else RemovedFields(p, h, FieldsOf(h(v.ref)), depth + 1)
  }

  function RemovedFields(p: Policy, h: Heap, fields: Fields, depth: nat): seq<string>
    decreases Left(depth), |fields| + 1
  {
    if fields == [] then []
    else
      var n := |fields| - 1;
      RemovedFields(p, h, fields[..n], depth)
      + if p.sensitive(fields[n].0) then Texts(p, fields[n].1) else Removed(p, h, fields[n].1, depth)
  }

  function RemovedElements(p: Policy, h: Heap, elements: seq<Value>, depth: nat): seq<string>
    decreases Left(depth), |elements| + 1
  {
    if elements == [] then []
    else
      var n := |elements| - 1;
      RemovedElements(p, h, elements[..n], depth) + Removed(p, h, elements[n], depth)
  }

  method CanonicalizeAll(p: Policy, h: Heap, v: Value) returns (r: Outcome<Tree>, removed: seq<string>)
    ensures r == Canonicalize(p, h, v)
    ensures r.Ok? ==> removed == Removed(p, h, v, 0)
    ensures r.Ok? ==> forall text :: text in removed <==>
      text != "" && exists path :: Descends(p, h, path) && path[0] == v && (IsMatch(p, path, text) || IsHidden(p, h, path, text))
  {
    hide Walk, Removed, IsMatch, IsHidden;
    RemovedExactly(p, h, v);
    var collected := new Collector();
    r := Descend(p, h, v, collected, 0, {});
    removed := collected.removed;
  }

  method Descend(p: Policy, h: Heap, v: Value, collected: Collector, depth: nat, seen: set<Ref>) returns (r: Outcome<Tree>)
    modifies collected
    ensures r == Walk(p, h, v, depth, seen)
    ensures r.Ok? ==> collected.removed == old(collected.removed) + Removed(p, h, v, depth)
    decreases Left(depth), 0
  {
    if depth > MAX_DEPTH {
      return Err(TooDeep);
    }
    match v
    case None => r := Ok(TNone);
    case Bool(b) => r := Ok(TBool(b));
    case Int(i) => r := Ok(TInt(i));
    case Float(f) => r := Ok(TFloat(f));
    case NonFinite => r := Err(NotFinite);
    case Str(s) =>
      if s != "" && p.matches(s) {
        var marker := collected.Redact(p, v);
        return Ok(marker);
      }
      r := Ok(TStr(s));
    case Opaque(name) => r := Ok(TStr(Marker(name)));
    case Object(ref) =>
      if ref in seen {
        return Err(Cyclic);
      }
      if !Expands(h(ref)) {
        return Ok(TStr(NON_STRING_KEYS));
      }
      if h(ref).Positional? {
        var elements := DescendElements(p, h, h(ref).elements, collected, depth + 1, seen + {ref});
        return if elements.Ok? then Ok(TList(elements.value)) else Err(elements.error);
      }
      var fields := DescendFields(p, h, FieldsOf(h(ref)), collected, depth + 1, seen + {ref});
      r := if fields.Ok? then Ok(TObject(fields.value)) else Err(fields.error);
  }

  method DescendFields(p: Policy, h: Heap, fields: Fields, collected: Collector, depth: nat, seen: set<Ref>)
    returns (r: Outcome<seq<(string, Tree)>>)
    modifies collected
    ensures r == WalkFields(p, h, fields, depth, seen)
    ensures r.Ok? ==> collected.removed == old(collected.removed) + RemovedFields(p, h, fields, depth)
    decreases Left(depth), |fields| + 1
  {
    FieldsStart(p, h, depth, seen);
    hide WalkFields, RemovedFields, Walk, Removed, Texts;
    var trees: seq<(string, Tree)> := [];
    for i := 0 to |fields|
      invariant WalkFields(p, h, fields[..i], depth, seen) == Ok(trees)
      invariant collected.removed == old(collected.removed) + RemovedFields(p, h, fields[..i], depth)
    {
      NextField(p, h, fields, i, depth, seen);
      var (name, item) := fields[i];
      if p.sensitive(name) {
        var marker := collected.Redact(p, item);
        trees := trees + [(name, marker)];
      } else {
        var tree := Descend(p, h, item, collected, depth, seen);
        if tree.Err? {
          FieldErrorStands(p, h, fields, i + 1, depth, seen);
          return Err(tree.error);
        }
        trees := trees + [(name, tree.value)];
      }
    }
    assert fields[..|fields|] == fields;
    r := Ok(trees);
  }

  lemma FieldsStart(p: Policy, h: Heap, depth: nat, seen: set<Ref>)
    ensures WalkFields(p, h, [], depth, seen) == Ok([]) && RemovedFields(p, h, [], depth) == []
    ensures WalkElements(p, h, [], depth, seen) == Ok([]) && RemovedElements(p, h, [], depth) == []
  {
  }

  lemma NextField(p: Policy, h: Heap, fields: Fields, i: nat, depth: nat, seen: set<Ref>)
    requires i < |fields| && WalkFields(p, h, fields[..i], depth, seen).Ok?
    ensures WalkFields(p, h, fields[..i + 1], depth, seen) ==
            if p.sensitive(fields[i].0) then Ok(WalkFields(p, h, fields[..i], depth, seen).value + [(fields[i].0, TStr(REDACTED))])
            else
              var last := Walk(p, h, fields[i].1, depth, seen);
              if last.Ok? then Ok(WalkFields(p, h, fields[..i], depth, seen).value + [(fields[i].0, last.value)]) else Err(last.error)
    ensures RemovedFields(p, h, fields[..i + 1], depth) ==
            RemovedFields(p, h, fields[..i], depth)
            + if p.sensitive(fields[i].0) then Texts(p, fields[i].1) else Removed(p, h, fields[i].1, depth)
  {
    assert fields[..i + 1][..i] == fields[..i];
  }

  lemma {:induction false} FieldErrorStands(p: Policy, h: Heap, fields: Fields, i: nat, depth: nat, seen: set<Ref>)
    requires i <= |fields| && WalkFields(p, h, fields[..i], depth, seen).Err?
    ensures WalkFields(p, h, fields, depth, seen) == WalkFields(p, h, fields[..i], depth, seen)
    decreases |fields| - i
  {
    if i == |fields| {
      assert fields[..i] == fields;
    } else {
      assert fields[..i + 1][..i] == fields[..i];
      FieldErrorStands(p, h, fields, i + 1, depth, seen);
    }
  }

  method DescendElements(p: Policy, h: Heap, elements: seq<Value>, collected: Collector, depth: nat, seen: set<Ref>)
    returns (r: Outcome<seq<Tree>>)
    modifies collected
    ensures r == WalkElements(p, h, elements, depth, seen)
    ensures r.Ok? ==> collected.removed == old(collected.removed) + RemovedElements(p, h, elements, depth)
    decreases Left(depth), |elements| + 1
  {
    FieldsStart(p, h, depth, seen);
    hide WalkElements, RemovedElements, Walk, Removed;
    var trees: seq<Tree> := [];
    for i := 0 to |elements|
      invariant WalkElements(p, h, elements[..i], depth, seen) == Ok(trees)
      invariant collected.removed == old(collected.removed) + RemovedElements(p, h, elements[..i], depth)
    {
      NextElement(p, h, elements, i, depth, seen);
      var tree := Descend(p, h, elements[i], collected, depth, seen);
      if tree.Err? {
        ElementErrorStands(p, h, elements, i + 1, depth, seen);
        return Err(tree.error);
      }
      trees := trees + [tree.value];
    }
    assert elements[..|elements|] == elements;
    r := Ok(trees);
  }

  lemma NextElement(p: Policy, h: Heap, elements: seq<Value>, i: nat, depth: nat, seen: set<Ref>)
    requires i < |elements| && WalkElements(p, h, elements[..i], depth, seen).Ok?
    ensures WalkElements(p, h, elements[..i + 1], depth, seen) ==
            (var last := Walk(p, h, elements[i], depth, seen);
             if last.Ok? then Ok(WalkElements(p, h, elements[..i], depth, seen).value + [last.value]) else Err(last.error))
    ensures RemovedElements(p, h, elements[..i + 1], depth) ==
            RemovedElements(p, h, elements[..i], depth) + Removed(p, h, elements[i], depth)
  {
    assert elements[..i + 1][..i] == elements[..i];
  }

  lemma {:induction false} ElementErrorStands(p: Policy, h: Heap, elements: seq<Value>, i: nat, depth: nat, seen: set<Ref>)
    requires i <= |elements| && WalkElements(p, h, elements[..i], depth, seen).Err?
    ensures WalkElements(p, h, elements, depth, seen) == WalkElements(p, h, elements[..i], depth, seen)
    decreases |elements| - i
  {
    if i == |elements| {
      assert elements[..i] == elements;
    } else {
      assert elements[..i + 1][..i] == elements[..i];
      ElementErrorStands(p, h, elements, i + 1, depth, seen);
    }
  }

  // ---- Nothing is removed unseen ---------------------------------------

  lemma {:induction false} FieldsCollect(p: Policy, h: Heap, fields: Fields, depth: nat, i: nat, text: string)
    requires i < |fields|
    requires text in (if p.sensitive(fields[i].0) then Texts(p, fields[i].1) else Removed(p, h, fields[i].1, depth))
    ensures text in RemovedFields(p, h, fields, depth)
  {
    var n := |fields| - 1;
    if i < n {
      FieldsCollect(p, h, fields[..n], depth, i, text);
    }
  }

  lemma {:induction false} KeptCollect(p: Policy, h: Heap, fields: Fields, depth: nat, c: Value, text: string)
    requires c in Kept(p, fields) && text in Removed(p, h, c, depth)
    ensures text in RemovedFields(p, h, fields, depth)
  {
    var n := |fields| - 1;
    if c in Kept(p, fields[..n]) {
      KeptCollect(p, h, fields[..n], depth, c, text);
    }
  }

  lemma {:induction false} ElementsCollect(p: Policy, h: Heap, elements: seq<Value>, depth: nat, c: Value, text: string)
    requires c in elements && text in Removed(p, h, c, depth)
    ensures text in RemovedElements(p, h, elements, depth)
  {
    var n := |elements| - 1;
    if c in elements[..n] {
      ElementsCollect(p, h, elements[..n], depth, c, text);
    } else {
      assert c == elements[n];
    }
  }

  /** What is removed somewhere down the graph is collected at the top. */
  lemma {:induction false} PathCollects(p: Policy, h: Heap, path: seq<Value>, depth: nat, text: string)
    requires Descends(p, h, path) && depth + |path| - 1 <= MAX_DEPTH
    requires text in Removed(p, h, path[|path| - 1], depth + |path| - 1)
    ensures text in Removed(p, h, path[0], depth)
    decreases |path|
  {
    if |path| > 1 {
      TailDescends(p, h, path);
      PathCollects(p, h, path[1..], depth + 1, text);
      var v, c := path[0], path[1];
      if h(v.ref).Positional? {
        ElementsCollect(p, h, h(v.ref).elements, depth + 1, c, text);
      } else {
        KeptCollect(p, h, FieldsOf(h(v.ref)), depth + 1, c, text);
      }
    }
  }

  /** The way down ends in a text that a pattern matches. */
  predicate IsMatch(p: Policy, path: seq<Value>, text: string)
    requires path != []
  {
    path[|path| - 1] == Str(text) && p.matches(text)
  }

  /** The way down ends at a container with a field of a sensitive name, and this is what
      its value reads as: a text as it is, any other value but None as `str` shows it. */
  predicate IsHidden(p: Policy, h: Heap, path: seq<Value>, text: string)
    requires path != []
  {
    var last := path[|path| - 1];
    && last.Object? && Expands(h(last.ref)) && !h(last.ref).Positional?
    && exists i :: 0 <= i < |FieldsOf(h(last.ref))| && HidesField(p, FieldsOf(h(last.ref))[i], text)
  }

  predicate HidesField(p: Policy, field: (string, Value), text: string) {
    && p.sensitive(field.0)
    && (field.1 == Str(text) || (!field.1.Str? && field.1 != None && p.show(field.1) == text))
  }

  lemma {:induction false} FieldsSplit(p: Policy, h: Heap, fields: Fields, depth: nat, text: string)
    requires text in RemovedFields(p, h, fields, depth)
    ensures || (text != "" && exists i :: 0 <= i < |fields| && HidesField(p, fields[i], text))
            || exists c :: c in Kept(p, fields) && text in Removed(p, h, c, depth)
  {
    hide Removed;
    var n := |fields| - 1;
    if text in RemovedFields(p, h, fields[..n], depth) {
      FieldsSplit(p, h, fields[..n], depth, text);
      if i :| 0 <= i < n && HidesField(p, fields[..n][i], text) {
        assert HidesField(p, fields[i], text);
      }
    } else if p.sensitive(fields[n].0) {
      assert HidesField(p, fields[n], text);
    } else {
      assert fields[n].1 in Kept(p, fields);
    }
  }

  lemma {:induction false} ElementsSplit(p: Policy, h: Heap, elements: seq<Value>, depth: nat, text: string)
    requires text in RemovedElements(p, h, elements, depth)
    ensures exists c :: c in elements && text in Removed(p, h, c, depth)
  {
    hide Removed;
    var n := |elements| - 1;
    if text in RemovedElements(p, h, elements[..n], depth) {
      ElementsSplit(p, h, elements[..n], depth, text);
    } else {
      assert elements[n] in elements;
    }
  }

  /** One level of the walk: where a removed text comes from. */
  lemma RemovedSplits(p: Policy, h: Heap, v: Value, depth: nat, text: string)
    requires text in Removed(p, h, v, depth)
    ensures || (text != "" && (IsMatch(p, [v], text) || IsHidden(p, h, [v], text)))
            || (depth <= MAX_DEPTH && exists c :: c in Children(p, h, v) && text in Removed(p, h, c, depth + 1))
  {
    if v.Object? {
      if h(v.ref).Positional? {
        ElementsSplit(p, h, h(v.ref).elements, depth + 1, text);
        hide Removed;
        assert Children(p, h, v) == h(v.ref).elements;
      } else {
        var fields := FieldsOf(h(v.ref));
        FieldsSplit(p, h, fields, depth + 1, text);
        hide HidesField, Kept, Removed;
        assert [v][|[v]| - 1] == v;
        if text != "" && exists i :: 0 <= i < |fields| && HidesField(p, fields[i], text) {
          assert IsHidden(p, h, [v], text);
        } else {
          assert Children(p, h, v) == Kept(p, fields);
        }
      }
    }
  }

  lemma {:induction false} RemovedHasPath(p: Policy, h: Heap, v: Value, depth: nat, text: string) returns (path: seq<Value>)
    requires text in Removed(p, h, v, depth)
    ensures text != "" && Descends(p, h, path) && path[0] == v && (IsMatch(p, path, text) || IsHidden(p, h, path, text))
    decreases Left(depth)
  {
    hide Removed, Children, HidesField;
    RemovedSplits(p, h, v, depth, text);
    if text != "" && (IsMatch(p, [v], text) || IsHidden(p, h, [v], text)) {
      path := [v];
    } else {
      var c :| c in Children(p, h, v) && text in Removed(p, h, c, depth + 1);
      var rest := RemovedHasPath(p, h, c, depth + 1, text);
      HeadDescends(p, h, v, rest);
      path := [v] + rest;
      assert path[|path| - 1] == rest[|rest| - 1];
    }
  }

  lemma EndIsRemoved(p: Policy, h: Heap, v: Value, depth: nat, text: string)
    requires text != "" && depth <= MAX_DEPTH && (IsMatch(p, [v], text) || IsHidden(p, h, [v], text))
    ensures text in Removed(p, h, v, depth)
  {
    if v.Object? {
      var fields := FieldsOf(h(v.ref));
      var i :| 0 <= i < |fields| && HidesField(p, fields[i], text);
      FieldsCollect(p, h, fields, depth + 1, i, text);
    }
  }

  lemma PathIsRemoved(p: Policy, h: Heap, path: seq<Value>, text: string)
    requires Descends(p, h, path) && Canonicalize(p, h, path[0]).Ok?
    requires text != "" && (IsMatch(p, path, text) || IsHidden(p, h, path, text))
    ensures text in Removed(p, h, path[0], 0)
  {
    hide Removed, HidesField, Canonicalize;
    PathFits(p, h, path);
    EndIsRemoved(p, h, path[|path| - 1], |path| - 1, text);
    PathCollects(p, h, path, 0, text);
  }

  /** What a successful walk removes is exactly what it can reach and hides: the texts that a
      pattern matches, and the texts of the values under sensitive names. */
  lemma RemovedExactly(p: Policy, h: Heap, v: Value)
    ensures Canonicalize(p, h, v).Ok? ==> forall text :: text in Removed(p, h, v, 0) <==>
      text != "" && exists path :: Descends(p, h, path) && path[0] == v && (IsMatch(p, path, text) || IsHidden(p, h, path, text))
  {
    hide Removed, Canonicalize, IsMatch, IsHidden;
    if Canonicalize(p, h, v).Ok? {
      forall text | text in Removed(p, h, v, 0)
        ensures text != ""
        ensures exists path :: Descends(p, h, path) && path[0] == v && (IsMatch(p, path, text) || IsHidden(p, h, path, text))
      {
        var path := RemovedHasPath(p, h, v, 0, text);
      }
      forall text, path | text != "" && Descends(p, h, path) && path[0] == v && (IsMatch(p, path, text) || IsHidden(p, h, path, text))
        ensures text in Removed(p, h, v, 0)
      {
        PathIsRemoved(p, h, path, text);
      }
    }
  }

  lemma PathFits(p: Policy, h: Heap, path: seq<Value>)
    requires Descends(p, h, path) && Canonicalize(p, h, path[0]).Ok?
    ensures |path| - 1 <= MAX_DEPTH
  {
    hide Canonicalize;
    RaisesExactlyOnBadPaths(p, h, path[0]);
  }
}
