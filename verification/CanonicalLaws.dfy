/** What canonical output is: a redacted rendering of the value, whatever the graph
    that holds it. */
module CanonicalLaws {
  import opened Canonical

  // ---- Renderings ------------------------------------------------------

  /** The text of a value that is not expanded. */
  predicate Says(p: Policy, h: Heap, v: Value, s: string) {
    || (v.Str? && s == if v.s != "" && p.matches(v.s) then REDACTED else v.s)
    || (v.Opaque? && s == Marker(v.typeName))
    || (v.Object? && !Expands(h(v.ref)) && s == NON_STRING_KEYS)
  }

  predicate ByName(h: Heap, v: Value) { v.Object? && Expands(h(v.ref)) && !h(v.ref).Positional? }

  predicate ByPosition(h: Heap, v: Value) { v.Object? && h(v.ref).Positional? }

  /** `t` shows `v`: every name, every value that is not under a sensitive name, and the
      marker under every sensitive name. */
  predicate Renders(p: Policy, h: Heap, v: Value, t: Tree)
    decreases t
  {
    match t
    case TNone => v == None
    case TBool(b) => v == Bool(b)
    case TInt(i) => v == Int(i)
    case TFloat(r) => v == Float(r)
    case TStr(s) => Says(p, h, v, s)
    case TObject(fields) =>
      && ByName(h, v) && |fields| == |FieldsOf(h(v.ref))|
      && (forall i :: 0 <= i < |fields| ==> fields[i].0 == FieldsOf(h(v.ref))[i].0)
      && (forall i :: 0 <= i < |fields| ==>
            if p.sensitive(fields[i].0) then fields[i].1 == TStr(REDACTED)
            else Renders(p, h, FieldsOf(h(v.ref))[i].1, fields[i].1))
    case TList(elements) =>
      && ByPosition(h, v) && |elements| == |h(v.ref).elements|
      && forall i :: 0 <= i < |elements| ==> Renders(p, h, h(v.ref).elements[i], elements[i])
  }

  /** The tree is at most `room` levels deep, redacted fields apart. */
  predicate Fits(p: Policy, t: Tree, room: nat)
    decreases t
  {
    match t
    case TObject(fields) =>
      forall i :: 0 <= i < |fields| && !p.sensitive(fields[i].0) ==> room > 0 && Fits(p, fields[i].1, room - 1)
    case TList(elements) =>
      forall i :: 0 <= i < |elements| ==> room > 0 && Fits(p, elements[i], room - 1)
    case _ => true
  }

  /** A value has at most one rendering. */
  lemma {:induction false} RenderingIsUnique(p: Policy, h: Heap, v: Value, t: Tree, u: Tree)
    requires Renders(p, h, v, t) && Renders(p, h, v, u)
    ensures t == u
    decreases t
  {
    match t
    case TObject(fields) =>
      forall i | 0 <= i < |fields| ensures fields[i] == u.fields[i] {
        if !p.sensitive(fields[i].0) {
          RenderingIsUnique(p, h, FieldsOf(h(v.ref))[i].1, fields[i].1, u.fields[i].1);
        }
      }
    case TList(elements) =>
      forall i | 0 <= i < |elements| ensures elements[i] == u.elements[i] {
        RenderingIsUnique(p, h, h(v.ref).elements[i], elements[i], u.elements[i]);
      }
    case _ =>
  }

  // ---- The walk renders ------------------------------------------------

  lemma {:induction false} WalkRenders(p: Policy, h: Heap, v: Value, depth: nat, seen: set<Ref>)
    ensures var r := Walk(p, h, v, depth, seen);
      r.Ok? ==> depth <= MAX_DEPTH && Renders(p, h, v, r.value) && Fits(p, r.value, MAX_DEPTH - depth)
    decreases Left(depth), 0
  {
    if depth <= MAX_DEPTH && v.Object? && v.ref !in seen && Expands(h(v.ref)) {
      if h(v.ref).Positional? {
        ElementsRender(p, h, h(v.ref).elements, depth + 1, seen + {v.ref});
      } else {
        FieldsRender(p, h, FieldsOf(h(v.ref)), depth + 1, seen + {v.ref});
      }
    }
  }

  lemma {:induction false} FieldsRender(p: Policy, h: Heap, fields: Fields, depth: nat, seen: set<Ref>)
    ensures var r := WalkFields(p, h, fields, depth, seen);
      r.Ok? ==> forall i :: 0 <= i < |fields| ==>
        && r.value[i].0 == fields[i].0
        && (if p.sensitive(fields[i].0) then r.value[i].1 == TStr(REDACTED)
            else depth <= MAX_DEPTH && Renders(p, h, fields[i].1, r.value[i].1) && Fits(p, r.value[i].1, MAX_DEPTH - depth))
    decreases Left(depth), |fields| + 1
  {
    if fields != [] {
      var n := |fields| - 1;
      FieldsRender(p, h, fields[..n], depth, seen);
      WalkRenders(p, h, fields[n].1, depth, seen);
    }
  }

  lemma {:induction false} ElementsRender(p: Policy, h: Heap, elements: seq<Value>, depth: nat, seen: set<Ref>)
    ensures var r := WalkElements(p, h, elements, depth, seen);
      r.Ok? ==> forall i :: 0 <= i < |elements| ==>
        depth <= MAX_DEPTH && Renders(p, h, elements[i], r.value[i]) && Fits(p, r.value[i], MAX_DEPTH - depth)
    decreases Left(depth), |elements| + 1
  {
    if elements != [] {
      var n := |elements| - 1;
      ElementsRender(p, h, elements[..n], depth, seen);
      WalkRenders(p, h, elements[n], depth, seen);
    }
  }

  // ---- A rendering that fits is what the walk returns ------------------

  lemma {:induction false} KeptAt(p: Policy, fields: Fields, c: Value) returns (i: nat)
    requires c in Kept(p, fields)
    ensures i < |fields| && fields[i].1 == c && !p.sensitive(fields[i].0)
  {
    var n := |fields| - 1;
    if c in Kept(p, fields[..n]) {
      i := KeptAt(p, fields[..n], c);
    } else {
      i := n;
    }
  }

  lemma ChildRenders(p: Policy, h: Heap, v: Value, t: Tree, c: Value, room: nat) returns (u: Tree)
    requires Renders(p, h, v, t) && Fits(p, t, room) && c in Children(p, h, v)
    ensures u < t && Renders(p, h, c, u)
    ensures room > 0 && Fits(p, u, room - 1)
  {
    if h(v.ref).Positional? {
      var i :| 0 <= i < |h(v.ref).elements| && h(v.ref).elements[i] == c;
      u := t.elements[i];
    } else {
      var i := KeptAt(p, FieldsOf(h(v.ref)), c);
      assert !p.sensitive(t.fields[i].0);
      u := t.fields[i].1;
    }
  }

  /** Going down from a rendered value stays inside its rendering. */
  lemma {:induction false} PathRenders(p: Policy, h: Heap, path: seq<Value>, t: Tree, room: nat) returns (u: Tree)
    requires Descends(p, h, path) && Renders(p, h, path[0], t) && Fits(p, t, room)
    ensures Renders(p, h, path[|path| - 1], u)
    ensures |path| - 1 <= room && Fits(p, u, room - (|path| - 1))
    ensures if |path| > 1 then u < t else u == t
    decreases |path|
  {
    hide Renders, Fits, Children;
    if |path| == 1 {
      u := t;
    } else {
      TailDescends(p, h, path);
      var c := ChildRenders(p, h, path[0], t, path[1], room);
      u := PathRenders(p, h, path[1..], c, room - 1);
    }
  }

  lemma FrontDescends(p: Policy, h: Heap, path: seq<Value>, i: nat)
    requires Descends(p, h, path) && i < |path|
    ensures Descends(p, h, path[..i + 1]) && Descends(p, h, path[i..])
  {
    var front := path[..i + 1];
    forall j | 0 <= j < |front| - 1 ensures Steps(p, h, front, j) {
      assert Steps(p, h, path, j);
    }
    forall j | 0 <= j < |path| - i - 1 ensures Steps(p, h, path[i..], j) {
      assert Steps(p, h, path, i + j);
    }
  }

  /** A rendered value reaches no number that is not finite and revisits nothing. */
  lemma RenderedNeverEndsBadly(p: Policy, h: Heap, path: seq<Value>, t: Tree)
    requires Descends(p, h, path) && Renders(p, h, path[0], t) && Fits(p, t, MAX_DEPTH)
    ensures !EndsBadly(path, 0, {})
  {
    hide Fits, Children;
    var u := PathRenders(p, h, path, t, MAX_DEPTH);
    var last := path[|path| - 1];
    if last in path[..|path| - 1] {
      var i :| 0 <= i < |path| - 1 && path[i] == last;
      FrontDescends(p, h, path, i);
      var w := PathRenders(p, h, path[..i + 1], t, MAX_DEPTH);
      var x := PathRenders(p, h, path[i..], w, MAX_DEPTH - i);
      RenderingIsUnique(p, h, last, w, x);
    }
    assert last == NonFinite ==> !Renders(p, h, last, u);
  }

  /** Canonicalizing returns a tree exactly when that tree renders the value within the
      depth limit. */
  lemma CanonicalIsRendering(p: Policy, h: Heap, v: Value, t: Tree)
    ensures Canonicalize(p, h, v) == Ok(t) <==> Renders(p, h, v, t) && Fits(p, t, MAX_DEPTH)
  {
    WalkRenders(p, h, v, 0, {});
    hide Walk, Renders, Fits;
    if Renders(p, h, v, t) && Fits(p, t, MAX_DEPTH) {
      forall path | Descends(p, h, path) && path[0] == v ensures !EndsBadly(path, 0, {}) {
        RenderedNeverEndsBadly(p, h, path, t);
      }
      RaisesExactlyOnBadPaths(p, h, v);
      var r := Canonicalize(p, h, v);
      RenderingIsUnique(p, h, v, t, r.value);
    }
  }

  // ---- Noninterference -------------------------------------------------

  /** The two values show the same down to `levels`, except under sensitive names. Object
      identities, sharing and cycles may differ. */
  predicate SameApart(p: Policy, h: Heap, v: Value, g: Heap, w: Value, levels: nat)
    decreases levels, 0
  {
    levels == 0
    || (if !v.Object? || !w.Object? then v == w
        else
          var a, b := h(v.ref), g(w.ref);
          Expands(a) == Expands(b)
          && (Expands(a) ==>
                && a.Positional? == b.Positional?
                && (if a.Positional? then SameElements(p, h, a.elements, g, b.elements, levels - 1)
                    else SameFields(p, h, FieldsOf(a), g, FieldsOf(b), levels - 1))))
  }

  predicate SameFields(p: Policy, h: Heap, a: Fields, g: Heap, b: Fields, levels: nat)
    decreases levels, 1
  {
    && |a| == |b|
    && (forall i :: 0 <= i < |a| ==> a[i].0 == b[i].0)
    && forall i :: 0 <= i < |a| && !p.sensitive(a[i].0) ==> SameApart(p, h, a[i].1, g, b[i].1, levels)
  }

  predicate SameElements(p: Policy, h: Heap, a: seq<Value>, g: Heap, b: seq<Value>, levels: nat)
    decreases levels, 1
  {
    |a| == |b| && forall i :: 0 <= i < |a| ==> SameApart(p, h, a[i], g, b[i], levels)
  }

  /** What renders one renders the other. */
  lemma {:induction false} RenderingCarries(p: Policy, h: Heap, v: Value, g: Heap, w: Value, t: Tree, room: nat)
    requires SameApart(p, h, v, g, w, room + 1) && Renders(p, h, v, t) && Fits(p, t, room)
    ensures Renders(p, g, w, t)
    decreases t
  {
    match t
    case TObject(fields) =>
      var a, b := FieldsOf(h(v.ref)), FieldsOf(g(w.ref));
      assert SameFields(p, h, a, g, b, room);
      forall i | 0 <= i < |fields| && !p.sensitive(fields[i].0) ensures Renders(p, g, b[i].1, fields[i].1) {
        RenderingCarries(p, h, a[i].1, g, b[i].1, fields[i].1, room - 1);
      }
    case TList(elements) =>
      var a, b := h(v.ref).elements, g(w.ref).elements;
      assert SameElements(p, h, a, g, b, room);
      forall i | 0 <= i < |elements| ensures Renders(p, g, b[i], elements[i]) {
        RenderingCarries(p, h, a[i], g, b[i], elements[i], room - 1);
      }
    case _ =>
  }

  lemma {:induction false} SameApartSwaps(p: Policy, h: Heap, v: Value, g: Heap, w: Value, levels: nat)
    requires SameApart(p, h, v, g, w, levels)
    ensures SameApart(p, g, w, h, v, levels)
    decreases levels
  {
    if levels > 0 && v.Object? && w.Object? && Expands(h(v.ref)) {
      var a, b := h(v.ref), g(w.ref);
      if a.Positional? {
        forall i | 0 <= i < |a.elements| ensures SameApart(p, g, b.elements[i], h, a.elements[i], levels - 1) {
          SameApartSwaps(p, h, a.elements[i], g, b.elements[i], levels - 1);
        }
      } else {
        forall i | 0 <= i < |FieldsOf(a)| && !p.sensitive(FieldsOf(a)[i].0)
          ensures SameApart(p, g, FieldsOf(b)[i].1, h, FieldsOf(a)[i].1, levels - 1)
        {
          SameApartSwaps(p, h, FieldsOf(a)[i].1, g, FieldsOf(b)[i].1, levels - 1);
        }
      }
    }
  }

  /** Redaction is noninterference: inputs that differ only under sensitive names (and in
      how the graph is shared) both raise, or give the same canonical value. */
  lemma SensitiveValuesDoNotShow(p: Policy, h: Heap, v: Value, g: Heap, w: Value)
    requires SameApart(p, h, v, g, w, MAX_DEPTH + 1)
    ensures Canonicalize(p, h, v).Ok? <==> Canonicalize(p, g, w).Ok?
    ensures Canonicalize(p, h, v).Ok? ==> Canonicalize(p, h, v) == Canonicalize(p, g, w)
  {
    hide Canonicalize, SameApart, Renders, Fits;
    SameApartSwaps(p, h, v, g, w, MAX_DEPTH + 1);
    var r, q := Canonicalize(p, h, v), Canonicalize(p, g, w);
    if r.Ok? {
      CanonicalIsRendering(p, h, v, r.value);
      RenderingCarries(p, h, v, g, w, r.value, MAX_DEPTH);
      CanonicalIsRendering(p, g, w, r.value);
    } else if q.Ok? {
      CanonicalIsRendering(p, g, w, q.value);
      RenderingCarries(p, g, w, h, v, q.value, MAX_DEPTH);
      CanonicalIsRendering(p, h, v, q.value);
    }
  }

  // ---- Nothing sensitive is left ---------------------------------------

  /** Every sensitive name, at every level, holds the marker; every other text was
      allowed to stay or is a marker. */
  predicate Redacted(p: Policy, t: Tree)
    decreases t
  {
    match t
    case TStr(s) => s == "" || !p.matches(s) || s == REDACTED || IsMarker(s)
    case TObject(fields) =>
      forall i :: 0 <= i < |fields| ==>
        if p.sensitive(fields[i].0) then fields[i].1 == TStr(REDACTED) else Redacted(p, fields[i].1)
    case TList(elements) => forall i :: 0 <= i < |elements| ==> Redacted(p, elements[i])
    case _ => true
  }

  /** Texts of the form `<unsupported:...>`. */
  predicate IsMarker(s: string) {
    "<unsupported:" <= s && s[|s| - 1] == '>'
  }

  lemma {:induction false} RenderingIsRedacted(p: Policy, h: Heap, v: Value, t: Tree)
    requires Renders(p, h, v, t)
    ensures Redacted(p, t)
    decreases t
  {
    match t
    case TObject(fields) =>
      forall i | 0 <= i < |fields| && !p.sensitive(fields[i].0) ensures Redacted(p, fields[i].1) {
        RenderingIsRedacted(p, h, FieldsOf(h(v.ref))[i].1, fields[i].1);
      }
    case TList(elements) =>
      forall i | 0 <= i < |elements| ensures Redacted(p, elements[i]) {
        RenderingIsRedacted(p, h, h(v.ref).elements[i], elements[i]);
      }
    case TStr(s) =>
      MarkersAreMarkers(if v.Opaque? then v.typeName else "");
    case _ =>
  }

  lemma MarkersAreMarkers(typeName: string)
    ensures IsMarker(Marker(typeName)) && IsMarker(NON_STRING_KEYS)
  {
    assert Marker(typeName)[|Marker(typeName)| - 1] == '>';
  }

  /** No sensitive name in the output holds anything but the marker. */
  lemma OutputIsRedacted(p: Policy, h: Heap, v: Value)
    ensures Canonicalize(p, h, v).Ok? ==> Redacted(p, Canonicalize(p, h, v).value)
  {
    var r := Canonicalize(p, h, v);
    if r.Ok? {
      CanonicalIsRendering(p, h, v, r.value);
      RenderingIsRedacted(p, h, v, r.value);
    }
  }

  // ---- The second pass -------------------------------------------------

  /** The value is this tree, as plain data: texts are themselves, objects are mappings. */
  predicate IsData(h: Heap, v: Value, t: Tree)
    decreases t
  {
    match t
    case TNone => v == None
    case TBool(b) => v == Bool(b)
    case TInt(i) => v == Int(i)
    case TFloat(r) => v == Float(r)
    case TStr(s) => v == Str(s)
    case TObject(fields) =>
      && v.Object? && h(v.ref).Mapping? && |h(v.ref).items| == |fields|
      && (forall i :: 0 <= i < |fields| ==> h(v.ref).items[i].0 == Name(fields[i].0))
      && forall i :: 0 <= i < |fields| ==> IsData(h, h(v.ref).items[i].1, fields[i].1)
    case TList(elements) =>
      && v.Object? && h(v.ref).Positional? && |h(v.ref).elements| == |elements|
      && forall i :: 0 <= i < |elements| ==> IsData(h, h(v.ref).elements[i], elements[i])
  }

  /** Some text of the tree, not under a sensitive name, would be replaced. */
  predicate Exposes(p: Policy, t: Tree)
    decreases t
  {
    match t
    case TStr(s) => s != "" && p.matches(s) && s != REDACTED
    case TObject(fields) => exists i :: 0 <= i < |fields| && !p.sensitive(fields[i].0) && Exposes(p, fields[i].1)
    case TList(elements) => exists i :: 0 <= i < |elements| && Exposes(p, elements[i])
    case _ => false
  }

  lemma {:induction false} DataRendersItself(p: Policy, h: Heap, v: Value, t: Tree)
    requires IsData(h, v, t) && Redacted(p, t)
    ensures Renders(p, h, v, t) <==> !Exposes(p, t)
    decreases t
  {
    match t
    case TObject(fields) =>
      var items := h(v.ref).items;
      assert StringKeys(items);
      forall i | 0 <= i < |fields| && !p.sensitive(fields[i].0)
        ensures Renders(p, h, FieldsOf(h(v.ref))[i].1, fields[i].1) <==> !Exposes(p, fields[i].1)
      {
        DataRendersItself(p, h, items[i].1, fields[i].1);
      }
    case TList(elements) =>
      forall i | 0 <= i < |elements| ensures Renders(p, h, h(v.ref).elements[i], elements[i]) <==> !Exposes(p, elements[i]) {
        DataRendersItself(p, h, h(v.ref).elements[i], elements[i]);
      }
    case _ =>
  }

  /** A second pass over the output changes nothing exactly when no pattern matches a text
      in it other than the redaction marker. */
  lemma SecondPassIsIdentity(p: Policy, h: Heap, v: Value, g: Heap, w: Value)
    requires Canonicalize(p, h, v).Ok? && IsData(g, w, Canonicalize(p, h, v).value)
    ensures Canonicalize(p, g, w) == Canonicalize(p, h, v) <==> !Exposes(p, Canonicalize(p, h, v).value)
  {
    var t := Canonicalize(p, h, v).value;
    CanonicalIsRendering(p, h, v, t);
    CanonicalIsRendering(p, g, w, t);
    RenderingIsRedacted(p, h, v, t);
    DataRendersItself(p, g, w, t);
  }

  /** Only a marker can be exposed: with patterns that match no marker, a second pass
      changes nothing. */
  lemma {:induction false} OnlyMarkersExposed(p: Policy, t: Tree)
    requires Redacted(p, t) && forall s: string :: IsMarker(s) ==> !p.matches(s)
    ensures !Exposes(p, t)
    decreases t
  {
    match t
    case TObject(fields) =>
      forall i | 0 <= i < |fields| && !p.sensitive(fields[i].0) ensures !Exposes(p, fields[i].1) {
        OnlyMarkersExposed(p, fields[i].1);
      }
    case TList(elements) =>
      forall i | 0 <= i < |elements| ensures !Exposes(p, elements[i]) {
        OnlyMarkersExposed(p, elements[i]);
      }
    case _ =>
  }

  lemma SecondPassChangesNothing(p: Policy, h: Heap, v: Value, g: Heap, w: Value)
    requires Canonicalize(p, h, v).Ok? && IsData(g, w, Canonicalize(p, h, v).value)
    requires forall s: string :: IsMarker(s) ==> !p.matches(s)
    ensures Canonicalize(p, g, w) == Canonicalize(p, h, v)
  {
    OutputIsRedacted(p, h, v);
    OnlyMarkersExposed(p, Canonicalize(p, h, v).value);
    SecondPassIsIdentity(p, h, v, g, w);
  }

  /** A pattern that matches a marker makes a second pass replace it. */
  lemma MatchedMarkerIsReplaced(p: Policy, h: Heap, g: Heap, typeName: string)
    requires p.matches(Marker(typeName))
    ensures Canonicalize(p, h, Opaque(typeName)) == Ok(TStr(Marker(typeName)))
    ensures Canonicalize(p, g, Str(Marker(typeName))) == Ok(TStr(REDACTED))
    ensures TStr(Marker(typeName)) != TStr(REDACTED)
  {
    assert Marker(typeName)[1] == 'u' && REDACTED[1] == 'R';
  }
}
