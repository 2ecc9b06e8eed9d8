/** The order in which fields were inserted never shows in the printed text. */
module JsonOrder {
  import opened JsonText
  import opened JsonTree
  import opened JsonRoundTrip

  // ---- Key order -------------------------------------------------------

  lemma {:induction false} KeyLessTotal(a: Text, b: Text)
    ensures a == b || KeyLess(a, b) || KeyLess(b, a)
  {
    if a != [] && b != [] && a[0] == b[0] {
      KeyLessTotal(a[1..], b[1..]);
      assert a == [a[0]] + a[1..] && b == [b[0]] + b[1..];
    }
  }

  lemma {:induction false} KeyLessTransitive(a: Text, b: Text, c: Text)
    requires KeyLess(a, b) && KeyLess(b, c)
    ensures KeyLess(a, c)
  {
    if a != [] && a[0] == b[0] && b[0] == c[0] {
      KeyLessTransitive(a[1..], b[1..], c[1..]);
    }
  }

  lemma {:induction false} KeyLessIrreflexive(a: Text)
    ensures !KeyLess(a, a)
  {
    if a != [] {
      KeyLessIrreflexive(a[1..]);
    }
  }

  predicate Ordered<X>(fields: seq<(Text, X)>) {
    forall i, j :: 0 <= i < j < |fields| ==> KeyLess(fields[i].0, fields[j].0)
  }

  predicate Lacks<X>(fields: seq<(Text, X)>, key: Text) {
    forall i :: 0 <= i < |fields| ==> fields[i].0 != key
  }

  predicate Distinct<X>(fields: seq<(Text, X)>) {
    forall i, j :: 0 <= i < j < |fields| ==> fields[i].0 != fields[j].0
  }

  lemma {:induction false} InsertOrders<X>(field: (Text, X), fields: seq<(Text, X)>)
    requires Ordered(fields) && Lacks(fields, field.0)
    ensures Ordered(InsertField(field, fields))
  {
    if fields != [] {
      if KeyLess(field.0, fields[0].0) {
        forall j | 0 <= j < |fields| ensures KeyLess(field.0, fields[j].0) {
          if j > 0 {
            KeyLessTransitive(field.0, fields[0].0, fields[j].0);
          }
        }
      } else {
        InsertOrders(field, fields[1..]);
        KeyLessTotal(field.0, fields[0].0);
        var rest := InsertField(field, fields[1..]);
        InsertKeeps(field, fields[1..]);
        forall j | 0 <= j < |rest| ensures KeyLess(fields[0].0, rest[j].0) {
          assert rest[j] in multiset(rest);
          if rest[j] != field {
            assert rest[j] in multiset(fields[1..]);
            var i :| 0 <= i < |fields[1..]| && fields[1..][i] == rest[j];
            assert fields[i + 1] == rest[j];
          }
        }
      }
    }
  }

  lemma {:induction false} SortOrders<X>(fields: seq<(Text, X)>)
    requires Distinct(fields)
    ensures Ordered(SortFields(fields))
  {
    if fields != [] {
      var n := |fields| - 1;
      SortOrders(fields[..n]);
      var sorted := SortFields(fields[..n]);
      forall i | 0 <= i < |sorted| ensures sorted[i].0 != fields[n].0 {
        var j := SortedFieldFrom(fields[..n], i);
        assert fields[j] == sorted[i];
      }
      InsertOrders(fields[n], sorted);
    }
  }

  ghost predicate SameMembers<X(!new)>(a: seq<X>, b: seq<X>) {
    forall x :: x in a <==> x in b
  }

  lemma FirstsAgree<X(!new)>(a: seq<(Text, X)>, b: seq<(Text, X)>)
    requires Ordered(a) && Ordered(b) && SameMembers(a, b) && a != []
    ensures b != [] && a[0] == b[0]
  {
    assert a[0] in a;
    assert a[0] in b;
    var j :| 0 <= j < |b| && b[j] == a[0];
    assert b[0] in b;
    assert b[0] in a;
    var i :| 0 <= i < |a| && a[i] == b[0];
    if i > 0 && j > 0 {
      KeyLessTransitive(a[0].0, b[0].0, a[0].0);
      KeyLessIrreflexive(a[0].0);
    }
  }

  lemma TailsAgree<X(!new)>(a: seq<(Text, X)>, b: seq<(Text, X)>)
    requires Ordered(a) && Ordered(b) && SameMembers(a, b) && a != [] && b != [] && a[0] == b[0]
    ensures SameMembers(a[1..], b[1..])
  {
    KeyLessIrreflexive(a[0].0);
    forall x ensures x in a[1..] <==> x in a && x != a[0] {
      assert a == [a[0]] + a[1..];
    }
    forall x ensures x in b[1..] <==> x in b && x != b[0] {
      assert b == [b[0]] + b[1..];
    }
  }

  /** Only one way to put the same fields in key order. */
  lemma {:induction false} OrderedIsUnique<X(!new)>(a: seq<(Text, X)>, b: seq<(Text, X)>)
    requires Ordered(a) && Ordered(b) && SameMembers(a, b)
    ensures a == b
  {
    if a == [] {
      if b != [] {
        FirstsAgree(b, a);
      }
    } else {
      FirstsAgree(a, b);
      TailsAgree(a, b);
      OrderedIsUnique(a[1..], b[1..]);
      assert a == [a[0]] + a[1..] && b == [b[0]] + b[1..];
    }
  }

  lemma SortedSame<X(!new)>(a: seq<(Text, X)>, b: seq<(Text, X)>)
    requires Distinct(a) && Distinct(b) && SameMembers(a, b)
    ensures SortFields(a) == SortFields(b)
  {
    SortOrders(a);
    SortOrders(b);
    SortKeeps(a);
    SortKeeps(b);
    forall x ensures x in SortFields(a) <==> x in SortFields(b) {
      assert x in SortFields(a) <==> x in multiset(SortFields(a));
      assert x in SortFields(b) <==> x in multiset(SortFields(b));
      assert x in a <==> x in multiset(a);
      assert x in b <==> x in multiset(b);
    }
    OrderedIsUnique(SortFields(a), SortFields(b));
  }

  // ---- Trees that differ in insertion order only -----------------------

  /** The same tree, whatever the order in which the fields of each object were inserted. */
  predicate SameTree(t: Node, u: Node)
    decreases t
  {
    match t
    case NArr(elements) =>
      u.NArr? && |elements| == |u.elements| && forall i :: 0 <= i < |elements| ==> SameTree(elements[i], u.elements[i])
    case NObj(fields) =>
      && u.NObj?
      && (forall j :: 0 <= j < |u.fields| ==> HasKey(fields, u.fields[j].0))
      && forall i :: 0 <= i < |fields| ==>
           HasKey(u.fields, fields[i].0) && SameTree(fields[i].1, FieldOf(u.fields, fields[i].0))
    case _ => t == u
  }

  /** With distinct keys, looking a key up finds its only field. */
  lemma {:induction false} LooksUp(fields: seq<(Text, Node)>, i: nat)
    requires DistinctKeys(fields) && i < |fields|
    ensures HasKey(fields, fields[i].0) && FieldOf(fields, fields[i].0) == fields[i].1
  {
    var n := |fields| - 1;
    assert fields[i].0 == fields[i].0;
    if i < n {
      LooksUp(fields[..n], i);
    }
  }

  lemma MappedDistinct(fields: seq<(Text, Node)>, pyFloat: Text -> Text)
    requires DistinctKeys(fields)
    ensures Distinct(MapValues(fields, Printer(pyFloat)))
  {
  }

  /** Every field of one tree has its partner in the other. */
  lemma PartnerOf(t: Node, u: Node, i: nat) returns (j: nat)
    requires SameTree(t, u) && Valid(u) && t.NObj? && i < |t.fields|
    ensures u.NObj? && j < |u.fields| && u.fields[j].0 == t.fields[i].0 && SameTree(t.fields[i].1, u.fields[j].1)
  {
    assert HasKey(u.fields, t.fields[i].0);
    j :| 0 <= j < |u.fields| && u.fields[j].0 == t.fields[i].0;
    LooksUp(u.fields, j);
  }

  lemma PartnerIn(t: Node, u: Node, j: nat) returns (i: nat)
    requires SameTree(t, u) && Valid(u) && t.NObj? && u.NObj? && j < |u.fields|
    ensures i < |t.fields| && u.fields[j].0 == t.fields[i].0 && SameTree(t.fields[i].1, u.fields[j].1)
  {
    assert HasKey(t.fields, u.fields[j].0);
    i :| 0 <= i < |t.fields| && t.fields[i].0 == u.fields[j].0;
    LooksUp(u.fields, j);
  }

  lemma ValidField(t: Node, i: nat)
    requires t.NObj? && Valid(t) && i < |t.fields|
    ensures Valid(t.fields[i].1) && t.fields[i].1 < t
  {
  }

  lemma {:induction false} SameFieldsPrint(t: Node, u: Node, pyFloat: Text -> Text)
    requires SameTree(t, u) && Valid(t) && Valid(u) && t.NObj? && u.NObj?
    ensures SameMembers(MapValues(t.fields, Printer(pyFloat)), MapValues(u.fields, Printer(pyFloat)))
    decreases t, 0
  {
    hide SameTree, Valid, Print;
    var a, b := MapValues(t.fields, Printer(pyFloat)), MapValues(u.fields, Printer(pyFloat));
    forall x | x in a ensures x in b {
      var i :| 0 <= i < |a| && a[i] == x;
      var j := PartnerOf(t, u, i);
      ValidField(t, i);
      ValidField(u, j);
      SamePrints(t.fields[i].1, u.fields[j].1, pyFloat);
      assert b[j] == x;
    }
    forall x | x in b ensures x in a {
      var j :| 0 <= j < |b| && b[j] == x;
      var i := PartnerIn(t, u, j);
      ValidField(t, i);
      ValidField(u, j);
      SamePrints(t.fields[i].1, u.fields[j].1, pyFloat);
      assert a[i] == x;
    }
  }

  /** Key insertion order never matters: trees that differ in nothing else print the same. */
  lemma {:induction false} SamePrints(t: Node, u: Node, pyFloat: Text -> Text)
    requires SameTree(t, u) && Valid(t) && Valid(u)
    ensures Print(t, pyFloat) == Print(u, pyFloat)
    decreases t, 1
  {
    match t
    case NArr(elements) =>
      forall i | 0 <= i < |elements| ensures Print(elements[i], pyFloat) == Print(u.elements[i], pyFloat) {
        SamePrints(elements[i], u.elements[i], pyFloat);
      }
      assert PrintAll(elements, pyFloat) == PrintAll(u.elements, pyFloat);
      ArrayPrints(elements, pyFloat);
      ArrayPrints(u.elements, pyFloat);
    case NObj(fields) =>
      SameFieldsPrint(t, u, pyFloat);
      MappedDistinct(fields, pyFloat);
      MappedDistinct(u.fields, pyFloat);
      SortedSame(MapValues(fields, Printer(pyFloat)), MapValues(u.fields, Printer(pyFloat)));
      SortMaps(fields, Printer(pyFloat));
      SortMaps(u.fields, Printer(pyFloat));
      ObjectPrints(fields, pyFloat);
      ObjectPrints(u.fields, pyFloat);
    case _ =>
  }

  /** Putting the fields in key order is a change of insertion order only. */
  lemma {:induction false} NormalIsSame(t: Node)
    requires Valid(t)
    ensures SameTree(t, Normal(t)) && Valid(Normal(t))
    decreases t
  {
    match t
    case NArr(elements) =>
      forall i | 0 <= i < |elements| ensures SameTree(elements[i], Normal(elements[i])) && Valid(Normal(elements[i])) {
        NormalIsSame(elements[i]);
      }
    case NObj(fields) =>
      forall i | 0 <= i < |fields| ensures SameTree(fields[i].1, Normal(fields[i].1)) && Valid(Normal(fields[i].1)) {
        NormalIsSame(fields[i].1);
      }
      ObjectNormal(fields);
      NormalFields(fields, Normal(t).fields);
    case _ =>
  }

  /** `normal` holds the fields in key order, each in normal form. */
  predicate InOrder(fields: seq<(Text, Node)>, normal: seq<(Text, Node)>) {
    |normal| == |fields|
    && forall i :: 0 <= i < |fields| ==> normal[i] == (SortFields(fields)[i].0, Normal(SortFields(fields)[i].1))
  }

  lemma NormalFields(fields: seq<(Text, Node)>, normal: seq<(Text, Node)>)
    requires Valid(NObj(fields)) && InOrder(fields, normal)
    requires forall i :: 0 <= i < |fields| ==> SameTree(fields[i].1, Normal(fields[i].1)) && Valid(Normal(fields[i].1))
    ensures SameTree(NObj(fields), NObj(normal)) && Valid(NObj(normal))
  {
    NormalValid(fields, normal);
    forall j | 0 <= j < |normal| ensures HasKey(fields, normal[j].0) {
      NormalKeys(fields, normal, normal[j].0);
      assert HasKey(normal, normal[j].0);
    }
    forall i | 0 <= i < |fields|
      ensures HasKey(normal, fields[i].0) && SameTree(fields[i].1, FieldOf(normal, fields[i].0))
    {
      var j := FieldSortedTo(fields, i);
      assert normal[j] == (fields[i].0, Normal(fields[i].1));
      ValidDistinct(normal);
      LooksUp(normal, j);
    }
    hide Normal, SortFields, Valid, InOrder;
  }

  lemma ValidDistinct(fields: seq<(Text, Node)>)
    requires Valid(NObj(fields))
    ensures DistinctKeys(fields)
  {
  }

  lemma NormalValid(fields: seq<(Text, Node)>, normal: seq<(Text, Node)>)
    requires Valid(NObj(fields)) && InOrder(fields, normal)
    requires forall i :: 0 <= i < |fields| ==> Valid(Normal(fields[i].1))
    ensures Valid(NObj(normal))
  {
    assert DistinctKeys(fields) && !HasKey(fields, DOLLAR_NUM) && !HasKey(fields, PROTO);
    hide Normal, SortFields, HasKey;
    forall j | 0 <= j < |normal| ensures Valid(normal[j].1) {
      var i := SortedFieldFrom(fields, j);
    }
    SortedDistinct(fields);
    NormalKeys(fields, normal, DOLLAR_NUM);
    NormalKeys(fields, normal, PROTO);
  }

  lemma NormalKeys(fields: seq<(Text, Node)>, normal: seq<(Text, Node)>, key: Text)
    requires InOrder(fields, normal)
    ensures HasKey(normal, key) <==> HasKey(fields, key)
  {
    hide SortFields, Normal;
    SortKeys(fields, key);
    assert forall i :: 0 <= i < |fields| ==> normal[i].0 == SortFields(fields)[i].0;
  }

  /** Parsing what was printed gives the same tree, and printing that gives the same text. */
  lemma ReprintsTheSame(t: Node, pyFloat: Text -> Text)
    requires Valid(t) && Sound(t)
    ensures Parse(Print(t, pyFloat)).Tree?
    ensures SameTree(t, Parse(Print(t, pyFloat)).node)
    ensures Print(Parse(Print(t, pyFloat)).node, pyFloat) == Print(t, pyFloat)
  {
    RoundTrip(t, pyFloat);
    NormalIsSame(t);
    SamePrints(t, Normal(t), pyFloat);
  }
}
