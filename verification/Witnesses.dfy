/** A directory of shipped witnesses: auditing and pruning it. */
module Witnesses {
  import opened Evidence
  import opened Writer
  import opened Verification
  import opened Acceptance

  /** A shipped file; without an mtime it is not a regular file or cannot be assessed. */
  datatype Shipped = Shipped(mtime: Option<int>, file: WitnessFile, deletable: bool)
  type Shelf = map<string, Shipped>

  // ---- Ordering --------------------------------------------------------

  predicate NameLess(a: string, b: string) {
    b != [] && (a == [] || a[0] < b[0] || (a[0] == b[0] && NameLess(a[1..], b[1..])))
  }

  type Key = (int, string)

  predicate Before(a: Key, b: Key) {
    a.0 < b.0 || (a.0 == b.0 && NameLess(a.1, b.1))
  }

  lemma {:induction false} NameTotal(a: string, b: string)
    ensures a == b || NameLess(a, b) || NameLess(b, a)
  {
    if a != [] && b != [] && a[0] == b[0] {
      NameTotal(a[1..], b[1..]);
      assert a == [a[0]] + a[1..] && b == [b[0]] + b[1..];
    }
  }

  lemma {:induction false} NameTransitive(a: string, b: string, c: string)
    requires NameLess(a, b) && NameLess(b, c)
    ensures NameLess(a, c)
  {
    if a != [] && a[0] == b[0] && b[0] == c[0] {
      NameTransitive(a[1..], b[1..], c[1..]);
    }
  }

  /** Names are compared by their first difference, and a prefix comes first. */
  lemma {:induction false} NameLessMeans(a: string, b: string)
    ensures NameLess(a, b) <==> exists k: nat :: DiffersAt(a, b, k)
  {
    if a == [] {
      assert b != [] ==> DiffersAt(a, b, 0);
    } else if b != [] {
      NameLessMeans(a[1..], b[1..]);
      if a[0] == b[0] {
        forall k: nat ensures DiffersAt(a[1..], b[1..], k) <==> DiffersAt(a, b, k + 1) {
          if k <= |a[1..]| && k <= |b[1..]| {
            assert a[..k + 1] == [a[0]] + a[1..][..k] && b[..k + 1] == [b[0]] + b[1..][..k];
          }
        }
        assert forall k: nat :: DiffersAt(a, b, k) ==> k > 0 && DiffersAt(a[1..], b[1..], k - 1);
      } else {
        assert forall k: nat :: 0 < k && k <= |a| && k <= |b| ==> a[..k][0] != b[..k][0];
        assert a[0] < b[0] ==> DiffersAt(a, b, 0);
      }
    }
  }

  predicate DiffersAt(a: string, b: string, k: nat) {
    && k <= |a| && k < |b| && a[..k] == b[..k]
    && (k < |a| ==> a[k] < b[k])
  }

  predicate Ordered(keys: seq<Key>) {
    forall i, j :: 0 <= i < j < |keys| ==> Before(keys[i], keys[j]) || keys[i] == keys[j]
  }

  lemma BeforeTransitive(a: Key, b: Key, c: Key)
    requires (Before(a, b) || a == b) && (Before(b, c) || b == c)
    ensures Before(a, c) || a == c
  {
    if a.0 == b.0 && b.0 == c.0 && a.1 != b.1 && b.1 != c.1 {
      NameTransitive(a.1, b.1, c.1);
    }
  }

  function Insert(key: Key, keys: seq<Key>): (result: seq<Key>)
    ensures multiset(result) == multiset(keys) + multiset{key}
  {
    if keys == [] then [key]
    else if Before(key, keys[0]) then
      assert keys == [keys[0]] + keys[1..];
      [key] + keys
    else
      assert keys == [keys[0]] + keys[1..];
      [keys[0]] + Insert(key, keys[1..])
  }

  /** Python's `sort` on (mtime, name) pairs. */
  function Sorted(keys: seq<Key>): (result: seq<Key>)
    ensures multiset(result) == multiset(keys)
  {
    if keys == [] then []
    else
      assert keys == keys[..|keys| - 1] + [keys[|keys| - 1]];
      Insert(keys[|keys| - 1], Sorted(keys[..|keys| - 1]))
  }

  lemma {:induction false} InsertKeepsOrder(key: Key, keys: seq<Key>)
    requires Ordered(keys)
    ensures Ordered(Insert(key, keys))
  {
    if keys != [] {
      if Before(key, keys[0]) {
        forall j | 0 <= j < |keys| ensures Before(key, keys[j]) || key == keys[j] {
          BeforeTransitive(key, keys[0], keys[j]);
        }
      } else {
        InsertKeepsOrder(key, keys[1..]);
        var rest := Insert(key, keys[1..]);
        forall j | 0 <= j < |rest| ensures Before(keys[0], rest[j]) || keys[0] == rest[j] {
          assert rest[j] in multiset(rest);
          if rest[j] == key {
            NameTotal(key.1, keys[0].1);
          } else {
            assert rest[j] in multiset(keys[1..]);
            var i :| 0 <= i < |keys[1..]| && keys[1..][i] == rest[j];
            assert keys[i + 1] == rest[j];
          }
        }
      }
    }
  }

  lemma {:induction false} SortedIsOrdered(keys: seq<Key>)
    ensures Ordered(Sorted(keys))
  {
    if keys != [] {
      SortedIsOrdered(keys[..|keys| - 1]);
      InsertKeepsOrder(keys[|keys| - 1], Sorted(keys[..|keys| - 1]));
    }
  }

  // ---- The listing -----------------------------------------------------

  predicate EndsWith(name: string, suffix: string) {
    |suffix| <= |name| && name[|name| - |suffix|..] == suffix
  }

  const LATEST := "latest.checkpoint"

  /** `*.checkpoint`, except `latest.checkpoint`. */
  predicate IsCandidate(name: string) {
    EndsWith(name, ".checkpoint") && name != LATEST
  }

  /** What the directory listing returns: every `*.checkpoint` once, in any order. */
  ghost predicate Lists(shelf: Shelf, listing: seq<string>) {
    && NoDups(listing)
    && forall name :: name in listing <==> name in shelf && EndsWith(name, ".checkpoint")
  }

  function WithoutLatest(listing: seq<string>): seq<string> {
    if listing == [] then []
    else
      var last := listing[|listing| - 1];
      WithoutLatest(listing[..|listing| - 1]) + if last != LATEST then [last] else []
  }

  lemma {:induction false} WithoutLatestKeeps(listing: seq<string>, name: string)
    ensures name in WithoutLatest(listing) <==> name in listing && name != LATEST
  {
    if listing != [] {
      WithoutLatestKeeps(listing[..|listing| - 1], name);
    }
  }

  lemma {:induction false} WithoutLatestNoDups(listing: seq<string>)
    requires NoDups(listing)
    ensures NoDups(WithoutLatest(listing))
  {
    if listing != [] {
      var before, last := listing[..|listing| - 1], listing[|listing| - 1];
      WithoutLatestNoDups(before);
      WithoutLatestKeeps(before, last);
      assert last !in before;
    }
  }

  /** Ready to be sorted by name alone. */
  function Unranked(names: seq<string>): seq<Key> {
    seq(|names|, i requires 0 <= i < |names| => (0, names[i]))
  }

  /** The candidates in order of name. */
  function ByName(listing: seq<string>): seq<string> {
    NamesOf(Sorted(Unranked(WithoutLatest(listing))))
  }

  function NamesOf(keys: seq<Key>): (names: seq<string>)
    ensures |names| == |keys| && forall i :: 0 <= i < |keys| ==> names[i] == keys[i].1
  {
    seq(|keys|, i requires 0 <= i < |keys| => keys[i].1)
  }

  lemma ByNameKeeps(listing: seq<string>, name: string)
    ensures name in ByName(listing) <==> name in listing && name != LATEST
  {
    WithoutLatestKeeps(listing, name);
    SortedKeepsNames(WithoutLatest(listing), name);
  }

  lemma SortedKeepsNames(names: seq<string>, name: string)
    ensures name in NamesOf(Sorted(Unranked(names))) <==> name in names
  {
    var keys := Unranked(names);
    var sorted := Sorted(keys);
    if name in names {
      var i :| 0 <= i < |names| && names[i] == name;
      assert keys[i] in multiset(keys);
      assert keys[i] in multiset(sorted);
      var j :| 0 <= j < |sorted| && sorted[j] == keys[i];
      assert NamesOf(sorted)[j] == name;
    }
    if name in NamesOf(sorted) {
      var j :| 0 <= j < |sorted| && sorted[j].1 == name;
      assert sorted[j] in multiset(sorted);
      assert sorted[j] in multiset(keys);
      var i :| 0 <= i < |keys| && keys[i] == sorted[j];
    }
  }

  /** The candidates come once each, in order of name. */
  lemma ByNameAscends(listing: seq<string>)
    requires NoDups(listing)
    ensures NoDups(ByName(listing))
    ensures forall i, j :: 0 <= i < j < |ByName(listing)| ==> NameLess(ByName(listing)[i], ByName(listing)[j])
  {
    var names := WithoutLatest(listing);
    var sorted := Sorted(Unranked(names));
    WithoutLatestNoDups(listing);
    assert NoDups(Unranked(names));
    PermutedNoDups(Unranked(names), sorted);
    SortedIsOrdered(Unranked(names));
    forall i | 0 <= i < |sorted| ensures sorted[i].0 == 0 {
      assert sorted[i] in multiset(sorted);
      assert sorted[i] in multiset(Unranked(names));
    }
  }

  /** The regular files among `names`, as sort keys, and the others. */
  function Regular(shelf: Shelf, names: seq<string>): (keys: seq<Key>)
    ensures forall key :: key in keys <==> key.1 in names && key.1 in shelf && shelf[key.1].mtime == Some(key.0)
  {
    if names == [] then []
    else
      var last := names[|names| - 1];
      Regular(shelf, names[..|names| - 1]) + if last in shelf && shelf[last].mtime.Some? then [(shelf[last].mtime.value, last)] else []
  }

  function Unassessed(shelf: Shelf, names: seq<string>): (others: seq<string>)
    ensures forall name :: name in others <==> name in names && name in shelf && shelf[name].mtime.None?
  {
    if names == [] then []
    else
      var last := names[|names| - 1];
      Unassessed(shelf, names[..|names| - 1]) + if last in shelf && shelf[last].mtime.None? then [last] else []
  }

  // ---- Pruning ---------------------------------------------------------

  /** What a path leads to. */
  datatype Place = Nowhere | NotADirectory | Unlistable | Directory

  datatype PruneResult =
    | BadKeep
    | NoDirectory
    | CannotList
    | CannotDelete(failures: seq<string>)
    | Pruned(kept: seq<string>, deleted: seq<string>)

  /** The regular candidates, oldest first. */
  function Ranked(shelf: Shelf, listing: seq<string>): seq<Key> {
    Sorted(Regular(shelf, ByName(listing)))
  }

  /** All but the newest `keep`. */
  function Victims(shelf: Shelf, listing: seq<string>, keep: nat): (victims: seq<string>)
    ensures |victims| == Surplus(|Ranked(shelf, listing)|, keep)
  {
    NamesOf(Ranked(shelf, listing))[..Surplus(|Ranked(shelf, listing)|, keep)]
  }

  function Survivors(shelf: Shelf, listing: seq<string>, keep: nat): seq<string> {
    NamesOf(Ranked(shelf, listing))[Surplus(|Ranked(shelf, listing)|, keep)..]
  }

  /** Exactly these names that could be deleted are gone. */
  predicate Unlinked(before: Shelf, after: Shelf, victims: seq<string>) {
    && (forall name :: name in after ==> name in before && after[name] == before[name])
    && forall name :: name in before ==> (name !in after <==> name in victims && before[name].deletable)
  }

  predicate AllDeletable(shelf: Shelf, victims: seq<string>) {
    forall name :: name in victims && name in shelf ==> shelf[name].deletable
  }

  /** How many of the oldest are deleted. */
  function Surplus(total: nat, keep: nat): nat {
    if total > keep then total - keep else 0
  }

  predicate NoDups<T(==)>(s: seq<T>) {
    forall i, j :: 0 <= i < j < |s| ==> s[i] != s[j]
  }

  lemma {:induction false} CountedOnce<T>(s: seq<T>, x: T)
    requires NoDups(s)
    ensures multiset(s)[x] <= 1
  {
    if s != [] {
      var before, last := s[..|s| - 1], s[|s| - 1];
      assert s == before + [last];
      CountedOnce(before, x);
      assert last !in before;
      assert multiset(before)[last] == 0;
    }
  }

  lemma PermutedNoDups<T>(s: seq<T>, t: seq<T>)
    requires NoDups(s) && multiset(t) == multiset(s)
    ensures NoDups(t)
  {
    forall i, j | 0 <= i < j < |t| ensures t[i] != t[j] {
      CountedOnce(s, t[i]);
      assert t == t[..j] + t[j..];
    }
  }

  lemma {:induction false} RegularNoDups(shelf: Shelf, names: seq<string>)
    requires NoDups(names)
    ensures NoDups(Regular(shelf, names)) && NoDups(NamesOf(Regular(shelf, names)))
  {
    if names != [] {
      var before, last := names[..|names| - 1], names[|names| - 1];
      RegularNoDups(shelf, before);
      assert last !in before;
      var keys := Regular(shelf, before);
      forall key | key in keys ensures key.1 != last {
        assert key.1 in before;
      }
    }
  }

  lemma RankedAreCandidates(shelf: Shelf, listing: seq<string>)
    requires Lists(shelf, listing)
    ensures forall key :: key in Ranked(shelf, listing) <==>
              IsCandidate(key.1) && key.1 in shelf && shelf[key.1].mtime == Some(key.0)
    ensures NoDups(NamesOf(Ranked(shelf, listing))) && Ordered(Ranked(shelf, listing))
  {
    forall name ensures name in ByName(listing) <==> name in shelf && IsCandidate(name) { ByNameKeeps(listing, name); }
    var regular := Regular(shelf, ByName(listing));
    var ranked := Ranked(shelf, listing);
    SortedIsOrdered(regular);
    ByNameAscends(listing);
    RegularNoDups(shelf, ByName(listing));
    PermutedNoDups(regular, ranked);
    forall key ensures key in ranked <==> key in regular {
      assert key in ranked <==> key in multiset(ranked);
      assert key in regular <==> key in multiset(regular);
    }
    forall i, j | 0 <= i < j < |ranked| ensures ranked[i].1 != ranked[j].1 {
      assert ranked[i] in ranked && ranked[j] in ranked;
      assert ranked[i] in regular && ranked[j] in regular;
    }
  }

  // ---- Who is a victim -------------------------------------------------

  /** The regular candidates that rank after this one: a later time, or the same time and a later name. */
  function Newer(shelf: Shelf, name: string): set<string>
    requires name in shelf && shelf[name].mtime.Some?
  {
    set other | other in shelf && IsCandidate(other) && shelf[other].mtime.Some?
                && (shelf[name].mtime.value < shelf[other].mtime.value
                    || (shelf[name].mtime.value == shelf[other].mtime.value && NameLess(name, other)))
  }

  /** A regular candidate with at least `keep` newer ones. */
  predicate Outnumbered(shelf: Shelf, name: string, keep: int) {
    name in shelf && IsCandidate(name) && shelf[name].mtime.Some? && |Newer(shelf, name)| >= keep
  }

  lemma {:induction false} NameIrreflexive(a: string)
    ensures !NameLess(a, a)
  {
    if a != [] {
      NameIrreflexive(a[1..]);
    }
  }

  lemma NotBoth(a: Key, b: Key)
    requires Before(a, b)
    ensures !Before(b, a) && a != b
  {
    NameIrreflexive(a.1);
    if Before(b, a) {
      NameTransitive(a.1, b.1, a.1);
    }
  }

  function Members(names: seq<string>): set<string> { set name | name in names }

  lemma {:induction false} AsManyAs(names: seq<string>)
    requires NoDups(names)
    ensures |Members(names)| == |names|
  {
    if names != [] {
      var before, last := names[..|names| - 1], names[|names| - 1];
      AsManyAs(before);
      assert last !in before && names == before + [last];
      assert Members(names) == Members(before) + {last};
    }
  }

  lemma RankedAfter(ranked: seq<Key>, i: nat, j: nat)
    requires Ordered(ranked) && NoDups(NamesOf(ranked)) && i < |ranked| && j < |ranked|
    ensures Before(ranked[i], ranked[j]) <==> i < j
  {
    var names := NamesOf(ranked);
    assert i != j ==> names[i] != names[j];
    if i == j {
      NameIrreflexive(ranked[i].1);
    } else if j < i {
      NotBoth(ranked[j], ranked[i]);
    }
  }

  /** All regular candidates, each once, oldest first. */
  ghost predicate Ranks(shelf: Shelf, ranked: seq<Key>) {
    && Ordered(ranked) && NoDups(NamesOf(ranked))
    && forall key :: key in ranked <==> key.1 in shelf && IsCandidate(key.1) && shelf[key.1].mtime == Some(key.0)
  }

  lemma RankOfName(shelf: Shelf, ranked: seq<Key>, name: string) returns (j: nat)
    requires Ranks(shelf, ranked) && name in shelf && IsCandidate(name) && shelf[name].mtime.Some?
    ensures j < |ranked| && ranked[j] == (shelf[name].mtime.value, name)
  {
    hide IsCandidate;
    assert (shelf[name].mtime.value, name) in ranked;
    j :| 0 <= j < |ranked| && ranked[j] == (shelf[name].mtime.value, name);
  }

  lemma IsNewerExactly(shelf: Shelf, ranked: seq<Key>, i: nat, j: nat)
    requires Ranks(shelf, ranked) && i < |ranked| && j < |ranked|
    ensures ranked[i].1 in shelf && IsCandidate(ranked[i].1) && shelf[ranked[i].1].mtime == Some(ranked[i].0)
    ensures ranked[j].1 in Newer(shelf, ranked[i].1) <==> i < j
  {
    hide IsCandidate, NameLess;
    assert ranked[i] in ranked && ranked[j] in ranked;
    RankedAfter(ranked, i, j);
  }

  lemma NewerAreRankedAfter(shelf: Shelf, ranked: seq<Key>, i: nat)
    requires Ranks(shelf, ranked) && i < |ranked|
    ensures ranked[i].1 in shelf && IsCandidate(ranked[i].1) && shelf[ranked[i].1].mtime == Some(ranked[i].0)
    ensures |Newer(shelf, ranked[i].1)| == |ranked| - 1 - i
  {
    hide NameLess, IsCandidate, Ranks;
    IsNewerExactly(shelf, ranked, i, i);
    var later := NamesOf(ranked)[i + 1..];
    forall other ensures other in Newer(shelf, ranked[i].1) <==> other in Members(later) {
      if other in Newer(shelf, ranked[i].1) {
        var j := RankOfName(shelf, ranked, other);
        IsNewerExactly(shelf, ranked, i, j);
        assert later[j - i - 1] == other;
      }
      if other in later {
        var j :| 0 <= j < |later| && later[j] == other;
        IsNewerExactly(shelf, ranked, i, i + 1 + j);
      }
    }
    assert Newer(shelf, ranked[i].1) == Members(later);
    RankedOnce(shelf, ranked);
    AsManyAs(later);
  }

  lemma RankedOnce(shelf: Shelf, ranked: seq<Key>)
    requires Ranks(shelf, ranked)
    ensures NoDups(NamesOf(ranked))
  {
  }

  lemma VictimAtRank(shelf: Shelf, ranked: seq<Key>, keep: nat, i: nat)
    requires Ranks(shelf, ranked) && i < |ranked|
    ensures var names, surplus := NamesOf(ranked), Surplus(|ranked|, keep);
      && names[i] in shelf && IsCandidate(names[i]) && shelf[names[i]].mtime.Some?
      && (Outnumbered(shelf, names[i], keep) <==> i < surplus)
      && (names[i] in names[..surplus] <==> i < surplus)
      && (names[i] in names[surplus..] <==> i >= surplus)
  {
    hide IsCandidate, Newer, Ranks;
    RankedOnce(shelf, ranked);
    NewerAreRankedAfter(shelf, ranked, i);
    SplitNames(NamesOf(ranked), Surplus(|ranked|, keep), i);
  }

  /** Deleted are exactly the regular candidates with at least `keep` newer ones. */
  lemma VictimsExactly(shelf: Shelf, listing: seq<string>, keep: nat)
    requires Lists(shelf, listing)
    ensures forall name :: name in Victims(shelf, listing, keep) <==> Outnumbered(shelf, name, keep)
    ensures forall name :: name in Survivors(shelf, listing, keep) <==>
      name in shelf && IsCandidate(name) && shelf[name].mtime.Some? && !Outnumbered(shelf, name, keep)
  {
    RankedAreCandidates(shelf, listing);
    assert Ranks(shelf, Ranked(shelf, listing));
    hide Ranked, IsCandidate, Newer, Lists, Ranks, Outnumbered;
    forall name
      ensures name in Victims(shelf, listing, keep) <==> Outnumbered(shelf, name, keep)
      ensures name in Survivors(shelf, listing, keep) <==>
        name in shelf && IsCandidate(name) && shelf[name].mtime.Some? && !Outnumbered(shelf, name, keep)
    {
      VictimExactly(shelf, Ranked(shelf, listing), keep, name);
    }
  }

  lemma RankedExactly(shelf: Shelf, ranked: seq<Key>, name: string)
    requires Ranks(shelf, ranked)
    ensures name in NamesOf(ranked) <==> name in shelf && IsCandidate(name) && shelf[name].mtime.Some?
  {
    hide IsCandidate;
    var names := NamesOf(ranked);
    if name in shelf && IsCandidate(name) && shelf[name].mtime.Some? {
      var i := RankOfName(shelf, ranked, name);
      assert names[i] == name;
    }
    if name in names {
      var i :| 0 <= i < |names| && names[i] == name;
      assert ranked[i] in ranked;
    }
  }

  lemma VictimExactly(shelf: Shelf, ranked: seq<Key>, keep: nat, name: string)
    requires Ranks(shelf, ranked)
    ensures var names, surplus := NamesOf(ranked), Surplus(|ranked|, keep);
      && (name in names[..surplus] <==> Outnumbered(shelf, name, keep))
      && (name in names[surplus..] <==>
            name in shelf && IsCandidate(name) && shelf[name].mtime.Some? && !Outnumbered(shelf, name, keep))
  {
    hide IsCandidate, Newer, Ranks;
    var names, surplus := NamesOf(ranked), Surplus(|ranked|, keep);
    RankedExactly(shelf, ranked, name);
    assert names == names[..surplus] + names[surplus..];
    if name in names {
      var i :| 0 <= i < |names| && names[i] == name;
      VictimAtRank(shelf, ranked, keep, i);
    }
  }

  lemma KeptExactly(shelf: Shelf, listing: seq<string>, keep: nat)
    requires Lists(shelf, listing)
    ensures forall name :: name in Survivors(shelf, listing, keep) + Unassessed(shelf, ByName(listing)) <==>
      name in shelf && IsCandidate(name) && !Outnumbered(shelf, name, keep)
  {
    VictimsExactly(shelf, listing, keep);
    hide Victims, Survivors, ByName, Newer, Unassessed;
    forall name ensures name in ByName(listing) <==> name in shelf && IsCandidate(name) { ByNameKeeps(listing, name); }
  }

  lemma SplitNames(names: seq<string>, n: nat, i: nat)
    requires NoDups(names) && n <= |names| && i < |names|
    ensures names[i] in names[..n] <==> i < n
    ensures names[i] in names[n..] <==> i >= n
  {
    if i < n {
      assert names[..n][i] == names[i];
    } else {
      assert names[n..][i - n] == names[i];
    }
  }

  lemma NothingAssessed(shelf: Shelf)
    ensures Regular(shelf, []) == [] && Unassessed(shelf, []) == []
  {
  }

  lemma OneAssessed(shelf: Shelf, names: seq<string>, i: nat)
    requires i < |names| && names[i] in shelf
    ensures Regular(shelf, names[..i + 1]) ==
            Regular(shelf, names[..i]) + if shelf[names[i]].mtime.Some? then [(shelf[names[i]].mtime.value, names[i])] else []
    ensures Unassessed(shelf, names[..i + 1]) == Unassessed(shelf, names[..i]) + if shelf[names[i]].mtime.None? then [names[i]] else []
  {
    assert names[..i + 1][..i] == names[..i];
  }

  class WitnessDirectory {
    var shelf: Shelf

    const place: Place

    constructor (place: Place, shelf: Shelf)
      ensures this.place == place && this.shelf == shelf
    {
      this.place, this.shelf := place, shelf;
    }

    /** Deletes the oldest regular witnesses, keeping the newest `keep`. */
    method PruneWitnesses(listing: seq<string>, keep: int) returns (r: PruneResult)
      requires Lists(shelf, listing)
      modifies this
      ensures r.BadKeep? <==> keep < 1
      ensures r.NoDirectory? <==> keep >= 1 && (place.Nowhere? || place.NotADirectory?)
      ensures r.CannotList? <==> keep >= 1 && place.Unlistable?
      ensures r.BadKeep? || r.NoDirectory? || r.CannotList? ==> shelf == old(shelf)
      ensures keep >= 1 && place.Directory? ==>
        && (forall name :: name in shelf ==> name in old(shelf) && shelf[name] == old(shelf)[name])
        && (forall name :: name in old(shelf) ==> (name !in shelf <==> Outnumbered(old(shelf), name, keep) && old(shelf)[name].deletable))
        && (r.Pruned? <==> forall name :: Outnumbered(old(shelf), name, keep) ==> old(shelf)[name].deletable)
      ensures r.CannotDelete? ==> forall name :: name in r.failures <==> Outnumbered(old(shelf), name, keep) && !old(shelf)[name].deletable
      ensures r.Pruned? ==> r.deleted == Victims(old(shelf), listing, keep)
      ensures r.Pruned? ==> r.kept == Survivors(old(shelf), listing, keep) + Unassessed(old(shelf), ByName(listing))
      ensures r.Pruned? ==> forall name ::
        && (name in r.deleted <==> Outnumbered(old(shelf), name, keep))
        && (name in r.kept <==> name in old(shelf) && IsCandidate(name) && !Outnumbered(old(shelf), name, keep))
    {
      hide ByName, Sorted, Lists, Outnumbered, IsCandidate, Unassessed, Regular;
      if keep < 1 {
        return BadKeep;
      }
      if place.Nowhere? || place.NotADirectory? {
        return NoDirectory;
      }
      if place.Unlistable? {
        return CannotList;
      }
      var candidates := ByName(listing);
      var regular, unassessed := Assess(listing, candidates);
      regular := Sorted(regular);
      var paths := NamesOf(regular);
      var victims := paths[..Surplus(|paths|, keep)];
      var kept := paths[|victims|..];
      VictimsAreShelved(shelf, listing, keep);
      VictimsExactly(shelf, listing, keep);
      KeptExactly(shelf, listing, keep);
      var deleted, failures := Unlink(victims);
      if failures != [] {
        return CannotDelete(failures);
      }
      r := Pruned(kept + unassessed, deleted);
    }

    /** Sorts the candidates into regular files and the rest. */
    method Assess(ghost listing: seq<string>, candidates: seq<string>) returns (regular: seq<Key>, unassessed: seq<string>)
      requires Lists(shelf, listing) && candidates == ByName(listing)
      ensures regular == Regular(shelf, candidates) && unassessed == Unassessed(shelf, candidates)
    {
      forall name | name in candidates ensures name in shelf { ByNameKeeps(listing, name); }
      hide ByName, Regular, Unassessed, Lists;
      regular, unassessed := [], [];
      NothingAssessed(shelf);
      for i := 0 to |candidates|
        invariant regular == Regular(shelf, candidates[..i]) && unassessed == Unassessed(shelf, candidates[..i])
      {
        assert candidates[i] in candidates;
        OneAssessed(shelf, candidates, i);
        if shelf[candidates[i]].mtime.None? {
          unassessed := unassessed + [candidates[i]];
        } else {
          regular := regular + [(shelf[candidates[i]].mtime.value, candidates[i])];
        }
      }
      assert candidates[..|candidates|] == candidates;
    }

    method Unlink(victims: seq<string>) returns (deleted: seq<string>, failures: seq<string>)
      requires (forall name :: name in victims ==> name in shelf) && NoDups(victims)
      modifies this
      ensures Unlinked(old(shelf), shelf, victims)
      ensures failures == [] <==> AllDeletable(old(shelf), victims)
      ensures failures == [] ==> deleted == victims
      ensures forall name :: name in failures <==> name in victims && !old(shelf)[name].deletable
    {
      deleted, failures := [], [];
      for i := 0 to |victims|
        invariant Unlinked(old(shelf), shelf, victims[..i])
        invariant failures == [] <==> AllDeletable(old(shelf), victims[..i])
        invariant failures == [] ==> deleted == victims[..i]
        invariant forall name :: name in failures <==> name in victims[..i] && !old(shelf)[name].deletable
      {
        assert victims[..i + 1] == victims[..i] + [victims[i]];
        assert victims[i] !in victims[..i];
        var victim := victims[i];
        if shelf[victim].deletable {
          shelf := shelf - {victim};
          deleted := deleted + [victim];
        } else {
          failures := failures + [victim];
        }
      }
      assert victims[..|victims|] == victims;
    }
  }

  lemma VictimsAreShelved(shelf: Shelf, listing: seq<string>, keep: nat)
    requires Lists(shelf, listing)
    ensures NoDups(Victims(shelf, listing, keep)) && forall name :: name in Victims(shelf, listing, keep) ==> name in shelf
  {
    RankedAreCandidates(shelf, listing);
    var ranked := Ranked(shelf, listing);
    forall name | name in Victims(shelf, listing, keep) ensures name in shelf {
      var i :| 0 <= i < |ranked| && ranked[i].1 == name;
      assert ranked[i] in ranked;
    }
  }

  // ---- What pruning keeps ----------------------------------------------

  /** The file is a witness of the checkpoint at position `c`. */
  predicate Genuine(p: Platform, journal: seq<Event>, file: WitnessFile, c: nat) {
    file.Witness? && c < |journal| && KindOf(journal[c]) == W(CHECKPOINT) && Copies(p, file.event, journal[c])
  }

  /** Later checkpoints of the journal were shipped later. */
  ghost predicate MtimesGrow(p: Platform, journal: seq<Event>, ranked: seq<Key>, shelf: Shelf) {
    forall a, b :: a in ranked && b in ranked && a.1 in shelf && b.1 in shelf ==>
      forall c, d :: Genuine(p, journal, shelf[a.1].file, c) && Genuine(p, journal, shelf[b.1].file, d) && c < d ==> a.0 < b.0
  }

  lemma BadWitnessRefused(p: Platform, trusted: Keyring, lines: seq<Line>, file: WitnessFile)
    requires !file.Witness? && !file.NoWitness?
    ensures !Verify(p, trusted, lines, file).valid
  {
    hide Verify, AllClean, CoverageOf;
    ValidMeans(p, trusted, lines, file);
  }

  lemma AcceptedReaches(p: Platform, trusted: Keyring, journal: seq<Event>, lines: seq<Line>, file: WitnessFile)
    requires InjectiveDigest(p) && ShowsTexts(p) && Produced(p, trusted, journal) && OnlySigned(p, trusted, journal)
    requires !file.NoWitness?
    ensures Verify(p, trusted, lines, file).valid <==>
      && Readable(lines) == |lines| && CopiesPrefix(p, Read(lines), journal)
      && exists c :: 0 <= c < |Read(lines)| && Genuine(p, journal, file, c)
  {
    hide Produced, OnlySigned, Copies, Verify;
    var es := Read(lines);
    if file.Witness? {
      AcceptsExactlyPrefixesPast(p, trusted, journal, lines, file.event);
      if ReachesPast(p, journal, file.event, |es|) {
        var c :| 0 <= c < |journal| && c < |es| && KindOf(journal[c]) == W(CHECKPOINT) && Copies(p, file.event, journal[c]);
        assert Genuine(p, journal, file, c);
      }
    } else {
      BadWitnessRefused(p, trusted, lines, file);
    }
  }

  /** A list that verifies against a newer witness verifies against every older one. */
  lemma NewerSubsumesOlder(p: Platform, trusted: Keyring, journal: seq<Event>, lines: seq<Line>,
                           ranked: seq<Key>, shelf: Shelf, i: nat, j: nat, c: nat)
    requires InjectiveDigest(p) && ShowsTexts(p) && Produced(p, trusted, journal) && OnlySigned(p, trusted, journal)
    requires MtimesGrow(p, journal, ranked, shelf) && Ordered(ranked) && i <= j < |ranked|
    requires ranked[i].1 in shelf && ranked[j].1 in shelf
    requires Genuine(p, journal, shelf[ranked[i].1].file, c)
    requires !shelf[ranked[j].1].file.NoWitness? && Verify(p, trusted, lines, shelf[ranked[j].1].file).valid
    ensures Verify(p, trusted, lines, shelf[ranked[i].1].file).valid
  {
    hide Produced, OnlySigned, Verify, Genuine, InjectiveDigest, ShowsTexts;
    var older, newer := shelf[ranked[i].1].file, shelf[ranked[j].1].file;
    AcceptedReaches(p, trusted, journal, lines, newer);
    var d :| 0 <= d < |Read(lines)| && Genuine(p, journal, newer, d);
    assert ranked[i] in ranked && ranked[j] in ranked;
    assert ranked[i].0 <= ranked[j].0;
    GenuineIsWitness(p, journal, older, c);
    if i == j {
      assert older == newer;
    } else {
      assert c <= d;
      AcceptedReaches(p, trusted, journal, lines, older);
    }
  }

  lemma GenuineIsWitness(p: Platform, journal: seq<Event>, file: WitnessFile, c: nat)
    requires Genuine(p, journal, file, c)
    ensures file.Witness?
  {
  }

  /** Pruning loses no truncation bound: the newest regular witness survives, and
      whatever verifies against it verifies against every deleted genuine witness. */
  lemma PruningKeepsTheBound(p: Platform, trusted: Keyring, journal: seq<Event>, lines: seq<Line>,
                             shelf: Shelf, listing: seq<string>, keep: nat, deleted: string, c: nat)
    requires InjectiveDigest(p) && ShowsTexts(p) && Produced(p, trusted, journal) && OnlySigned(p, trusted, journal)
    requires Lists(shelf, listing) && keep >= 1 && MtimesGrow(p, journal, Ranked(shelf, listing), shelf)
    requires deleted in Victims(shelf, listing, keep) && deleted in shelf && Genuine(p, journal, shelf[deleted].file, c)
    ensures var survivors := Survivors(shelf, listing, keep);
      && survivors != []
      && var newest := survivors[|survivors| - 1];
      && newest in shelf && newest !in Victims(shelf, listing, keep)
      && (!shelf[newest].file.NoWitness? && Verify(p, trusted, lines, shelf[newest].file).valid ==>
            Verify(p, trusted, lines, shelf[deleted].file).valid)
  {
    hide Produced, OnlySigned, Verify, Genuine, InjectiveDigest, ShowsTexts, MtimesGrow, Lists, Ranked, Ordered;
    RankedAreCandidates(shelf, listing);
    var ranked := Ranked(shelf, listing);
    var i := RankOf(shelf, listing, keep, deleted);
    NewestSurvives(shelf, listing, keep);
    hide Survivors, Victims;
    var newest := ranked[|ranked| - 1].1;
    assert ranked[|ranked| - 1] in ranked;
    if !shelf[newest].file.NoWitness? && Verify(p, trusted, lines, shelf[newest].file).valid {
      NewerSubsumesOlder(p, trusted, journal, lines, ranked, shelf, i, |ranked| - 1, c);
    }
  }

  lemma RankOf(shelf: Shelf, listing: seq<string>, keep: nat, victim: string) returns (i: nat)
    requires victim in Victims(shelf, listing, keep)
    ensures i < |Ranked(shelf, listing)| && Ranked(shelf, listing)[i].1 == victim
  {
    hide Ranked;
    i :| 0 <= i < |Victims(shelf, listing, keep)| && Victims(shelf, listing, keep)[i] == victim;
  }

  lemma NewestSurvives(shelf: Shelf, listing: seq<string>, keep: nat)
    requires Lists(shelf, listing) && keep >= 1 && Ranked(shelf, listing) != []
    ensures Survivors(shelf, listing, keep) != []
    ensures var survivors, ranked := Survivors(shelf, listing, keep), Ranked(shelf, listing);
      && survivors[|survivors| - 1] == ranked[|ranked| - 1].1
      && survivors[|survivors| - 1] !in Victims(shelf, listing, keep)
  {
    hide Ranked, Lists, IsCandidate, Ordered, NoDups;
    RankedAreCandidates(shelf, listing);
    var names := NamesOf(Ranked(shelf, listing));
    var surplus := Surplus(|names|, keep);
    SplitNames(names, surplus, |names| - 1);
    assert names[surplus..][|names| - 1 - surplus] == names[|names| - 1];
  }

  // ---- Auditing --------------------------------------------------------

  datatype FileStatus = FileStatus(name: string, count: Option<int>, covered: bool, first: Option<Issue>)

  function ShownCount(file: WitnessFile): Option<int> {
    if file.Witness? && IsInt(Get(file.event, CheckpointCount)) then Some(IntValue(Get(file.event, CheckpointCount))) else None
  }

  function StatusFor(p: Platform, trusted: Keyring, lines: seq<Line>, name: string, file: WitnessFile): FileStatus {
    var result := Verify(p, trusted, lines, file);
    FileStatus(name, ShownCount(file), result.valid,
               if result.valid || result.issues == [] then None else Some(result.issues[0]))
  }

  /** Python's `report.valid`. */
  predicate AllCovered(files: seq<FileStatus>) {
    files != [] && forall i :: 0 <= i < |files| ==> files[i].covered
  }

  function Statuses(p: Platform, trusted: Keyring, lines: seq<Line>, shelf: Shelf, names: seq<string>): seq<FileStatus> {
    if names == [] then []
    else
      var last := names[|names| - 1];
      Statuses(p, trusted, lines, shelf, names[..|names| - 1])
      + if last in shelf then [StatusFor(p, trusted, lines, last, shelf[last].file)] else []
  }

  /** The status tells what verifying against this witness gives. */
  predicate TellsOf(p: Platform, trusted: Keyring, lines: seq<Line>, shelf: Shelf, status: FileStatus) {
    && status.name in shelf && IsCandidate(status.name)
    && var file := shelf[status.name].file; var result := Verify(p, trusted, lines, file);
    && (status.covered <==> result.valid)
    && (status.first.Some? <==> !result.valid)
    && (status.first.Some? ==> result.issues != [] && status.first.value == result.issues[0])
    && match file
       case Witness(checkpoint) =>
         (match Get(checkpoint, CheckpointCount)
          case Num(n) => status.count == Some(n)
          case Bool(b) => status.count == Some(if b then 1 else 0)
          case _ => status.count == None)
       case _ => status.count == None
  }

  /** Checks every shipped witness against the journal, in order of name; a directory
      that cannot be listed is one file that is not covered. */
  method AuditWitnesses(p: Platform, trusted: Keyring, lines: seq<Line>, directory: string, listable: bool, shelf: Shelf, listing: seq<string>)
    returns (files: seq<FileStatus>)
    requires Lists(shelf, listing)
    ensures listable ==> files == Statuses(p, trusted, lines, shelf, ByName(listing))
    ensures listable ==>
      && (forall i :: 0 <= i < |files| ==> TellsOf(p, trusted, lines, shelf, files[i]))
      && (forall i, j :: 0 <= i < j < |files| ==> NameLess(files[i].name, files[j].name))
      && forall name :: name in shelf && IsCandidate(name) ==> exists i :: 0 <= i < |files| && files[i].name == name
    ensures !listable ==> files == [FileStatus(directory, None, false, None)] && !AllCovered(files)
  {
    if !listable {
      files := [FileStatus(directory, None, false, None)];
      assert !files[0].covered;
      return;
    }
    StatusesTell(p, trusted, lines, shelf, listing);
    var candidates := ByName(listing);
    forall name | name in candidates ensures name in shelf { ByNameKeeps(listing, name); }
    hide ByName, Verify, TellsOf, NameLess, IsCandidate, Statuses, Lists;
    files := [];
    NoStatus(p, trusted, lines, shelf);
    for i := 0 to |candidates|
      invariant files == Statuses(p, trusted, lines, shelf, candidates[..i])
    {
      assert candidates[i] in candidates;
      OneStatus(p, trusted, lines, shelf, candidates, i);
      var file := shelf[candidates[i]].file;
      var result, _ := ReadAndVerify(p, trusted, lines, file, Nothing);
      var first := if result.valid || result.issues == [] then None else Some(result.issues[0]);
      files := files + [FileStatus(candidates[i], ShownCount(file), result.valid, first)];
    }
    assert candidates[..|candidates|] == candidates;
  }

  lemma NoStatus(p: Platform, trusted: Keyring, lines: seq<Line>, shelf: Shelf)
    ensures Statuses(p, trusted, lines, shelf, []) == []
  {
  }

  lemma OneStatus(p: Platform, trusted: Keyring, lines: seq<Line>, shelf: Shelf, names: seq<string>, i: nat)
    requires i < |names| && names[i] in shelf
    ensures Statuses(p, trusted, lines, shelf, names[..i + 1]) ==
            Statuses(p, trusted, lines, shelf, names[..i]) + [StatusFor(p, trusted, lines, names[i], shelf[names[i]].file)]
  {
    hide StatusFor;
    assert names[..i + 1][..i] == names[..i];
  }

  lemma StatusesTell(p: Platform, trusted: Keyring, lines: seq<Line>, shelf: Shelf, listing: seq<string>)
    requires Lists(shelf, listing)
    ensures var files := Statuses(p, trusted, lines, shelf, ByName(listing));
      && (forall i :: 0 <= i < |files| ==> TellsOf(p, trusted, lines, shelf, files[i]))
      && (forall i, j :: 0 <= i < j < |files| ==> NameLess(files[i].name, files[j].name))
      && forall name :: name in shelf && IsCandidate(name) ==> exists i :: 0 <= i < |files| && files[i].name == name
  {
    hide ByName, Statuses, TellsOf, NameLess, IsCandidate, Verify;
    var names := ByName(listing);
    forall name ensures name in names <==> name in shelf && IsCandidate(name) { ByNameIsCandidate(shelf, listing, name); }
    assert forall i :: 0 <= i < |names| ==> names[i] in names;
    StatusesPointwise(p, trusted, lines, shelf, names);
    ListedOnce(shelf, listing);
    ByNameAscends(listing);
    forall i | 0 <= i < |names| ensures TellsOf(p, trusted, lines, shelf, StatusFor(p, trusted, lines, names[i], shelf[names[i]].file)) {
      StatusTells(p, trusted, lines, shelf, names[i]);
    }
  }

  lemma ListedOnce(shelf: Shelf, listing: seq<string>)
    requires Lists(shelf, listing)
    ensures NoDups(listing)
  {
  }

  lemma StatusTells(p: Platform, trusted: Keyring, lines: seq<Line>, shelf: Shelf, name: string)
    requires name in shelf && IsCandidate(name)
    ensures TellsOf(p, trusted, lines, shelf, StatusFor(p, trusted, lines, name, shelf[name].file))
  {
    hide AllClean, CoverageOf, IsCandidate;
    VerdictIsSilence(p, trusted, lines, shelf[name].file);
    hide Verify;
  }

  lemma VerdictIsSilence(p: Platform, trusted: Keyring, lines: seq<Line>, file: WitnessFile)
    ensures Verify(p, trusted, lines, file).valid <==> Verify(p, trusted, lines, file).issues == []
  {
  }

  lemma ByNameIsCandidate(shelf: Shelf, listing: seq<string>, name: string)
    requires Lists(shelf, listing)
    ensures name in ByName(listing) <==> name in shelf && IsCandidate(name)
  {
    ByNameKeeps(listing, name);
  }

  lemma {:induction false} StatusesPointwise(p: Platform, trusted: Keyring, lines: seq<Line>, shelf: Shelf, names: seq<string>)
    requires forall i :: 0 <= i < |names| ==> names[i] in shelf
    ensures |Statuses(p, trusted, lines, shelf, names)| == |names|
    ensures forall i :: 0 <= i < |names| ==>
      Statuses(p, trusted, lines, shelf, names)[i] == StatusFor(p, trusted, lines, names[i], shelf[names[i]].file)
  {
    hide StatusFor;
    if names != [] {
      StatusesPointwise(p, trusted, lines, shelf, names[..|names| - 1]);
    }
  }

  /** The candidates among the shipped files. */
  predicate IsShipped(shelf: Shelf, name: string) { name in shelf && IsCandidate(name) }

  /** The audit is clean exactly when there is a witness and the file verifies against each. */
  lemma CleanWitnessAuditMeans(p: Platform, trusted: Keyring, lines: seq<Line>, shelf: Shelf, listing: seq<string>)
    requires Lists(shelf, listing)
    ensures AllCovered(Statuses(p, trusted, lines, shelf, ByName(listing))) <==>
      && (exists name :: IsShipped(shelf, name))
      && forall name :: IsShipped(shelf, name) ==> Verify(p, trusted, lines, shelf[name].file).valid
  {
    hide Verify, ByName, Statuses, Lists, IsCandidate;
    var names := ByName(listing);
    forall name ensures name in names <==> IsShipped(shelf, name) { ByNameIsCandidate(shelf, listing, name); }
    assert forall i :: 0 <= i < |names| ==> names[i] in names;
    StatusesPointwise(p, trusted, lines, shelf, names);
    if names != [] {
      assert IsShipped(shelf, names[0]);
    }
    forall name | IsShipped(shelf, name)
      ensures exists i :: 0 <= i < |names| && Statuses(p, trusted, lines, shelf, names)[i] == StatusFor(p, trusted, lines, name, shelf[name].file)
    {
      var i :| 0 <= i < |names| && names[i] == name;
    }
  }

  /** Against one journal: clean exactly when every shipped witness is genuine and the
      file is a copy of a prefix that reaches past every one of their checkpoints. */
  lemma CleanWitnessAuditReaches(p: Platform, trusted: Keyring, journal: seq<Event>, lines: seq<Line>, shelf: Shelf, listing: seq<string>)
    requires InjectiveDigest(p) && ShowsTexts(p) && Produced(p, trusted, journal) && OnlySigned(p, trusted, journal)
    requires Lists(shelf, listing) && forall name :: IsShipped(shelf, name) ==> !shelf[name].file.NoWitness?
    ensures AllCovered(Statuses(p, trusted, lines, shelf, ByName(listing))) <==>
      && (exists name :: IsShipped(shelf, name)) && Readable(lines) == |lines| && CopiesPrefix(p, Read(lines), journal)
      && forall name :: IsShipped(shelf, name) ==> exists c :: 0 <= c < |Read(lines)| && Genuine(p, journal, shelf[name].file, c)
  {
    hide Produced, OnlySigned, Verify, Genuine, InjectiveDigest, ShowsTexts, Lists, ByName, Statuses, AllCovered, CopiesPrefix, Read, IsCandidate;
    CleanWitnessAuditMeans(p, trusted, lines, shelf, listing);
    forall name | IsShipped(shelf, name)
      ensures Verify(p, trusted, lines, shelf[name].file).valid <==>
        && Readable(lines) == |lines| && CopiesPrefix(p, Read(lines), journal)
        && exists c :: 0 <= c < |Read(lines)| && Genuine(p, journal, shelf[name].file, c)
    {
      AcceptedReaches(p, trusted, journal, lines, shelf[name].file);
    }
  }
}
