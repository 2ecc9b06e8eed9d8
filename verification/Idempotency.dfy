/** Which prior decision blocks an idempotency key: the full scan of a journal, and
    the incrementally evolved tables that answer without scanning. */
module Idempotency {
  import opened Evidence
  import opened Facts

  type Rows = map<Text, seq<Event>>

  /** Python's `table.get(id, [])`. */
  function Lookup(table: Rows, id: Text): seq<Event> {
    if id in table then table[id] else []
  }

  /** Python's `table.setdefault(id, []).append(entry)`. */
  function Add(table: Rows, id: Text, entry: Event): Rows {
    table[id := Lookup(table, id) + [entry]]
  }

  // ---- The blocking rule -----------------------------------------------

  predicate AnySucceeded(linked: seq<Event>) {
    exists i :: 0 <= i < |linked| && Get(linked[i], Status) == W(SUCCEEDED)
  }

  predicate Cleared(p: Platform, resolved: seq<Event>) {
    resolved != [] && p.show(Get(resolved[|resolved| - 1], ResolutionValue)) == Known(CONFIRMED_NOT_COMPLETED)
  }

  /** Whether a decision, with what is linked to it, blocks a new execution. */
  predicate Blocking(p: Platform, decision: Event, linked: seq<Event>, resolved: seq<Event>, action: Text, key: Text) {
    && Get(decision, Verdict) == W(ALLOWED) && Get(decision, ActionName) == Str(action)
    && Get(decision, IdempotencyKey) == Str(key) && Get(decision, DryRun) != Bool(true)
    && (AnySucceeded(linked) || (linked == [] && !Cleared(p, resolved)))
  }

  /** Decisions in insertion order, by id, with the outcomes and resolutions linked to them. */
  datatype Tracked = Tracked(order: seq<Text>, decisions: map<Text, Event>, outcomes: Rows, resolutions: Rows)

  predicate Indexes(order: seq<Text>, decisions: map<Text, Event>) {
    forall j :: 0 <= j < |order| ==> order[j] in decisions
  }

  predicate BlocksAt(p: Platform, s: Tracked, j: nat, action: Text, key: Text)
    requires j < |s.order| && Indexes(s.order, s.decisions)
  {
    Blocking(p, s.decisions[s.order[j]], Lookup(s.outcomes, s.order[j]), Lookup(s.resolutions, s.order[j]), action, key)
  }

  /** The loop over the candidates: which one, if any, is returned. */
  method BlockingPriorFromState(p: Platform, s: Tracked, action: Text, key: Text) returns (prior: Option<nat>)
    requires Indexes(s.order, s.decisions)
    ensures prior.Some? ==> prior.value < |s.order| && BlocksAt(p, s, prior.value, action, key)
    ensures forall j :: 0 <= j < (if prior.Some? then prior.value else |s.order|) ==> !BlocksAt(p, s, j, action, key)
  {
    hide AnySucceeded, Cleared;
    for j := 0 to |s.order|
      invariant forall l :: 0 <= l < j ==> !BlocksAt(p, s, l, action, key)
    {
      var event := s.decisions[s.order[j]];
      if Get(event, Verdict) == W(ALLOWED) && Get(event, ActionName) == Str(action)
        && Get(event, IdempotencyKey) == Str(key) && Get(event, DryRun) != Bool(true) {
        var linked := Lookup(s.outcomes, s.order[j]);
        var succeeded := HoldsSucceeded(linked);
        if succeeded {
          return Some(j);
        }
        if linked == [] && !Cleared(p, Lookup(s.resolutions, s.order[j])) {
          return Some(j);
        }
      }
    }
    prior := None;
  }

  method HoldsSucceeded(linked: seq<Event>) returns (found: bool)
    ensures found <==> AnySucceeded(linked)
  {
    for i := 0 to |linked|
      invariant forall j :: 0 <= j < i ==> Get(linked[j], Status) != W(SUCCEEDED)
    {
      if Get(linked[i], Status) == W(SUCCEEDED) {
        return true;
      }
    }
    found := false;
  }

  // ---- What a state must say about a journal ---------------------------

  /** The events of one kind that refer to decision `id`, in file order. */
  function LinkedRows(fs: seq<Fact>, kind: Word, n: nat, id: Text): (rows: seq<nat>)
    requires n <= |fs|
    ensures forall x :: 0 <= x < |rows| ==> rows[x] < n
  {
    if n == 0 then []
    else if fs[n - 1].kind == W(kind) && fs[n - 1].ref == Str(id) then LinkedRows(fs, kind, n - 1, id) + [n - 1]
    else LinkedRows(fs, kind, n - 1, id)
  }

  lemma {:induction false} LinkedRowsComplete(fs: seq<Fact>, kind: Word, n: nat, id: Text, i: nat)
    requires i < n <= |fs|
    ensures i in LinkedRows(fs, kind, n, id) <==> fs[i].kind == W(kind) && fs[i].ref == Str(id)
  {
    if i < n - 1 {
      LinkedRowsComplete(fs, kind, n - 1, id, i);
    }
  }

  lemma {:induction false} LinkedRowsAscend(fs: seq<Fact>, kind: Word, n: nat, id: Text, x: nat, y: nat)
    requires n <= |fs| && x < y < |LinkedRows(fs, kind, n, id)|
    ensures LinkedRows(fs, kind, n, id)[x] < LinkedRows(fs, kind, n, id)[y]
  {
    if y < |LinkedRows(fs, kind, n - 1, id)| {
      LinkedRowsAscend(fs, kind, n - 1, id, x, y);
    }
  }

  predicate StatusesAgree(fs: seq<Fact>, rows: seq<nat>, linked: seq<Event>)
    requires forall x :: 0 <= x < |rows| ==> rows[x] < |fs|
  {
    |linked| == |rows| && forall x :: 0 <= x < |rows| ==> Get(linked[x], Status) == fs[rows[x]].status
  }

  predicate ResolutionsAgree(fs: seq<Fact>, rows: seq<nat>, resolved: seq<Event>)
    requires forall x :: 0 <= x < |rows| ==> rows[x] < |fs|
  {
    |resolved| == |rows| && forall x :: 0 <= x < |rows| ==> Get(resolved[x], ResolutionValue) == fs[rows[x]].resolution
  }

  predicate LinksAgree(fs: seq<Fact>, n: nat, id: Text, linked: seq<Event>, resolved: seq<Event>)
    requires n <= |fs|
  {
    && StatusesAgree(fs, LinkedRows(fs, OUTCOME, n, id), linked)
    && ResolutionsAgree(fs, LinkedRows(fs, RESOLUTION, n, id), resolved)
  }

  lemma LinkedMeansOutcome(fs: seq<Fact>, n: nat, id: Text, linked: seq<Event>)
    requires n <= |fs| && StatusesAgree(fs, LinkedRows(fs, OUTCOME, n, id), linked)
    ensures linked != [] <==> HasOutcome(fs, n, id)
    ensures AnySucceeded(linked) <==> HasSucceeded(fs, n, id)
  {
    var rows := LinkedRows(fs, OUTCOME, n, id);
    forall i | 0 <= i < n ensures i in rows <==> OutcomeOf(fs[i], id) {
      LinkedRowsComplete(fs, OUTCOME, n, id, i);
    }
    if linked != [] {
      assert rows[0] in rows;
    }
    if AnySucceeded(linked) {
      var x :| 0 <= x < |linked| && Get(linked[x], Status) == W(SUCCEEDED);
      assert rows[x] in rows;
    }
  }

  lemma ResolvedMeansReleased(p: Platform, fs: seq<Fact>, n: nat, id: Text, resolved: seq<Event>)
    requires n <= |fs| && ResolutionsAgree(fs, LinkedRows(fs, RESOLUTION, n, id), resolved)
    ensures Cleared(p, resolved) <==> Released(p, fs, n, id)
  {
    var rows := LinkedRows(fs, RESOLUTION, n, id);
    forall i | 0 <= i < n ensures i in rows <==> ResolutionOf(fs[i], id) {
      LinkedRowsComplete(fs, RESOLUTION, n, id, i);
    }
    if rows != [] {
      var last := rows[|rows| - 1];
      assert last in rows;
      LastIsLatest(fs, n, id);
      assert forall j :: LatestResolution(fs, n, id, j) ==> j == last;
    }
  }

  lemma LastIsLatest(fs: seq<Fact>, n: nat, id: Text)
    requires n <= |fs| && LinkedRows(fs, RESOLUTION, n, id) != []
    ensures var rows := LinkedRows(fs, RESOLUTION, n, id);
      LatestResolution(fs, n, id, rows[|rows| - 1])
  {
    var rows := LinkedRows(fs, RESOLUTION, n, id);
    var last := rows[|rows| - 1];
    assert last in rows;
    LinkedRowsComplete(fs, RESOLUTION, n, id, last);
    forall k | last < k < n ensures !ResolutionOf(fs[k], id) {
      LinkedRowsComplete(fs, RESOLUTION, n, id, k);
      NotPastLast(fs, n, id, k);
    }
  }

  lemma NotPastLast(fs: seq<Fact>, n: nat, id: Text, k: nat)
    requires n <= |fs| && LinkedRows(fs, RESOLUTION, n, id) != []
    ensures var rows := LinkedRows(fs, RESOLUTION, n, id); k in rows ==> k <= rows[|rows| - 1]
  {
    var rows := LinkedRows(fs, RESOLUTION, n, id);
    forall x | 0 <= x < |rows| ensures rows[x] <= rows[|rows| - 1] {
      if x < |rows| - 1 {
        LinkedRowsAscend(fs, RESOLUTION, n, id, x, |rows| - 1);
      }
    }
    hide LinkedRows;
  }

  /** With the right links, the rule decides what the journal says. */
  lemma BlockingMeansBlocks(p: Platform, es: seq<Event>, i: nat, decision: Event, linked: seq<Event>, resolved: seq<Event>,
                            action: Text, key: Text)
    requires i < |es| && FirstUnderId(FactsOf(es), i)
    requires Unsigned(decision) == Unsigned(es[i])
    requires LinksAgree(FactsOf(es), |es|, FactsOf(es)[i].id.t, linked, resolved)
    ensures Blocking(p, decision, linked, resolved, action, key) <==> Blocks(p, FactsOf(es), |es|, i, action, key)
  {
    hide HasOutcome, HasSucceeded, Released, AnySucceeded, Cleared, LinkedRows;
    var fs, id := FactsOf(es), FactsOf(es)[i].id.t;
    LinkedMeansOutcome(fs, |es|, id, linked);
    ResolvedMeansReleased(p, fs, |es|, id, resolved);
    UnsignedAgree(decision, es[i], Verdict);
    UnsignedAgree(decision, es[i], ActionName);
    UnsignedAgree(decision, es[i], IdempotencyKey);
    UnsignedAgree(decision, es[i], DryRun);
  }

  /** Candidate `x` of a state is the decision at `row`, with the right links. */
  ghost predicate CandidateAt(es: seq<Event>, s: Tracked, x: nat, row: nat)
    requires x < |s.order| && Indexes(s.order, s.decisions)
  {
    && row < |es| && FirstUnderId(FactsOf(es), row)
    && s.order[x] == FactsOf(es)[row].id.t
    && Unsigned(s.decisions[s.order[x]]) == Unsigned(es[row])
    && LinksAgree(FactsOf(es), |es|, s.order[x], Lookup(s.outcomes, s.order[x]), Lookup(s.resolutions, s.order[x]))
  }

  /** `rows` are the positions of the candidates a state lists. */
  ghost predicate Candidates(es: seq<Event>, rows: seq<nat>, s: Tracked) {
    && |rows| == |s.order| && Indexes(s.order, s.decisions)
    && (forall x, y :: 0 <= x < y < |rows| ==> rows[x] < rows[y])
    && forall x :: 0 <= x < |rows| ==> CandidateAt(es, s, x, rows[x])
  }

  ghost predicate Covers(fs: seq<Fact>, rows: seq<nat>, action: Text, key: Text) {
    forall i :: 0 <= i < |fs| && FirstUnderId(fs, i) && Reserves(fs[i], action, key) ==> i in rows
  }

  /** The first blocking candidate is the earliest blocking decision of the journal. */
  lemma FirstCandidateBlocks(p: Platform, es: seq<Event>, rows: seq<nat>, s: Tracked, action: Text, key: Text, prior: Option<nat>)
    requires Candidates(es, rows, s) && Covers(FactsOf(es), rows, action, key)
    requires prior.Some? ==> prior.value < |s.order| && BlocksAt(p, s, prior.value, action, key)
    requires forall j :: 0 <= j < (if prior.Some? then prior.value else |s.order|) ==> !BlocksAt(p, s, j, action, key)
    ensures BlockingPrior(p, FactsOf(es), |es|, action, key) == if prior.Some? then Some(rows[prior.value]) else None
  {
    hide Blocks, Blocking, LinksAgree, FirstUnderId, Reserves, FactsOf, Lookup;
    var fs := FactsOf(es);
    forall x | 0 <= x < |rows| ensures BlocksAt(p, s, x, action, key) <==> Blocks(p, fs, |es|, rows[x], action, key) {
      assert CandidateAt(es, s, x, rows[x]);
      BlockingMeansBlocks(p, es, rows[x], s.decisions[s.order[x]], Lookup(s.outcomes, s.order[x]),
                          Lookup(s.resolutions, s.order[x]), action, key);
    }
    var first := BlockingPrior(p, fs, |es|, action, key);
    if first.Some? {
      BlocksReserves(p, fs, first.value, action, key);
      var x :| 0 <= x < |rows| && rows[x] == first.value;
      assert BlocksAt(p, s, x, action, key);
    }
  }

  lemma BlocksReserves(p: Platform, fs: seq<Fact>, i: nat, action: Text, key: Text)
    requires Blocks(p, fs, |fs|, i, action, key)
    ensures FirstUnderId(fs, i) && Reserves(fs[i], action, key)
  {
  }

  // ---- The full scan ---------------------------------------------------

  /** Where the first decision under each textual id stands. */
  function FirstDecisions(fs: seq<Fact>, n: nat): (rows: seq<nat>)
    requires n <= |fs|
    ensures forall x :: 0 <= x < |rows| ==> rows[x] < n && FirstUnderId(fs, rows[x])
    ensures forall x, y :: 0 <= x < y < |rows| ==> rows[x] < rows[y]
    ensures forall i :: 0 <= i < n && FirstUnderId(fs, i) ==> i in rows
  {
    if n == 0 then [] else FirstDecisions(fs, n - 1) + if FirstUnderId(fs, n - 1) then [n - 1] else []
  }

  ghost predicate DecisionsScanned(es: seq<Event>, n: nat, order: seq<Text>, decisions: map<Text, Event>)
    requires n <= |es|
  {
    var fs, rows := FactsOf(es), FirstDecisions(FactsOf(es), n);
    && |order| == |rows| && (forall id :: id in decisions <==> id in order)
    && forall x :: 0 <= x < |rows| ==>
         order[x] == fs[rows[x]].id.t && order[x] in decisions && decisions[order[x]] == es[rows[x]]
  }

  ghost predicate LinksScanned(es: seq<Event>, kind: Word, n: nat, table: Rows)
    requires n <= |es|
  {
    forall id :: Lookup(table, id) == EventsAt(es, LinkedRows(FactsOf(es), kind, n, id))
  }

  function EventsAt(es: seq<Event>, rows: seq<nat>): seq<Event>
    requires forall x :: 0 <= x < |rows| ==> rows[x] < |es|
  {
    seq(|rows|, x requires 0 <= x < |rows| => es[rows[x]])
  }

  lemma NewIdMeansFirst(es: seq<Event>, n: nat, order: seq<Text>, decisions: map<Text, Event>)
    requires n < |es| && DecisionsScanned(es, n, order, decisions)
    ensures KindOf(es[n]) == W(DECISION) && IsText(Get(es[n], EventId)) && Get(es[n], EventId).t !in decisions
            <==> FirstUnderId(FactsOf(es), n)
  {
    var fs, rows := FactsOf(es), FirstDecisions(FactsOf(es), n);
    if IsDecision(fs[n]) && IsText(fs[n].id) {
      if fs[n].id.t in decisions {
        var x :| 0 <= x < |order| && order[x] == fs[n].id.t;
        assert fs[rows[x]].id == fs[n].id;
      } else if !FirstUnderId(fs, n) {
        FirstOfIdIsRow(fs, n);
      }
    }
  }

  lemma DecisionScanned(es: seq<Event>, n: nat, order: seq<Text>, decisions: map<Text, Event>)
    requires n < |es| && DecisionsScanned(es, n, order, decisions)
    ensures var e := es[n];
      if KindOf(e) == W(DECISION) && IsText(Get(e, EventId)) && Get(e, EventId).t !in decisions
      then DecisionsScanned(es, n + 1, order + [Get(e, EventId).t], decisions[Get(e, EventId).t := e])
      else DecisionsScanned(es, n + 1, order, decisions)
  {
    hide FirstUnderId, FirstDecisions, FactsOf, FactOf, Get, KindOf;
    NewIdMeansFirst(es, n, order, decisions);
    FirstDecisionsGrow(es, n);
  }

  lemma FirstDecisionsGrow(es: seq<Event>, n: nat)
    requires n < |es|
    ensures FirstDecisions(FactsOf(es), n + 1) == FirstDecisions(FactsOf(es), n) + if FirstUnderId(FactsOf(es), n) then [n] else []
    ensures FactsOf(es)[n].id == Get(es[n], EventId)
    ensures FirstUnderId(FactsOf(es), n) ==> IsText(FactsOf(es)[n].id)
  {
  }

  /** Some decision under the id of decision `n` is the first one. */
  lemma FirstOfIdIsRow(fs: seq<Fact>, n: nat)
    requires n < |fs| && IsDecision(fs[n]) && IsText(fs[n].id) && !FirstUnderId(fs, n)
    ensures exists i :: i in FirstDecisions(fs, n) && fs[i].id == fs[n].id
  {
    var j :| 0 <= j < n && IsDecision(fs[j]) && fs[j].id == fs[n].id;
    if FirstUnderId(fs, j) {
      assert j in FirstDecisions(fs, n);
    } else {
      FirstOfIdIsRow(fs, j);
      var i :| i in FirstDecisions(fs, j) && fs[i].id == fs[j].id;
      assert i in FirstDecisions(fs, n);
    }
  }

  lemma LinkedGrow(es: seq<Event>, kind: Word, n: nat, id: Text)
    requires n < |es|
    ensures var linked := KindOf(es[n]) == W(kind) && Get(es[n], DecisionEventId) == Str(id);
      EventsAt(es, LinkedRows(FactsOf(es), kind, n + 1, id)) ==
      EventsAt(es, LinkedRows(FactsOf(es), kind, n, id)) + if linked then [es[n]] else []
  {
    assert FactsOf(es)[n].kind == KindOf(es[n]) && FactsOf(es)[n].ref == Get(es[n], DecisionEventId);
  }

  lemma LinkScanned(es: seq<Event>, kind: Word, n: nat, table: Rows)
    requires n < |es| && LinksScanned(es, kind, n, table)
    ensures var e := es[n];
      if KindOf(e) == W(kind) && IsText(Get(e, DecisionEventId))
      then LinksScanned(es, kind, n + 1, Add(table, Get(e, DecisionEventId).t, e))
      else LinksScanned(es, kind, n + 1, table)
  {
    hide EventsAt, LinkedRows, FactsOf, KindOf, Get;
    var e := es[n];
    var linked := KindOf(e) == W(kind) && IsText(Get(e, DecisionEventId));
    var after := if linked then Add(table, Get(e, DecisionEventId).t, e) else table;
    forall id ensures Lookup(after, id) == EventsAt(es, LinkedRows(FactsOf(es), kind, n + 1, id)) {
      LinkedGrow(es, kind, n, id);
      assert Lookup(table, id) == EventsAt(es, LinkedRows(FactsOf(es), kind, n, id));
    }
  }

  /** A scan of the whole journal into a state. */
  method ScanState(es: seq<Event>) returns (s: Tracked)
    ensures DecisionsScanned(es, |es|, s.order, s.decisions)
    ensures LinksScanned(es, OUTCOME, |es|, s.outcomes) && LinksScanned(es, RESOLUTION, |es|, s.resolutions)
  {
    hide DecisionsScanned, LinksScanned, Add;
    var order: seq<Text>, decisions: map<Text, Event>, outcomes: Rows, resolutions: Rows := [], map[], map[], map[];
    ScanStarts(es);
    for n := 0 to |es|
      invariant DecisionsScanned(es, n, order, decisions)
      invariant LinksScanned(es, OUTCOME, n, outcomes) && LinksScanned(es, RESOLUTION, n, resolutions)
    {
      var event := es[n];
      DecisionScanned(es, n, order, decisions);
      LinkScanned(es, OUTCOME, n, outcomes);
      LinkScanned(es, RESOLUTION, n, resolutions);
      if KindOf(event) == W(DECISION) {
        var id := Get(event, EventId);
        if IsText(id) && id.t !in decisions {
          order, decisions := order + [id.t], decisions[id.t := event];
        }
      } else if KindOf(event) == W(OUTCOME) {
        var ref := Get(event, DecisionEventId);
        if IsText(ref) {
          outcomes := Add(outcomes, ref.t, event);
        }
      } else if KindOf(event) == W(RESOLUTION) {
        var ref := Get(event, DecisionEventId);
        if IsText(ref) {
          resolutions := Add(resolutions, ref.t, event);
        }
      }
    }
    s := Tracked(order, decisions, outcomes, resolutions);
  }

  lemma ScanStarts(es: seq<Event>)
    ensures DecisionsScanned(es, 0, [], map[])
    ensures LinksScanned(es, OUTCOME, 0, map[]) && LinksScanned(es, RESOLUTION, 0, map[])
  {
  }

  lemma ScannedLinksAgree(es: seq<Event>, s: Tracked, id: Text)
    requires LinksScanned(es, OUTCOME, |es|, s.outcomes) && LinksScanned(es, RESOLUTION, |es|, s.resolutions)
    ensures LinksAgree(FactsOf(es), |es|, id, Lookup(s.outcomes, id), Lookup(s.resolutions, id))
  {
    hide LinkedRows, Lookup;
    assert Lookup(s.outcomes, id) == EventsAt(es, LinkedRows(FactsOf(es), OUTCOME, |es|, id));
    assert Lookup(s.resolutions, id) == EventsAt(es, LinkedRows(FactsOf(es), RESOLUTION, |es|, id));
  }

  lemma ScannedAreCandidates(es: seq<Event>, s: Tracked)
    requires DecisionsScanned(es, |es|, s.order, s.decisions)
    requires LinksScanned(es, OUTCOME, |es|, s.outcomes) && LinksScanned(es, RESOLUTION, |es|, s.resolutions)
    ensures Candidates(es, FirstDecisions(FactsOf(es), |es|), s)
  {
    hide LinksAgree, LinksScanned, Lookup, FirstUnderId, FirstDecisions, FactsOf;
    var rows := FirstDecisions(FactsOf(es), |es|);
    forall x | 0 <= x < |rows| ensures Indexes(s.order, s.decisions) && CandidateAt(es, s, x, rows[x]) {
      ScannedLinksAgree(es, s, s.order[x]);
    }
  }

  /** The event id of the earliest decision of the journal that blocks the key. */
  function BlockingId(p: Platform, es: seq<Event>, action: Text, key: Text): Option<Text> {
    var prior := BlockingPrior(p, FactsOf(es), |es|, action, key);
    if prior.Some? then Some(FactsOf(es)[prior.value].id.t) else None
  }

  /** The authoritative scan answers the blocking rule, on every journal. */
  method ScanBlockingIdempotent(p: Platform, es: seq<Event>, action: Text, key: Text) returns (id: Option<Text>)
    ensures id == BlockingId(p, es, action, key)
  {
    hide DecisionsScanned, LinksScanned, Blocks;
    var s := ScanState(es);
    ScannedAreCandidates(es, s);
    hide BlocksAt, FirstUnderId;
    var prior := BlockingPriorFromState(p, s, action, key);
    FirstCandidateBlocks(p, es, FirstDecisions(FactsOf(es), |es|), s, action, key, prior);
    if prior.None? {
      return None;
    }
    var event := s.decisions[s.order[prior.value]];
    UnsignedAgree(event, es[FirstDecisions(FactsOf(es), |es|)[prior.value]], EventId);
    id := if IsText(Get(event, EventId)) then Some(Get(event, EventId).t) else None;
  }
}
