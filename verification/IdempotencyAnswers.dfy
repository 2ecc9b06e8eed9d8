/** The indexed answers against the scanned ones. */
module IdempotencyAnswers {
  import opened Evidence
  import opened Facts
  import opened Idempotency
  import opened IdempotencyIndex

  // ---- Blocking --------------------------------------------------------

  /** The candidates the index replays for one key. */
  function KeyState(t: Tables, pair: (Text, Text)): Tracked {
    Tracked(KeyLookup(t.byKey, pair), t.decisions, t.outcomes, t.resolutions)
  }

  /** Every id listed under a key is tracked, on any journal. */
  ghost predicate KeysTracked(t: Tables) {
    && (forall pair :: Indexes(KeyLookup(t.byKey, pair), t.decisions))
    && forall id :: id in t.decisions ==> Get(t.decisions[id], EventId) == Str(id)
  }

  lemma EvolvedStaysTracked(t: Tables, e: Event)
    requires KeysTracked(t)
    ensures KeysTracked(Evolved(t, e))
  {
    var after := Evolved(t, e);
    hide Add, Keepable;
    forall pair ensures Indexes(KeyLookup(after.byKey, pair), after.decisions) {
      assert Indexes(KeyLookup(t.byKey, pair), t.decisions);
    }
  }

  lemma {:induction false} RebuiltIsTracked(es: seq<Event>, n: nat)
    requires n <= |es|
    ensures KeysTracked(Rebuilt(es, n))
  {
    hide Evolved;
    if n > 0 {
      RebuiltIsTracked(es, n - 1);
      EvolvedStaysTracked(Rebuilt(es, n - 1), es[n - 1]);
    }
  }

  /** The first blocking candidate of a state. */
  function FirstBlocking(p: Platform, s: Tracked, action: Text, key: Text, from: nat := 0): (prior: Option<nat>)
    requires Indexes(s.order, s.decisions) && from <= |s.order|
    ensures prior.Some? ==> from <= prior.value < |s.order| && BlocksAt(p, s, prior.value, action, key)
    ensures forall j :: from <= j < (if prior.Some? then prior.value else |s.order|) ==> !BlocksAt(p, s, j, action, key)
    decreases |s.order| - from
  {
    if from == |s.order| then None
    else if BlocksAt(p, s, from, action, key) then Some(from)
    else FirstBlocking(p, s, action, key, from + 1)
  }

  ghost function IndexedBlocking(p: Platform, t: Tables, action: Text, key: Text): Option<Text>
    requires KeysTracked(t)
  {
    var s := KeyState(t, (action, key));
    var prior := FirstBlocking(p, s, action, key);
    if prior.Some? then Some(s.order[prior.value]) else None
  }

  method IndexedBlockingPrior(p: Platform, t: Tables, action: Text, key: Text) returns (id: Option<Text>)
    requires KeysTracked(t)
    ensures id == IndexedBlocking(p, t, action, key)
  {
    hide BlocksAt;
    var candidates := KeyState(t, (action, key));
    var prior := BlockingPriorFromState(p, candidates, action, key);
    if prior.None? {
      return None;
    }
    var event := t.decisions[candidates.order[prior.value]];
    id := if IsText(Get(event, EventId)) then Some(Get(event, EventId).t) else None;
  }

  /** On a well-formed journal every decision is the first under its id. */
  lemma DistinctMeansFirst(fs: seq<Fact>, i: nat)
    requires DecisionIdsDistinct(fs) && i < |fs| && IsDecision(fs[i]) && IsText(fs[i].id)
    ensures FirstUnderId(fs, i)
  {
  }

  lemma KeyRowIsCandidate(es: seq<Event>, t: Tables, pair: (Text, Text), x: nat)
    requires WellFormed(FactsOf(es)) && Exact(es, |es|, t)
    requires x < |KeyRows(es, |es|, pair)|
    ensures var row := KeyRows(es, |es|, pair)[x];
      && FirstUnderId(FactsOf(es), row)
      && IdOf(es[row]) == FactsOf(es)[row].id.t
      && IdOf(es[row]) in t.decisions && t.decisions[IdOf(es[row])] == es[row]
      && LinksAgree(FactsOf(es), |es|, IdOf(es[row]), Lookup(t.outcomes, IdOf(es[row])), Lookup(t.resolutions, IdOf(es[row])))
  {
    var row := KeyRows(es, |es|, pair)[x];
    WellFormedParts(FactsOf(es));
    hide WellFormed, DecisionIdsDistinct, StringValues, LinksAgree, KeyRows, KeysHeld, Lookup;
    TrackableIsDecision(es, row);
    DistinctMeansFirst(FactsOf(es), row);
  }

  lemma TrackableIsDecision(es: seq<Event>, i: nat)
    requires i < |es| && Trackable(es[i])
    ensures IsDecision(FactsOf(es)[i]) && IsText(FactsOf(es)[i].id) && FactsOf(es)[i].id.t == IdOf(es[i])
  {
  }

  lemma KeysHeldAt(es: seq<Event>, t: Tables, pair: (Text, Text))
    requires Exact(es, |es|, t)
    ensures KeyLookup(t.byKey, pair) == IdsAt(es, KeyRows(es, |es|, pair))
  {
    hide KeyRows, IdsAt, DecisionsHeld, LinksHeld;
  }

  lemma KeyCandidate(es: seq<Event>, t: Tables, pair: (Text, Text), x: nat)
    requires WellFormed(FactsOf(es)) && Exact(es, |es|, t) && KeysTracked(t)
    requires x < |KeyRows(es, |es|, pair)|
    ensures |KeyState(t, pair).order| == |KeyRows(es, |es|, pair)|
    ensures CandidateAt(es, KeyState(t, pair), x, KeyRows(es, |es|, pair)[x])
  {
    hide WellFormed, Exact, LinksAgree, FirstUnderId, Lookup, KeyLookup, FactsOf, KeyRows;
    KeysHeldAt(es, t, pair);
    KeyRowIsCandidate(es, t, pair, x);
  }

  lemma KeyRowsAreCandidates(es: seq<Event>, t: Tables, pair: (Text, Text))
    requires WellFormed(FactsOf(es)) && Exact(es, |es|, t) && KeysTracked(t)
    ensures Candidates(es, KeyRows(es, |es|, pair), KeyState(t, pair))
  {
    hide WellFormed, Exact, CandidateAt, KeyRows, FactsOf;
    KeysHeldAt(es, t, pair);
    forall x | 0 <= x < |KeyRows(es, |es|, pair)|
      ensures CandidateAt(es, KeyState(t, pair), x, KeyRows(es, |es|, pair)[x])
    {
      KeyCandidate(es, t, pair, x);
    }
  }

  lemma KeyRowsCover(es: seq<Event>, action: Text, key: Text)
    ensures Covers(FactsOf(es), KeyRows(es, |es|, (action, key)), action, key)
  {
    var fs, rows := FactsOf(es), KeyRows(es, |es|, (action, key));
    forall i | 0 <= i < |fs| && FirstUnderId(fs, i) && Reserves(fs[i], action, key) ensures i in rows {
      assert fs[i].id == Get(es[i], EventId);
    }
  }

  /** The index and the scan name the same blocking decision. */
  lemma BlockingIndexEqualsScan(p: Platform, es: seq<Event>, t: Tables, action: Text, key: Text)
    requires WellFormed(FactsOf(es)) && Exact(es, |es|, t) && KeysTracked(t)
    ensures IndexedBlocking(p, t, action, key) == BlockingId(p, es, action, key)
  {
    hide WellFormed, Exact, KeysTracked, BlocksAt, KeyRows, FirstUnderId, Covers;
    KeyRowsAreCandidates(es, t, (action, key));
    KeyRowsCover(es, action, key);
    var s := KeyState(t, (action, key));
    FirstCandidateBlocks(p, es, KeyRows(es, |es|, (action, key)), s, action, key, FirstBlocking(p, s, action, key));
  }

  // ---- Completed -------------------------------------------------------

  /** The earliest completed reservation of the key. */
  function CompletedPrior(fs: seq<Fact>, action: Text, key: Text, from: nat := 0): (prior: Option<nat>)
    requires from <= |fs|
    ensures prior.Some? ==> from <= prior.value < |fs| && Completes(fs, |fs|, prior.value, action, key)
    ensures forall i :: from <= i < (if prior.Some? then prior.value else |fs|) ==> !Completes(fs, |fs|, i, action, key)
    decreases |fs| - from
  {
    if from == |fs| then None
    else if Completes(fs, |fs|, from, action, key) then Some(from)
    else CompletedPrior(fs, action, key, from + 1)
  }

  predicate CompletesIn(s: Tracked, j: nat)
    requires j < |s.order| && Indexes(s.order, s.decisions)
  {
    Get(s.decisions[s.order[j]], Verdict) == W(ALLOWED) && AnySucceeded(Lookup(s.outcomes, s.order[j]))
  }

  predicate FirstCompleted(s: Tracked, prior: Option<nat>)
    requires Indexes(s.order, s.decisions)
  {
    && (prior.Some? ==> prior.value < |s.order| && CompletesIn(s, prior.value))
    && forall j :: 0 <= j < (if prior.Some? then prior.value else |s.order|) ==> !CompletesIn(s, j)
  }

  /** The indexed query; it returns the tracked decision. */
  method IndexedCompletedPrior(t: Tables, action: Text, key: Text) returns (prior: Option<nat>, event: Option<Event>)
    requires KeysTracked(t)
    ensures FirstCompleted(KeyState(t, (action, key)), prior)
    ensures event == if prior.Some? then Some(t.decisions[KeyLookup(t.byKey, (action, key))[prior.value]]) else None
  {
    var candidates := KeyLookup(t.byKey, (action, key));
    hide AnySucceeded;
    for j := 0 to |candidates|
      invariant forall l :: 0 <= l < j ==> !CompletesIn(KeyState(t, (action, key)), l)
    {
      var decision := t.decisions[candidates[j]];
      var succeeded := HoldsSucceeded(Lookup(t.outcomes, candidates[j]));
      if Get(decision, Verdict) == W(ALLOWED) && succeeded {
        return Some(j), Some(decision);
      }
    }
    prior, event := None, None;
  }

  lemma KeyRowCompletes(es: seq<Event>, t: Tables, action: Text, key: Text, x: nat)
    requires WellFormed(FactsOf(es)) && Exact(es, |es|, t) && KeysTracked(t)
    requires x < |KeyRows(es, |es|, (action, key))| == |KeyLookup(t.byKey, (action, key))|
    ensures CompletesIn(KeyState(t, (action, key)), x) <==>
            Completes(FactsOf(es), |es|, KeyRows(es, |es|, (action, key))[x], action, key)
  {
    var fs, row := FactsOf(es), KeyRows(es, |es|, (action, key))[x];
    KeysHeldAt(es, t, (action, key));
    KeyRowIsCandidate(es, t, (action, key), x);
    var id := IdOf(es[row]);
    KeyRowReserves(es, |es|, (action, key), x);
    LinkedMeansOutcome(fs, |es|, id, Lookup(t.outcomes, id));
    hide WellFormed, Exact, KeyRows, HasSucceeded, AnySucceeded, FirstUnderId;
  }

  lemma {:induction false} KeyRowReserves(es: seq<Event>, n: nat, pair: (Text, Text), x: nat)
    requires n <= |es| && x < |KeyRows(es, n, pair)|
    ensures Reserves(FactsOf(es)[KeyRows(es, n, pair)[x]], pair.0, pair.1)
  {
    hide Reserves;
    if x < |KeyRows(es, n - 1, pair)| {
      KeyRowReserves(es, n - 1, pair, x);
    }
  }

  lemma TrackedIndexes(t: Tables, pair: (Text, Text))
    requires KeysTracked(t)
    ensures Indexes(KeyLookup(t.byKey, pair), t.decisions)
  {
  }

  /** The index names the earliest completed reservation. */
  lemma CompletedIndexIsFirst(es: seq<Event>, t: Tables, action: Text, key: Text, prior: Option<nat>)
    requires WellFormed(FactsOf(es)) && Exact(es, |es|, t) && KeysTracked(t)
    requires FirstCompleted(KeyState(t, (action, key)), prior)
    ensures |KeyRows(es, |es|, (action, key))| == |KeyLookup(t.byKey, (action, key))|
    ensures CompletedPrior(FactsOf(es), action, key) ==
            if prior.Some? then Some(KeyRows(es, |es|, (action, key))[prior.value]) else None
  {
    hide WellFormed, Exact, KeysTracked, CompletesIn, KeyRows, KeyLookup, FactsOf, FirstUnderId, Reserves;
    var fs, rows := FactsOf(es), KeyRows(es, |es|, (action, key));
    TrackedIndexes(t, (action, key));
    KeysHeldAt(es, t, (action, key));
    KeyRowsCover(es, action, key);
    hide Indexes, Completes;
    forall x | 0 <= x < |rows|
      ensures CompletesIn(KeyState(t, (action, key)), x) <==> Completes(fs, |es|, rows[x], action, key)
    {
      KeyRowCompletes(es, t, action, key, x);
    }
    var first := CompletedPrior(fs, action, key);
    if first.Some? {
      assert FirstUnderId(fs, first.value) && Reserves(fs[first.value], action, key) by { CompletesIsReserved(fs, first.value, action, key); }
      var x :| 0 <= x < |rows| && rows[x] == first.value;
      assert CompletesIn(KeyState(t, (action, key)), x);
    }
  }

  lemma CompletesIsReserved(fs: seq<Fact>, i: nat, action: Text, key: Text)
    requires Completes(fs, |fs|, i, action, key)
    ensures FirstUnderId(fs, i) && Reserves(fs[i], action, key)
  {
  }

  /** The last decision recorded under `id`; the completed scan keeps that one. */
  function LastUnder(fs: seq<Fact>, n: nat, id: Text): (last: Option<nat>)
    requires n <= |fs|
    ensures last.Some? ==> last.value < n && IsDecision(fs[last.value]) && fs[last.value].id == Str(id)
    ensures forall i :: (if last.Some? then last.value + 1 else 0) <= i < n && IsDecision(fs[i]) ==> fs[i].id != Str(id)
  {
    if n == 0 then None
    else if IsDecision(fs[n - 1]) && fs[n - 1].id == Str(id) then Some(n - 1)
    else LastUnder(fs, n - 1, id)
  }

  /** The completed scan's rule for the id first recorded at `i`; it ignores `dry_run`. */
  predicate ScanCompletes(fs: seq<Fact>, i: nat, action: Text, key: Text)
    requires i < |fs|
  {
    && FirstUnderId(fs, i)
    && var last := LastUnder(fs, |fs|, fs[i].id.t);
    && last.Some? && fs[last.value].verdict == W(ALLOWED)
    && fs[last.value].actionName == Str(action) && fs[last.value].key == Str(key)
    && HasSucceeded(fs, |fs|, fs[i].id.t)
  }

  predicate FirstScanned(fs: seq<Fact>, action: Text, key: Text, prior: Option<nat>) {
    && (prior.Some? ==> prior.value < |fs| && ScanCompletes(fs, prior.value, action, key))
    && forall i :: 0 <= i < (if prior.Some? then prior.value else |fs|) ==> !ScanCompletes(fs, i, action, key)
  }

  ghost predicate OrderScanned(es: seq<Event>, n: nat, order: seq<Text>, decisions: map<Text, Event>)
    requires n <= |es|
  {
    var fs, rows := FactsOf(es), FirstDecisions(FactsOf(es), n);
    && |order| == |rows| && (forall x :: 0 <= x < |rows| ==> order[x] == fs[rows[x]].id.t)
    && forall id :: id in decisions <==> id in order
  }

  ghost predicate LastHeld(es: seq<Event>, n: nat, decisions: map<Text, Event>)
    requires n <= |es|
  {
    forall id :: id in decisions ==>
      LastUnder(FactsOf(es), n, id).Some? && decisions[id] == es[LastUnder(FactsOf(es), n, id).value]
  }

  ghost predicate LastScanned(es: seq<Event>, n: nat, order: seq<Text>, decisions: map<Text, Event>)
    requires n <= |es|
  {
    OrderScanned(es, n, order, decisions) && LastHeld(es, n, decisions)
  }

  ghost predicate SucceededScanned(fs: seq<Fact>, n: nat, succeeded: set<Text>)
    requires n <= |fs|
  {
    forall id :: id in succeeded <==> HasSucceeded(fs, n, id)
  }

  lemma SucceededGrows(es: seq<Event>, n: nat, succeeded: set<Text>)
    requires n < |es| && SucceededScanned(FactsOf(es), n, succeeded)
    ensures var e := es[n];
      if KindOf(e) == W(OUTCOME) && Get(e, Status) == W(SUCCEEDED) && IsText(Get(e, DecisionEventId))
      then SucceededScanned(FactsOf(es), n + 1, succeeded + {Get(e, DecisionEventId).t})
      else SucceededScanned(FactsOf(es), n + 1, succeeded)
  {
    var fs, f := FactsOf(es), FactsOf(es)[n];
    assert f.kind == KindOf(es[n]) && f.status == Get(es[n], Status) && f.ref == Get(es[n], DecisionEventId);
    forall id
      ensures HasSucceeded(fs, n + 1, id) <==> HasSucceeded(fs, n, id) || (OutcomeOf(f, id) && f.status == W(SUCCEEDED))
    {
    }
    hide HasSucceeded, FactsOf, KindOf, Get;
  }

  lemma NewIdFirst(es: seq<Event>, n: nat, order: seq<Text>, decisions: map<Text, Event>)
    requires n < |es| && LastScanned(es, n, order, decisions)
    ensures KindOf(es[n]) == W(DECISION) && IsText(Get(es[n], EventId)) && Get(es[n], EventId).t !in decisions
            <==> FirstUnderId(FactsOf(es), n)
  {
    var fs, rows := FactsOf(es), FirstDecisions(FactsOf(es), n);
    if IsDecision(fs[n]) && IsText(fs[n].id) {
      if fs[n].id.t in decisions {
        var x :| 0 <= x < |order| && order[x] == fs[n].id.t;
        assert fs[rows[x]].id == fs[n].id;
      } else if !FirstUnderId(fs, n) {
        FirstOfIdIsRow(fs, n);
      }
    }
  }

  lemma LastUnderGrows(es: seq<Event>, n: nat, id: Text)
    requires n < |es|
    ensures LastUnder(FactsOf(es), n + 1, id) ==
            if KindOf(es[n]) == W(DECISION) && Get(es[n], EventId) == Str(id) then Some(n) else LastUnder(FactsOf(es), n, id)
  {
    assert FactsOf(es)[n].kind == KindOf(es[n]) && FactsOf(es)[n].id == Get(es[n], EventId);
  }

  lemma OrderGrows(es: seq<Event>, n: nat, order: seq<Text>, decisions: map<Text, Event>)
    requires n < |es| && LastScanned(es, n, order, decisions)
    ensures var e := es[n];
      if KindOf(e) == W(DECISION) && IsText(Get(e, EventId))
      then OrderScanned(es, n + 1, if Get(e, EventId).t in decisions then order else order + [Get(e, EventId).t],
                        decisions[Get(e, EventId).t := e])
      else OrderScanned(es, n + 1, order, decisions)
  {
    hide FirstUnderId, FirstDecisions, LastHeld, FactsOf, FactOf, Get, KindOf;
    NewIdFirst(es, n, order, decisions);
    FirstDecisionsGrow(es, n);
    if KindOf(es[n]) == W(DECISION) && IsText(Get(es[n], EventId)) && Get(es[n], EventId).t !in decisions {
      OrderExtends(es, n, order, decisions);
    }
  }

  lemma OrderExtends(es: seq<Event>, n: nat, order: seq<Text>, decisions: map<Text, Event>)
    requires n < |es| && OrderScanned(es, n, order, decisions)
    requires IsText(Get(es[n], EventId)) && FirstUnderId(FactsOf(es), n)
    ensures OrderScanned(es, n + 1, order + [Get(es[n], EventId).t], decisions[Get(es[n], EventId).t := es[n]])
  {
    hide FirstUnderId, FirstDecisions, FactsOf, FactOf, Get;
    FirstDecisionsGrow(es, n);
    var id := Get(es[n], EventId).t;
    assert forall other :: other in order + [id] <==> other in order || other == id;
  }

  lemma LastStays(es: seq<Event>, n: nat, decisions: map<Text, Event>)
    requires n < |es| && LastHeld(es, n, decisions)
    ensures var e := es[n];
      LastHeld(es, n + 1,
               if KindOf(e) == W(DECISION) && IsText(Get(e, EventId)) then decisions[Get(e, EventId).t := e] else decisions)
  {
    hide LastUnder, FactsOf, Get, KindOf;
    forall id
      ensures LastUnder(FactsOf(es), n + 1, id) ==
              if KindOf(es[n]) == W(DECISION) && Get(es[n], EventId) == Str(id) then Some(n) else LastUnder(FactsOf(es), n, id)
    {
      LastUnderGrows(es, n, id);
    }
  }

  lemma LastGrows(es: seq<Event>, n: nat, order: seq<Text>, decisions: map<Text, Event>)
    requires n < |es| && LastScanned(es, n, order, decisions)
    ensures var e := es[n];
      if KindOf(e) == W(DECISION) && IsText(Get(e, EventId))
      then LastScanned(es, n + 1, if Get(e, EventId).t in decisions then order else order + [Get(e, EventId).t],
                       decisions[Get(e, EventId).t := e])
      else LastScanned(es, n + 1, order, decisions)
  {
    OrderGrows(es, n, order, decisions);
    LastStays(es, n, decisions);
    hide OrderScanned, LastHeld;
  }

  /** The completed scan: one loop over the file, one over the decisions it kept. */
  method ScanCompletedIdempotent(es: seq<Event>, action: Text, key: Text) returns (event: Option<Event>)
    ensures ScanReturns(es, action, key, event)
  {
    hide LastScanned, SucceededScanned;
    var order: seq<Text>, decisions: map<Text, Event>, succeeded: set<Text> := [], map[], {};
    CompletedScanStarts(es);
    for n := 0 to |es|
      invariant LastScanned(es, n, order, decisions)
      invariant SucceededScanned(FactsOf(es), n, succeeded)
    {
      var e := es[n];
      LastGrows(es, n, order, decisions);
      SucceededGrows(es, n, succeeded);
      if KindOf(e) == W(DECISION) {
        var id := Get(e, EventId);
        if IsText(id) {
          order, decisions := if id.t in decisions then order else order + [id.t], decisions[id.t := e];
        }
      } else if KindOf(e) == W(OUTCOME) {
        if Get(e, Status) == W(SUCCEEDED) && IsText(Get(e, DecisionEventId)) {
          succeeded := succeeded + {Get(e, DecisionEventId).t};
        }
      }
    }
    ghost var prior;
    event, prior := FirstInOrder(es, order, decisions, succeeded, action, key);
    ScanFound(es, action, key, prior);
  }

  /** The last decision under the id first recorded at `prior`. */
  function HeldLast(es: seq<Event>, prior: Option<nat>): Option<Event> {
    if prior.None? || prior.value >= |es| || !IsText(FactsOf(es)[prior.value].id) then None
    else
      var last := LastUnder(FactsOf(es), |es|, FactsOf(es)[prior.value].id.t);
      if last.Some? then Some(es[last.value]) else None
  }

  /** For the first id that completes the key, the last decision recorded under it. */
  ghost predicate ScanReturns(es: seq<Event>, action: Text, key: Text, event: Option<Event>) {
    exists prior :: FirstScanned(FactsOf(es), action, key, prior) && event == HeldLast(es, prior)
  }

  lemma ScanFound(es: seq<Event>, action: Text, key: Text, prior: Option<nat>)
    requires FirstScanned(FactsOf(es), action, key, prior)
    requires prior.Some? ==> LastUnder(FactsOf(es), |es|, FactsOf(es)[prior.value].id.t).Some?
    ensures ScanReturns(
              es, action, key,
              if prior.Some? then Some(es[LastUnder(FactsOf(es), |es|, FactsOf(es)[prior.value].id.t).value]) else None)
  {
    hide LastUnder, FactsOf;
    if prior.Some? {
      ScanCompletesFirst(FactsOf(es), prior.value, action, key);
      FirstIsDecision(FactsOf(es), prior.value);
    }
    hide ScanCompletes;
    assert HeldLast(es, prior) ==
           if prior.Some? then Some(es[LastUnder(FactsOf(es), |es|, FactsOf(es)[prior.value].id.t).value]) else None;
  }

  lemma CompletedScanStarts(es: seq<Event>)
    ensures LastScanned(es, 0, [], map[])
    ensures SucceededScanned(FactsOf(es), 0, {})
  {
  }

  /** What the second loop tests is the scan's rule. */
  lemma OrderedScan(es: seq<Event>, order: seq<Text>, decisions: map<Text, Event>, succeeded: set<Text>,
                    action: Text, key: Text, x: nat)
    requires LastScanned(es, |es|, order, decisions) && SucceededScanned(FactsOf(es), |es|, succeeded) && x < |order|
    ensures |order| == |FirstDecisions(FactsOf(es), |es|)| && order[x] in decisions
    ensures var fs, row := FactsOf(es), FirstDecisions(FactsOf(es), |es|)[x];
      && order[x] == fs[row].id.t
      && LastUnder(fs, |es|, order[x]).Some? && decisions[order[x]] == es[LastUnder(fs, |es|, order[x]).value]
      && (ScanCompletes(fs, row, action, key) <==>
          && Get(decisions[order[x]], Verdict) == W(ALLOWED) && Get(decisions[order[x]], ActionName) == Str(action)
          && Get(decisions[order[x]], IdempotencyKey) == Str(key) && order[x] in succeeded)
  {
    var fs, rows := FactsOf(es), FirstDecisions(FactsOf(es), |es|);
    assert order[x] in order;
    assert FirstUnderId(fs, rows[x]);
    var last := LastUnder(fs, |es|, order[x]).value;
    assert fs[last] == FactOf(es[last]);
    hide HasSucceeded, FirstUnderId, FirstDecisions, LastUnder, FactsOf;
  }

  method FirstInOrder(es: seq<Event>, order: seq<Text>, decisions: map<Text, Event>, succeeded: set<Text>, action: Text, key: Text)
    returns (event: Option<Event>, ghost prior: Option<nat>)
    requires LastScanned(es, |es|, order, decisions) && SucceededScanned(FactsOf(es), |es|, succeeded)
    ensures FirstScanned(FactsOf(es), action, key, prior)
    ensures prior.Some? ==> LastUnder(FactsOf(es), |es|, FactsOf(es)[prior.value].id.t).Some?
    ensures event == if prior.Some? then Some(es[LastUnder(FactsOf(es), |es|, FactsOf(es)[prior.value].id.t).value]) else None
  {
    hide LastScanned, SucceededScanned, ScanCompletes, LastUnder, FactsOf, FirstScanned, FirstDecisions, FirstUnderId, Get;
    ghost var fs, rows := FactsOf(es), FirstDecisions(FactsOf(es), |es|);
    OrderIsRows(es, order, decisions);
    for x := 0 to |order|
      invariant forall y :: 0 <= y < x ==> !ScanCompletes(fs, rows[y], action, key)
    {
      OrderedScan(es, order, decisions, succeeded, action, key, x);
      var e := decisions[order[x]];
      if Get(e, Verdict) == W(ALLOWED) && Get(e, ActionName) == Str(action) && Get(e, IdempotencyKey) == Str(key)
        && order[x] in succeeded {
        prior := Some(rows[x]);
        RowsBefore(fs, action, key, x);
        event := Some(e);
        return;
      }
    }
    RowsBefore(fs, action, key, |rows|);
    event, prior := None, None;
  }

  lemma OrderIsRows(es: seq<Event>, order: seq<Text>, decisions: map<Text, Event>)
    requires LastScanned(es, |es|, order, decisions)
    ensures |order| == |FirstDecisions(FactsOf(es), |es|)|
  {
  }

  /** Only first decisions can complete, so ruling out a prefix of them rules out what is before. */
  lemma RowsBefore(fs: seq<Fact>, action: Text, key: Text, x: nat)
    requires x <= |FirstDecisions(fs, |fs|)|
    requires forall y :: 0 <= y < x ==> !ScanCompletes(fs, FirstDecisions(fs, |fs|)[y], action, key)
    ensures forall i :: 0 <= i < (if x < |FirstDecisions(fs, |fs|)| then FirstDecisions(fs, |fs|)[x] else |fs|)
              ==> !ScanCompletes(fs, i, action, key)
    ensures x == |FirstDecisions(fs, |fs|)| ==> FirstScanned(fs, action, key, None)
    ensures x < |FirstDecisions(fs, |fs|)| && ScanCompletes(fs, FirstDecisions(fs, |fs|)[x], action, key) ==>
              FirstScanned(fs, action, key, Some(FirstDecisions(fs, |fs|)[x]))
  {
    var rows := FirstDecisions(fs, |fs|);
    forall i | 0 <= i < (if x < |rows| then rows[x] else |fs|)
      ensures !ScanCompletes(fs, i, action, key)
    {
      if FirstUnderId(fs, i) {
        assert i in rows;
      }
    }
  }

  lemma OnlyOneUnder(fs: seq<Fact>, i: nat)
    requires WellFormed(fs) && i < |fs| && FirstUnderId(fs, i)
    ensures LastUnder(fs, |fs|, fs[i].id.t) == Some(i)
  {
  }

  /** With no outcome for a dry run, the scan's rule is completion. */
  lemma ScanRuleIsCompletion(fs: seq<Fact>, i: nat, action: Text, key: Text)
    requires WellFormed(fs) && NoDryOutcomes(fs) && i < |fs|
    ensures ScanCompletes(fs, i, action, key) <==> Completes(fs, |fs|, i, action, key)
  {
    if FirstUnderId(fs, i) {
      OnlyOneUnder(fs, i);
      hide LastUnder, WellFormed, FirstUnderId;
      var id := fs[i].id.t;
      if HasSucceeded(fs, |fs|, id) {
        var j :| 0 <= j < |fs| && OutcomeOf(fs[j], id) && fs[j].status == W(SUCCEEDED);
        assert About(fs[j], fs[i]) by { assert IsDecision(fs[i]) && fs[i].id == Str(id) by { FirstIsDecision(fs, i); } }
      }
    }
  }

  lemma FirstIsDecision(fs: seq<Fact>, i: nat)
    requires i < |fs| && FirstUnderId(fs, i)
    ensures IsDecision(fs[i]) && IsText(fs[i].id)
  {
  }

  /** The index and the scan return the same completed decision. */
  lemma CompletedAnswersAgree(es: seq<Event>, t: Tables, action: Text, key: Text, prior: Option<nat>, event: Option<Event>)
    requires WellFormed(FactsOf(es)) && NoDryOutcomes(FactsOf(es)) && Exact(es, |es|, t) && KeysTracked(t)
    requires FirstCompleted(KeyState(t, (action, key)), prior) && ScanReturns(es, action, key, event)
    ensures prior.Some? <==> event.Some?
    ensures prior.Some? ==> KeyLookup(t.byKey, (action, key))[prior.value] in t.decisions
    ensures prior.Some? ==> event == Some(t.decisions[KeyLookup(t.byKey, (action, key))[prior.value]])
  {
    hide WellFormed, NoDryOutcomes, Exact, KeysTracked, FactsOf, KeyLookup, LastUnder, FirstScanned;
    var scanned :| FirstScanned(FactsOf(es), action, key, scanned) && event == HeldLast(es, scanned);
    CompletedIndexEqualsScan(es, t, action, key, prior, scanned);
    if scanned.Some? {
      ScannedIsFirst(FactsOf(es), action, key, scanned);
      FirstIsDecision(FactsOf(es), scanned.value);
    }
  }

  /** ... at the same place of the journal. */
  lemma CompletedIndexEqualsScan(es: seq<Event>, t: Tables, action: Text, key: Text, prior: Option<nat>, scanned: Option<nat>)
    requires WellFormed(FactsOf(es)) && NoDryOutcomes(FactsOf(es)) && Exact(es, |es|, t) && KeysTracked(t)
    requires FirstCompleted(KeyState(t, (action, key)), prior)
    requires FirstScanned(FactsOf(es), action, key, scanned)
    ensures prior.Some? <==> scanned.Some?
    ensures scanned.Some? ==>
      && LastUnder(FactsOf(es), |es|, FactsOf(es)[scanned.value].id.t) == scanned
      && KeyLookup(t.byKey, (action, key))[prior.value] in t.decisions
      && t.decisions[KeyLookup(t.byKey, (action, key))[prior.value]] == es[scanned.value]
  {
    hide WellFormed, NoDryOutcomes, Exact, KeysTracked, CompletesIn, FactsOf, KeyRows, KeyLookup, LastUnder, FirstUnderId, FirstScanned, Indexes;
    CompletedIndexIsFirst(es, t, action, key, prior);
    ScannedIsFirst(FactsOf(es), action, key, scanned);
    if scanned.Some? {
      OnlyOneUnder(FactsOf(es), scanned.value);
      IndexedEventIs(es, t, (action, key), prior.value);
    }
  }

  lemma IndexedEventIs(es: seq<Event>, t: Tables, pair: (Text, Text), x: nat)
    requires WellFormed(FactsOf(es)) && Exact(es, |es|, t) && x < |KeyLookup(t.byKey, pair)|
    ensures |KeyLookup(t.byKey, pair)| == |KeyRows(es, |es|, pair)|
    ensures KeyLookup(t.byKey, pair)[x] in t.decisions
    ensures t.decisions[KeyLookup(t.byKey, pair)[x]] == es[KeyRows(es, |es|, pair)[x]]
  {
    hide WellFormed, Exact, KeyRows, FirstUnderId, LinksAgree;
    KeysHeldAt(es, t, pair);
    KeyRowIsCandidate(es, t, pair, x);
  }

  lemma ScannedIsFirst(fs: seq<Fact>, action: Text, key: Text, scanned: Option<nat>)
    requires WellFormed(fs) && NoDryOutcomes(fs) && FirstScanned(fs, action, key, scanned)
    ensures scanned == CompletedPrior(fs, action, key)
    ensures scanned.Some? ==> FirstUnderId(fs, scanned.value)
  {
    hide WellFormed, NoDryOutcomes, ScanCompletes, Completes, FirstUnderId;
    forall i | 0 <= i < |fs| ensures ScanCompletes(fs, i, action, key) <==> Completes(fs, |fs|, i, action, key) {
      ScanRuleIsCompletion(fs, i, action, key);
    }
    if scanned.Some? {
      ScanCompletesFirst(fs, scanned.value, action, key);
    }
  }

  lemma ScanCompletesFirst(fs: seq<Fact>, i: nat, action: Text, key: Text)
    requires i < |fs| && ScanCompletes(fs, i, action, key)
    ensures FirstUnderId(fs, i)
  {
  }

  /** A rebuild from a well-formed journal answers the blocking query as a scan of it does. */
  lemma IndexEqualsScan(p: Platform, es: seq<Event>, action: Text, key: Text)
    requires WellFormed(FactsOf(es))
    ensures Exact(es, |es|, Rebuilt(es, |es|)) && KeysTracked(Rebuilt(es, |es|))
    ensures IndexedBlocking(p, Rebuilt(es, |es|), action, key) == BlockingId(p, es, action, key)
  {
    RebuiltIsExact(es, |es|);
    RebuiltIsTracked(es, |es|);
    BlockingIndexEqualsScan(p, es, Rebuilt(es, |es|), action, key);
  }

  /** ... and the completed query too, when no dry run has an outcome. */
  lemma CompletedIndexOfRebuilt(es: seq<Event>, action: Text, key: Text, prior: Option<nat>, event: Option<Event>)
    requires WellFormed(FactsOf(es)) && NoDryOutcomes(FactsOf(es)) && KeysTracked(Rebuilt(es, |es|))
    requires FirstCompleted(KeyState(Rebuilt(es, |es|), (action, key)), prior) && ScanReturns(es, action, key, event)
    ensures var t := Rebuilt(es, |es|);
      && (prior.Some? <==> event.Some?)
      && (prior.Some? ==> KeyLookup(t.byKey, (action, key))[prior.value] in t.decisions
                          && event == Some(t.decisions[KeyLookup(t.byKey, (action, key))[prior.value]]))
  {
    hide WellFormed, NoDryOutcomes, Exact, Rebuilt, KeysTracked, ScanReturns, FirstCompleted, KeyLookup;
    RebuiltIsExact(es, |es|);
    CompletedAnswersAgree(es, Rebuilt(es, |es|), action, key, prior, event);
  }

  // ---- Why each condition is needed ------------------------------------

  function Allowed(id: Text, action: Text, key: Text): Event {
    map[EventType := W(DECISION), EventId := Str(id), Verdict := W(ALLOWED), ActionName := Str(action), IdempotencyKey := Str(key)]
  }

  function Outcome(id: Text, status: Json): Event {
    map[EventType := W(OUTCOME), DecisionEventId := Str(id), Status := status]
  }

  lemma RebuiltTwo(a: Event, b: Event)
    ensures Rebuilt([a, b], 2) == Evolved(Evolved(EMPTY, a), b)
  {
    assert Rebuilt([a, b], 1) == Evolved(Rebuilt([a, b], 0), a);
  }

  /** One tracked reservation with nothing linked to it blocks its key. */
  lemma LoneReservationBlocks(p: Platform, id: Text, action: Text, key: Text)
    ensures Trackable(Allowed(id, action, key))
    ensures var t := TrackDecision(EMPTY, Allowed(id, action, key));
      KeysTracked(t) && IndexedBlocking(p, t, action, key) == Some(id)
  {
    var e := Allowed(id, action, key);
    var t := TrackDecision(EMPTY, e);
    assert t.decisions == map[id := e];
    var s := KeyState(t, (action, key));
    assert s.order == [id];
    assert Blocking(p, e, [], [], action, key);
    assert BlocksAt(p, s, 0, action, key);
  }

  lemma NothingBlocks(p: Platform, fs: seq<Fact>, action: Text, key: Text)
    requires |fs| == 2 && !Blocks(p, fs, 2, 0, action, key) && !Blocks(p, fs, 2, 1, action, key)
    ensures BlockingPrior(p, fs, 2, action, key) == None
  {
  }

  /** A denied decision sharing its id hides an allowed one from the scan only. */
  lemma SharedIdsDisagree(p: Platform, id: Text, action: Text, key: Text)
    ensures var es := [Allowed(id, action, key)[Verdict := W(DENIED)], Allowed(id, action, key)];
      && KeysTracked(Rebuilt(es, 2))
      && IndexedBlocking(p, Rebuilt(es, 2), action, key) == Some(id)
      && BlockingId(p, es, action, key) == None
  {
    var denied := Allowed(id, action, key)[Verdict := W(DENIED)];
    var fs := FactsOf([denied, Allowed(id, action, key)]);
    RebuiltTwo(denied, Allowed(id, action, key));
    LoneReservationBlocks(p, id, action, key);
    assert !Reserves(fs[0], action, key);
    assert !FirstUnderId(fs, 1);
    NothingBlocks(p, fs, action, key);
    hide IndexedBlocking, TrackDecision, KeysTracked, Trackable, Blocks;
  }

  /** An ended call that did not succeed releases its key for the scan. */
  lemma EndedDoesNotBlock(p: Platform, fs: seq<Fact>, i: nat, j: nat, id: Text, action: Text, key: Text)
    requires i < |fs| && j < |fs| && fs[i].id == Str(id) && OutcomeOf(fs[j], id)
    requires forall k :: 0 <= k < |fs| && OutcomeOf(fs[k], id) ==> fs[k].status != W(SUCCEEDED)
    ensures !Blocks(p, fs, |fs|, i, action, key)
  {
    assert HasOutcome(fs, |fs|, id);
    assert !HasSucceeded(fs, |fs|, id);
  }

  /** An outcome recorded before its decision is seen by the scan only. */
  lemma EarlyOutcomesDisagree(p: Platform, id: Text, action: Text, key: Text)
    ensures var es := [Outcome(id, W(FAILED)), Allowed(id, action, key)];
      && KeysTracked(Rebuilt(es, 2))
      && IndexedBlocking(p, Rebuilt(es, 2), action, key) == Some(id)
      && BlockingId(p, es, action, key) == None
  {
    var early := Outcome(id, W(FAILED));
    RebuiltTwo(early, Allowed(id, action, key));
    assert Evolved(EMPTY, early) == EMPTY;
    LoneReservationBlocks(p, id, action, key);
    OutcomeReleases(p, [early, Allowed(id, action, key)], 1, 0, id, action, key);
    hide IndexedBlocking, TrackDecision, KeysTracked, Trackable, BlockingId;
  }

  lemma OutcomeReleases(p: Platform, es: seq<Event>, i: nat, j: nat, id: Text, action: Text, key: Text)
    requires |es| == 2 && i + j == 1
    requires es[i] == Allowed(id, action, key)
    requires KindOf(es[j]) == W(OUTCOME) && Get(es[j], DecisionEventId) == Str(id) && Get(es[j], Status) != W(SUCCEEDED)
    ensures BlockingId(p, es, action, key) == None
  {
    var fs := FactsOf(es);
    EndedDoesNotBlock(p, fs, i, j, id, action, key);
    assert !Reserves(fs[j], action, key);
    NothingBlocks(p, fs, action, key);
  }

  /** An outcome whose status is not a string ends the call for the scan only. */
  lemma OddStatusesDisagree(p: Platform, id: Text, action: Text, key: Text)
    ensures var es := [Allowed(id, action, key), Outcome(id, Null)];
      && KeysTracked(Rebuilt(es, 2))
      && IndexedBlocking(p, Rebuilt(es, 2), action, key) == Some(id)
      && BlockingId(p, es, action, key) == None
  {
    hide IndexedBlocking, TrackDecision, KeysTracked, Trackable, BlockingId, Rebuilt;
    RebuiltTwo(Allowed(id, action, key), Outcome(id, Null));
    LoneReservationBlocks(p, id, action, key);
    OutcomeReleases(p, [Allowed(id, action, key), Outcome(id, Null)], 0, 1, id, action, key);
  }

  lemma DryRunUntracked(id: Text, action: Text, key: Text)
    ensures var es := [Allowed(id, action, key)[DryRun := Bool(true)], Outcome(id, W(SUCCEEDED))];
      Rebuilt(es, 2) == EMPTY
  {
    var e := Allowed(id, action, key)[DryRun := Bool(true)];
    RebuiltTwo(e, Outcome(id, W(SUCCEEDED)));
    assert !Trackable(e);
    assert Evolved(EMPTY, e) == EMPTY;
    assert id !in EMPTY.decisions;
  }

  /** A succeeded outcome of a dry run completes the key for the scan only. */
  lemma DryOutcomesDisagree(id: Text, action: Text, key: Text)
    ensures var es := [Allowed(id, action, key)[DryRun := Bool(true)], Outcome(id, W(SUCCEEDED))];
      && KeysTracked(Rebuilt(es, 2))
      && FirstCompleted(KeyState(Rebuilt(es, 2), (action, key)), None)
      && FirstScanned(FactsOf(es), action, key, Some(0))
  {
    hide Rebuilt, KeysTracked;
    var es := [Allowed(id, action, key)[DryRun := Bool(true)], Outcome(id, W(SUCCEEDED))];
    RebuiltIsTracked(es, 2);
    DryRunUntracked(id, action, key);
    var fs := FactsOf(es);
    assert OutcomeOf(fs[1], id) && HasSucceeded(fs, 2, id);
    assert LastUnder(fs, 1, id) == Some(0) && LastUnder(fs, 2, id) == Some(0);
  }
}
