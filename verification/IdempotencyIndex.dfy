/** The idempotency index: tables evolved one event at a time, and when they answer
    exactly as a scan of the whole journal does. */
module IdempotencyIndex {
  import opened Evidence
  import opened Facts
  import opened Idempotency

  type ByKey = map<(Text, Text), seq<Text>>

  /** Allowed, non-dry-run decisions that carry a key, each key's decisions in file
      order, and the outcomes and resolutions linked to them. */
  datatype Tables = Tables(decisions: map<Text, Event>, byKey: ByKey, outcomes: Rows, resolutions: Rows)

  const EMPTY := Tables(map[], map[], map[], map[])

  function KeyLookup(byKey: ByKey, pair: (Text, Text)): seq<Text> {
    if pair in byKey then byKey[pair] else []
  }

  predicate Trackable(e: Event) {
    && KindOf(e) == W(DECISION) && Get(e, Verdict) == W(ALLOWED) && Get(e, DryRun) != Bool(true)
    && IdempotencyKey in e && IsText(Get(e, ActionName)) && IsText(Get(e, EventId))
  }

  function TrackDecision(t: Tables, e: Event): Tables
    requires Trackable(e)
  {
    var id, key, action := Get(e, EventId).t, Get(e, IdempotencyKey), Get(e, ActionName).t;
    if id in t.decisions then t
    else t.(decisions := t.decisions[id := e],
            byKey := if IsText(key) then t.byKey[(action, key.t) := KeyLookup(t.byKey, (action, key.t)) + [id]] else t.byKey)
  }

  /** The value kept of an outcome or a resolution, when it is kept. */
  predicate Keepable(t: Tables, e: Event, value: Field) {
    IsText(Get(e, DecisionEventId)) && IsText(Get(e, value)) && Get(e, DecisionEventId).t in t.decisions
  }

  /** The tables after one more event. */
  function Evolved(t: Tables, e: Event): Tables {
    if KindOf(e) == W(DECISION) then
      if Trackable(e) then TrackDecision(t, e) else t
    else if KindOf(e) == W(OUTCOME) && Keepable(t, e, Status) then
      t.(outcomes := Add(t.outcomes, Get(e, DecisionEventId).t, map[Status := Get(e, Status)]))
    else if KindOf(e) == W(RESOLUTION) && Keepable(t, e, ResolutionValue) then
      t.(resolutions := Add(t.resolutions, Get(e, DecisionEventId).t, map[ResolutionValue := Get(e, ResolutionValue)]))
    else t
  }

  function IdOf(e: Event): (id: Text)
    requires Trackable(e)
    ensures Get(e, EventId) == Str(id)
  {
    Get(e, EventId).t
  }

  /** A rebuild from the first `n` events. */
  function Rebuilt(es: seq<Event>, n: nat): Tables
    requires n <= |es|
  {
    if n == 0 then EMPTY else Evolved(Rebuilt(es, n - 1), es[n - 1])
  }

  // ---- Journals on which the index is exact ----------------------------

  predicate DecisionIdsDistinct(fs: seq<Fact>) {
    forall i, j :: 0 <= i < j < |fs| && IsDecision(fs[i]) && IsDecision(fs[j]) && IsText(fs[i].id) ==> fs[i].id != fs[j].id
  }

  predicate About(f: Fact, d: Fact) { IsDecision(d) && IsText(f.ref) && f.ref == d.id }

  predicate LinksFollow(fs: seq<Fact>) {
    forall i, j :: 0 <= i <= j < |fs| && (IsOutcome(fs[i]) || IsResolution(fs[i])) ==> !About(fs[i], fs[j])
  }

  predicate StringValues(fs: seq<Fact>) {
    forall i :: 0 <= i < |fs| ==> (IsOutcome(fs[i]) ==> IsText(fs[i].status)) && (IsResolution(fs[i]) ==> IsText(fs[i].resolution))
  }

  predicate WellFormed(fs: seq<Fact>) {
    DecisionIdsDistinct(fs) && LinksFollow(fs) && StringValues(fs)
  }

  predicate NoDryOutcomes(fs: seq<Fact>) {
    forall i, j :: 0 <= i < |fs| && 0 <= j < |fs| && IsOutcome(fs[i]) && fs[j].dryRun == Bool(true) ==> !About(fs[i], fs[j])
  }

  // ---- What the tables hold --------------------------------------------

  predicate Holds(es: seq<Event>, n: nat, decisions: map<Text, Event>, id: Text)
    requires n <= |es| && id in decisions
  {
    exists i :: 0 <= i < n && Trackable(es[i]) && Get(es[i], EventId) == Str(id) && decisions[id] == es[i]
  }

  ghost predicate DecisionsHeld(es: seq<Event>, n: nat, decisions: map<Text, Event>)
    requires n <= |es|
  {
    && (forall id :: id in decisions ==> Holds(es, n, decisions, id))
    && forall i :: 0 <= i < n && Trackable(es[i]) ==>
         IdOf(es[i]) in decisions && decisions[IdOf(es[i])] == es[i]
  }

  /** Where the reservations of a key stand. */
  function KeyRows(es: seq<Event>, n: nat, pair: (Text, Text)): (rows: seq<nat>)
    requires n <= |es|
    ensures forall x :: 0 <= x < |rows| ==> rows[x] < n && Trackable(es[rows[x]])
    ensures forall x, y :: 0 <= x < y < |rows| ==> rows[x] < rows[y]
    ensures forall i :: 0 <= i < n && Reserves(FactsOf(es)[i], pair.0, pair.1) && IsText(Get(es[i], EventId)) ==> i in rows
  {
    if n == 0 then []
    else if Reserves(FactsOf(es)[n - 1], pair.0, pair.1) && IsText(Get(es[n - 1], EventId)) then KeyRows(es, n - 1, pair) + [n - 1]
    else KeyRows(es, n - 1, pair)
  }

  function IdsAt(es: seq<Event>, rows: seq<nat>): seq<Text>
    requires forall x :: 0 <= x < |rows| ==> rows[x] < |es| && Trackable(es[rows[x]])
  {
    seq(|rows|, x requires 0 <= x < |rows| && Trackable(es[rows[x]]) => IdOf(es[rows[x]]))
  }

  ghost predicate KeysHeld(es: seq<Event>, n: nat, byKey: ByKey)
    requires n <= |es|
  {
    forall pair :: KeyLookup(byKey, pair) == IdsAt(es, KeyRows(es, n, pair))
  }

  ghost predicate LinksHeld(es: seq<Event>, n: nat, t: Tables)
    requires n <= |es|
  {
    && (forall id :: id in t.decisions ==> LinksAgree(FactsOf(es), n, id, Lookup(t.outcomes, id), Lookup(t.resolutions, id)))
    && forall id :: id !in t.decisions ==> Lookup(t.outcomes, id) == [] && Lookup(t.resolutions, id) == []
  }

  ghost predicate Exact(es: seq<Event>, n: nat, t: Tables)
    requires n <= |es|
  {
    DecisionsHeld(es, n, t.decisions) && KeysHeld(es, n, t.byKey) && LinksHeld(es, n, t)
  }

  // ---- One event -------------------------------------------------------

  /** On a journal with distinct decision ids, a decision is never skipped as known. */
  lemma NotYetHeld(es: seq<Event>, n: nat, decisions: map<Text, Event>)
    requires n < |es| && DecisionsHeld(es, n, decisions) && DecisionIdsDistinct(FactsOf(es)) && Trackable(es[n])
    ensures IdOf(es[n]) !in decisions
  {
    assert IsDecision(FactsOf(es)[n]) && FactsOf(es)[n].id == Str(IdOf(es[n]));
  }

  lemma DecisionsGrow(es: seq<Event>, n: nat, decisions: map<Text, Event>)
    requires n < |es| && DecisionsHeld(es, n, decisions)
    ensures !Trackable(es[n]) ==> DecisionsHeld(es, n + 1, decisions)
    ensures Trackable(es[n]) && IdOf(es[n]) !in decisions ==>
              DecisionsHeld(es, n + 1, decisions[IdOf(es[n]) := es[n]])
  {
    hide Trackable;
    forall id | id in decisions ensures Holds(es, n + 1, decisions, id) {
      assert Holds(es, n, decisions, id);
    }
    if Trackable(es[n]) && IdOf(es[n]) !in decisions {
      var after := decisions[IdOf(es[n]) := es[n]];
      forall id | id in after ensures Holds(es, n + 1, after, id) {
        if id in decisions {
          assert Holds(es, n, decisions, id);
        }
      }
    }
  }

  lemma ReservesIsTracked(es: seq<Event>, n: nat, pair: (Text, Text))
    requires n < |es|
    ensures Reserves(FactsOf(es)[n], pair.0, pair.1) && IsText(Get(es[n], EventId))
            <==> Trackable(es[n]) && Get(es[n], ActionName) == Str(pair.0) && Get(es[n], IdempotencyKey) == Str(pair.1)
  {
  }

  lemma IdsGrow(es: seq<Event>, n: nat, pair: (Text, Text))
    requires n < |es|
    ensures IdsAt(es, KeyRows(es, n + 1, pair)) ==
            IdsAt(es, KeyRows(es, n, pair))
            + if Trackable(es[n]) && Get(es[n], ActionName) == Str(pair.0) && Get(es[n], IdempotencyKey) == Str(pair.1)
              then [IdOf(es[n])] else []
  {
    ReservesIsTracked(es, n, pair);
    hide Reserves, FactsOf, Trackable;
  }

  lemma KeysGrow(es: seq<Event>, n: nat, t: Tables)
    requires n < |es| && KeysHeld(es, n, t.byKey)
    ensures !Trackable(es[n]) ==> KeysHeld(es, n + 1, t.byKey)
    ensures Trackable(es[n]) && IdOf(es[n]) !in t.decisions ==> KeysHeld(es, n + 1, TrackDecision(t, es[n]).byKey)
  {
    var after := if Trackable(es[n]) && IdOf(es[n]) !in t.decisions then TrackDecision(t, es[n]).byKey else t.byKey;
    if !Trackable(es[n]) || IdOf(es[n]) !in t.decisions {
      hide KeyRows, IdsAt;
      forall pair ensures KeyLookup(after, pair) == IdsAt(es, KeyRows(es, n + 1, pair)) {
        IdsGrow(es, n, pair);
        assert KeyLookup(t.byKey, pair) == IdsAt(es, KeyRows(es, n, pair));
      }
    }
  }

  /** Nothing refers to a decision before it, or at it. */
  lemma NoLinksYet(fs: seq<Fact>, kind: Word, n: nat)
    requires n < |fs| && IsDecision(fs[n]) && IsText(fs[n].id) && LinksFollow(fs)
    requires kind == OUTCOME || kind == RESOLUTION
    ensures LinkedRows(fs, kind, n, fs[n].id.t) == [] && LinkedRows(fs, kind, n + 1, fs[n].id.t) == []
  {
    var rows := LinkedRows(fs, kind, n, fs[n].id.t);
    if rows != [] {
      assert rows[0] in rows;
      LinkedRowsComplete(fs, kind, n, fs[n].id.t, rows[0]);
    }
  }

  lemma DecisionKeepsLinks(es: seq<Event>, n: nat, t: Tables)
    requires n < |es| && LinksHeld(es, n, t) && WellFormed(FactsOf(es)) && KindOf(es[n]) == W(DECISION)
    ensures LinksHeld(es, n + 1, t)
    ensures Trackable(es[n]) && IdOf(es[n]) !in t.decisions ==> LinksHeld(es, n + 1, TrackDecision(t, es[n]))
  {
    hide FactsOf, WellFormed, LinksFollow, Trackable, DecisionIdsDistinct, StringValues;
    var fs := FactsOf(es);
    WellFormedParts(fs);
    TrackedFact(es, n);
    if Trackable(es[n]) && IdOf(es[n]) !in t.decisions {
      NoLinksYet(fs, OUTCOME, n);
      NoLinksYet(fs, RESOLUTION, n);
    }
  }

  lemma TrackedFact(es: seq<Event>, n: nat)
    requires n < |es|
    ensures FactsOf(es)[n].kind == KindOf(es[n])
    ensures Trackable(es[n]) ==> IsDecision(FactsOf(es)[n]) && FactsOf(es)[n].id == Str(IdOf(es[n]))
  {
  }

  lemma StatusesGrow(fs: seq<Fact>, n: nat, id: Text, linked: seq<Event>)
    requires n < |fs| && StatusesAgree(fs, LinkedRows(fs, OUTCOME, n, id), linked)
    ensures StatusesAgree(fs, LinkedRows(fs, OUTCOME, n + 1, id),
                          linked + if IsOutcome(fs[n]) && fs[n].ref == Str(id) then [map[Status := fs[n].status]] else [])
  {
  }

  lemma ResolutionsGrow(fs: seq<Fact>, n: nat, id: Text, resolved: seq<Event>)
    requires n < |fs| && ResolutionsAgree(fs, LinkedRows(fs, RESOLUTION, n, id), resolved)
    ensures ResolutionsAgree(
              fs, LinkedRows(fs, RESOLUTION, n + 1, id),
              resolved + if IsResolution(fs[n]) && fs[n].ref == Str(id) then [map[ResolutionValue := fs[n].resolution]] else [])
  {
  }

  /** What the tables keep of a linked event is what the journal says about it. */
  lemma LinkEvolves(es: seq<Event>, n: nat, t: Tables, id: Text)
    requires n < |es| && StringValues(FactsOf(es)) && KindOf(es[n]) != W(DECISION) && id in t.decisions
    ensures var f, after := FactsOf(es)[n], Evolved(t, es[n]);
      && after.decisions == t.decisions && id in after.decisions
      && Lookup(after.outcomes, id) == Lookup(t.outcomes, id)
         + (if IsOutcome(f) && f.ref == Str(id) then [map[Status := f.status]] else [])
      && Lookup(after.resolutions, id) == Lookup(t.resolutions, id)
         + (if IsResolution(f) && f.ref == Str(id) then [map[ResolutionValue := f.resolution]] else [])
  {
    var e, f := es[n], FactsOf(es)[n];
    assert f.kind == KindOf(e) && f.ref == Get(e, DecisionEventId) && f.status == Get(e, Status);
    assert f.resolution == Get(e, ResolutionValue);
    hide FactsOf, KindOf, Get;
  }

  lemma UntrackedEvolves(t: Tables, e: Event, id: Text)
    requires KindOf(e) != W(DECISION) && id !in t.decisions
    ensures var after := Evolved(t, e);
      && id !in after.decisions
      && Lookup(after.outcomes, id) == Lookup(t.outcomes, id) && Lookup(after.resolutions, id) == Lookup(t.resolutions, id)
  {
  }

  lemma LinkedEventKeepsLinks(es: seq<Event>, n: nat, t: Tables)
    requires n < |es| && LinksHeld(es, n, t) && StringValues(FactsOf(es)) && KindOf(es[n]) != W(DECISION)
    ensures LinksHeld(es, n + 1, Evolved(t, es[n]))
  {
    hide StringValues, FactsOf, KindOf, Evolved, StatusesAgree, ResolutionsAgree, LinkedRows, Lookup;
    var fs, after := FactsOf(es), Evolved(t, es[n]);
    forall id | id in t.decisions
      ensures id in after.decisions && LinksAgree(fs, n + 1, id, Lookup(after.outcomes, id), Lookup(after.resolutions, id))
    {
      LinkEvolves(es, n, t, id);
      assert LinksAgree(fs, n, id, Lookup(t.outcomes, id), Lookup(t.resolutions, id));
      StatusesGrow(fs, n, id, Lookup(t.outcomes, id));
      ResolutionsGrow(fs, n, id, Lookup(t.resolutions, id));
    }
    forall id | id !in t.decisions
      ensures id !in after.decisions && Lookup(after.outcomes, id) == [] && Lookup(after.resolutions, id) == []
    {
      UntrackedEvolves(t, es[n], id);
    }
  }

  lemma WellFormedParts(fs: seq<Fact>)
    requires WellFormed(fs)
    ensures DecisionIdsDistinct(fs) && LinksFollow(fs) && StringValues(fs)
  {
  }

  lemma EvolvedStaysExact(es: seq<Event>, n: nat, t: Tables)
    requires n < |es| && WellFormed(FactsOf(es)) && Exact(es, n, t)
    ensures Exact(es, n + 1, Evolved(t, es[n]))
  {
    hide WellFormed, DecisionIdsDistinct, StringValues, DecisionsHeld, KeysHeld, LinksHeld, Keepable, FactsOf;
    WellFormedParts(FactsOf(es));
    DecisionsGrow(es, n, t.decisions);
    KeysGrow(es, n, t);
    if Trackable(es[n]) {
      NotYetHeld(es, n, t.decisions);
    }
    if KindOf(es[n]) == W(DECISION) {
      DecisionKeepsLinks(es, n, t);
    } else {
      LinkedEventKeepsLinks(es, n, t);
    }
  }

  lemma EmptyIsExact(es: seq<Event>)
    ensures Exact(es, 0, EMPTY)
  {
  }

  /** On a well-formed journal a rebuild tracks every reservation and everything linked to it. */
  lemma {:induction false} RebuiltIsExact(es: seq<Event>, n: nat)
    requires n <= |es| && WellFormed(FactsOf(es))
    ensures Exact(es, n, Rebuilt(es, n))
  {
    hide WellFormed, Evolved, Exact, FactsOf;
    if n == 0 {
      EmptyIsExact(es);
    } else {
      RebuiltIsExact(es, n - 1);
      EvolvedStaysExact(es, n - 1, Rebuilt(es, n - 1));
    }
  }
}
