/** The fields that idempotency checks and the audit read, and how events refer
    to each other through them. */
module Facts {
  import opened Evidence

  /** The audit-readable subset of an event; a missing field reads as null. */
  datatype Fact = Fact(
    id: Json, kind: Json, ref: Json, verdict: Json,
    actionId: Json, actionName: Json, contractHash: Json, inputHash: Json, risk: Json, mode: Json, time: Json,
    dryRun: Json, key: Json, status: Json, resolution: Json)

  function FactOf(e: Event): Fact {
    Fact(Get(e, EventId), Get(e, EventType), Get(e, DecisionEventId), Get(e, Verdict),
         Get(e, ActionId), Get(e, ActionName), Get(e, ContractHash), Get(e, InputHash), Get(e, Risk),
         Get(e, ApprovalMode), Get(e, TimestampUtc),
         Get(e, DryRun), Get(e, IdempotencyKey), Get(e, Status), Get(e, ResolutionValue))
  }

  function FactsOf(es: seq<Event>): (fs: seq<Fact>)
    ensures |fs| == |es| && forall i :: 0 <= i < |es| ==> fs[i] == FactOf(es[i])
  {
    seq(|es|, i requires 0 <= i < |es| => FactOf(es[i]))
  }

  predicate IsDecision(f: Fact) { f.kind == W(DECISION) }
  predicate IsOutcome(f: Fact) { f.kind == W(OUTCOME) }
  predicate IsResolution(f: Fact) { f.kind == W(RESOLUTION) }

  /** An allowed decision that really executes: it can reserve its key. */
  predicate Reserves(f: Fact, action: Text, key: Text) {
    && IsDecision(f) && f.verdict == W(ALLOWED) && f.dryRun != Bool(true)
    && f.actionName == Str(action) && f.key == Str(key)
  }

  predicate OutcomeOf(f: Fact, id: Text) { IsOutcome(f) && f.ref == Str(id) }
  predicate ResolutionOf(f: Fact, id: Text) { IsResolution(f) && f.ref == Str(id) }

  /** The decision at `i` is the first one recorded under its (textual) id. */
  predicate FirstUnderId(fs: seq<Fact>, i: nat)
    requires i < |fs|
  {
    && IsDecision(fs[i]) && IsText(fs[i].id)
    && forall j :: 0 <= j < i ==> !(IsDecision(fs[j]) && fs[j].id == fs[i].id)
  }

  predicate HasOutcome(fs: seq<Fact>, n: nat, id: Text)
    requires n <= |fs|
  {
    exists j :: 0 <= j < n && OutcomeOf(fs[j], id)
  }

  predicate HasSucceeded(fs: seq<Fact>, n: nat, id: Text)
    requires n <= |fs|
  {
    exists j :: 0 <= j < n && OutcomeOf(fs[j], id) && fs[j].status == W(SUCCEEDED)
  }

  predicate LatestResolution(fs: seq<Fact>, n: nat, id: Text, j: nat)
    requires n <= |fs|
  {
    j < n && ResolutionOf(fs[j], id) && forall k :: j < k < n ==> !ResolutionOf(fs[k], id)
  }

  /** The latest resolution confirms that the side effect did not happen. */
  predicate Released(p: Platform, fs: seq<Fact>, n: nat, id: Text)
    requires n <= |fs|
  {
    exists j :: 0 <= j < n && LatestResolution(fs, n, id, j) && p.show(fs[j].resolution) == Known(CONFIRMED_NOT_COMPLETED)
  }

  /** Among the first `n` events, decision `i` blocks a new execution: it succeeded,
      or has no outcome and was not released. */
  predicate Blocks(p: Platform, fs: seq<Fact>, n: nat, i: nat, action: Text, key: Text)
    requires n <= |fs|
  {
    && i < n && FirstUnderId(fs, i) && Reserves(fs[i], action, key)
    && (HasSucceeded(fs, n, fs[i].id.t) || (!HasOutcome(fs, n, fs[i].id.t) && !Released(p, fs, n, fs[i].id.t)))
  }

  /** The earliest blocking decision among the first `n` events. */
  function BlockingPrior(p: Platform, fs: seq<Fact>, n: nat, action: Text, key: Text, from: nat := 0): (prior: Option<nat>)
    requires from <= n <= |fs|
    ensures prior.Some? ==> from <= prior.value < n && Blocks(p, fs, n, prior.value, action, key)
    ensures forall i :: from <= i < (if prior.Some? then prior.value else n) ==> !Blocks(p, fs, n, i, action, key)
    decreases n - from
  {
    if from == n then None
    else if Blocks(p, fs, n, from, action, key) then Some(from)
    else BlockingPrior(p, fs, n, action, key, from + 1)
  }

  /** The earliest allowed decision with a succeeded outcome. */
  predicate Completes(fs: seq<Fact>, n: nat, i: nat, action: Text, key: Text)
    requires n <= |fs|
  {
    && i < n && FirstUnderId(fs, i) && Reserves(fs[i], action, key) && HasSucceeded(fs, n, fs[i].id.t)
  }

  /** What happened after the first `n` events has no bearing on them. */
  lemma BlocksLooksBack(p: Platform, fs: seq<Fact>, more: seq<Fact>, n: nat, i: nat, action: Text, key: Text)
    requires n <= |fs| <= |more| && forall j :: 0 <= j < n ==> more[j] == fs[j]
    ensures Blocks(p, more, n, i, action, key) <==> Blocks(p, fs, n, i, action, key)
  {
    if i < n && IsText(fs[i].id) {
      var id := fs[i].id.t;
      assert HasSucceeded(more, n, id) <==> HasSucceeded(fs, n, id);
      assert HasOutcome(more, n, id) <==> HasOutcome(fs, n, id);
      ReleasedLooksBack(p, fs, more, n, id);
      assert FirstUnderId(more, i) <==> FirstUnderId(fs, i);
    }
  }

  lemma ReleasedLooksBack(p: Platform, fs: seq<Fact>, more: seq<Fact>, n: nat, id: Text)
    requires n <= |fs| <= |more| && forall j :: 0 <= j < n ==> more[j] == fs[j]
    ensures Released(p, more, n, id) <==> Released(p, fs, n, id)
  {
    assert forall j :: 0 <= j < n ==> (LatestResolution(more, n, id, j) <==> LatestResolution(fs, n, id, j));
  }
}
