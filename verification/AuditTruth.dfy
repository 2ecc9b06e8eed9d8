/** The audit of a reachable journal tells what really happened to every call. */
module AuditTruth {
  import opened Evidence
  import opened Writer
  import opened Facts
  import opened Audit
  import opened Reservation
  import opened ExactlyOnce
  import V = Verification
  import Acceptance
  import T = Tampering

  lemma Shown(p: Platform, a: Json, b: Json)
    requires ShowsTexts(p) && IsText(a) && IsText(b) && p.show(a) == p.show(b)
    ensures a == b
  {
    assert p.show(Str(a.t)) == a.t && p.show(Str(b.t)) == b.t;
  }

  /** An event refers to decision `d` exactly when it names its id. */
  lemma RefersByName(p: Platform, f: Fact, kind: Word, d: Fact)
    requires ShowsTexts(p) && IsText(f.ref) && IsText(d.id) && f.kind == W(kind)
    ensures Refers(p, f, kind, p.show(d.id)) <==> f.ref == d.id
  {
    if p.show(f.ref) == p.show(d.id) {
      Shown(p, f.ref, d.id);
    }
  }

  lemma RefsAreTexts(p: Platform, s: State, i: nat)
    requires Inv(p, s) && i < |s.journal|
    requires IsOutcome(FactsOf(s.journal)[i]) || IsResolution(FactsOf(s.journal)[i])
    ensures IsText(FactsOf(s.journal)[i].ref)
  {
    var fs := FactsOf(s.journal);
    if IsOutcome(fs[i]) {
      var c :| c in s.calls && OutcomeFits(fs, i, s.calls[c]);
      assert IsText(fs[s.calls[c].decision.value].id);
    } else {
      assert ResolutionFits(fs, i);
    }
  }

  /** The decision found under an id is the decision with that id. */
  lemma DecisionFound(p: Platform, fs: seq<Fact>, n: nat, j: nat)
    requires ShowsTexts(p) && IdsDistinct(fs) && j < n <= |fs| && IsDecision(fs[j])
    ensures DecisionFor(p, fs, n, p.show(fs[j].id)) == Some(j)
  {
    var found := DecisionFor(p, fs, n, p.show(fs[j].id));
    assert found.Some?;
    Shown(p, fs[found.value].id, fs[j].id);
  }

  lemma DecisionNotYet(p: Platform, fs: seq<Fact>, n: nat)
    requires ShowsTexts(p) && IdsDistinct(fs) && n < |fs|
    ensures DecisionFor(p, fs, n, p.show(fs[n].id)).None?
  {
    var found := DecisionFor(p, fs, n, p.show(fs[n].id));
    if found.Some? {
      Shown(p, fs[found.value].id, fs[n].id);
    }
  }

  /** Every decision is audited, once, in file order. */
  lemma {:induction false} AllDecisionsAudited(p: Platform, fs: seq<Fact>, n: nat)
    requires ShowsTexts(p) && IdsDistinct(fs) && n <= |fs|
    ensures forall j :: 0 <= j < n && IsDecision(fs[j]) ==> j in Decisions(p, fs, n)
    ensures forall k, l :: 0 <= k < l < |Decisions(p, fs, n)| ==> Decisions(p, fs, n)[k] < Decisions(p, fs, n)[l]
  {
    hide ShowsTexts, IdsDistinct, DecisionFor;
    if n > 0 {
      AllDecisionsAudited(p, fs, n - 1);
      DecisionNotYet(p, fs, n - 1);
    }
  }

  // ---- Outcomes and resolutions of one decision ------------------------

  function OutcomeRows(p: Platform, fs: seq<Fact>, d: nat): (rows: seq<nat>)
    requires d < |fs|
    ensures forall k :: 0 <= k < |rows| ==> rows[k] < |fs| && IsOutcome(fs[rows[k]])
  {
    Linked(p, fs, OUTCOME, |fs|, p.show(fs[d].id))
  }

  lemma RowsAreTheCalls(p: Platform, s: State, c: nat, k: nat)
    requires ShowsTexts(p) && Inv(p, s) && c in s.calls && s.calls[c].decision.Some? && s.calls[c].decision.value < |s.journal|
    requires k < |OutcomeRows(p, FactsOf(s.journal), s.calls[c].decision.value)|
    ensures var fs, i := FactsOf(s.journal), OutcomeRows(p, FactsOf(s.journal), s.calls[c].decision.value)[k];
      fs[i].ref == fs[s.calls[c].decision.value].id && OutcomeFits(fs, i, s.calls[c])
  {
    var fs, call := FactsOf(s.journal), s.calls[c];
    var d := call.decision.value;
    var i := OutcomeRows(p, fs, d)[k];
    RefsAreTexts(p, s, i);
    RefersByName(p, fs[i], OUTCOME, fs[d]);
    hide FactOf, OutcomeFits, IdsDistinct, CallsFit, OneOwner, DecisionsOwned, OutcomesFit, EndsRecorded, OneOutcome,
         ResolutionsFit, ReservedSafely, MemoriesTrue;
    OutcomeHasEnded(fs, s.calls, c, i);
  }

  /** The outcome rows of a call's decision: one if the call recorded an outcome, none otherwise. */
  lemma OutcomeRowsTrue(p: Platform, s: State, c: nat)
    requires ShowsTexts(p) && Inv(p, s) && c in s.calls && s.calls[c].decision.Some?
    ensures s.calls[c].decision.value < |s.journal|
    ensures var fs, call := FactsOf(s.journal), s.calls[c];
      var rows := OutcomeRows(p, fs, call.decision.value);
      && |rows| <= 1
      && (|rows| == 1 <==> call.fate == DidSucceed || call.fate == DidFail)
      && (|rows| == 1 ==> OutcomeFits(fs, rows[0], call))
  {
    var fs, call := FactsOf(s.journal), s.calls[c];
    assert CallFits(fs, call);
    var rows := OutcomeRows(p, fs, call.decision.value);
    hide FactOf, CallFits, CallsFit, OneOwner, DecisionsOwned, OutcomesFit, ResolutionsFit, ReservedSafely, MemoriesTrue,
         SameIdentity, ShowsTexts, IdsDistinct;
    if |rows| > 0 {
      RowsAreTheCalls(p, s, c, 0);
    }
    if |rows| > 1 {
      RowsAreTheCalls(p, s, c, 1);
    }
    if call.fate == DidSucceed || call.fate == DidFail {
      RecordedIsRow(p, fs, call);
    }
  }

  lemma RecordedIsRow(p: Platform, fs: seq<Fact>, call: Call)
    requires OutcomeRecorded(fs, call) && call.decision.Some? && call.decision.value < |fs|
    ensures OutcomeRows(p, fs, call.decision.value) != []
  {
    var i :| 0 <= i < |fs| && IsOutcome(fs[i]) && OutcomeFits(fs, i, call);
    assert Refers(p, fs[i], OUTCOME, p.show(fs[call.decision.value].id));
  }

  /** What the audit takes for the call's outcome is the outcome it recorded. */
  lemma OutcomeStatusTrue(p: Platform, s: State, c: nat)
    requires ShowsTexts(p) && Inv(p, s) && c in s.calls && s.calls[c].decision.Some?
    ensures s.calls[c].decision.value < |s.journal|
    ensures OutcomeStatus(p, FactsOf(s.journal), s.calls[c].decision.value) ==
      (match s.calls[c].fate case DidSucceed => Some(W(SUCCEEDED)) case DidFail => Some(W(FAILED)) case _ => None)
  {
    hide Inv, FactOf;
    OutcomeRowsTrue(p, s, c);
  }

  /** Resolutions exist only for decisions that really executed. */
  lemma ResolvedReallyExecuted(p: Platform, s: State, d: nat)
    requires ShowsTexts(p) && Inv(p, s) && d < |s.journal| && IsDecision(FactsOf(s.journal)[d])
    requires LastResolution(p, FactsOf(s.journal), d).Some?
    ensures Resolvable(FactsOf(s.journal)[d])
  {
    var fs := FactsOf(s.journal);
    var i := Linked(p, fs, RESOLUTION, |fs|, p.show(fs[d].id))[0];
    RefsAreTexts(p, s, i);
    RefersByName(p, fs[i], RESOLUTION, fs[d]);
    assert ResolutionFits(fs, i);
    var j :| 0 <= j < i && Resolvable(fs[j]) && fs[i].ref == fs[j].id;
    hide FactOf, CallsFit, OneOwner, DecisionsOwned, OutcomesFit, ReservedSafely, MemoriesTrue, EndsRecorded, OneOutcome, Linked;
    assert j == d;
  }

  lemma LastResolutionKnown(p: Platform, s: State, d: nat)
    requires ShowsTexts(p) && Inv(p, s) && d < |s.journal|
    ensures var r := LastResolution(p, FactsOf(s.journal), d);
      r.Some? ==> r.value == Known(CONFIRMED_COMPLETED) || r.value == Known(CONFIRMED_NOT_COMPLETED)
  {
    hide CallsFit, OneOwner, DecisionsOwned, OutcomesFit, ReservedSafely, MemoriesTrue, EndsRecorded, OneOutcome, IdsDistinct, FactOf, Linked;
    var fs := FactsOf(s.journal);
    var rows := Linked(p, fs, RESOLUTION, |fs|, p.show(fs[d].id));
    if rows != [] {
      assert ResolutionFits(fs, rows[|rows| - 1]);
      assert p.show(Str(Known(CONFIRMED_COMPLETED))) == Known(CONFIRMED_COMPLETED);
      assert p.show(Str(Known(CONFIRMED_NOT_COMPLETED))) == Known(CONFIRMED_NOT_COMPLETED);
    }
  }

  // ---- Whatever is resolved, no key is reported completed twice --------

  /** Two invocations with one action and key are never both classified as succeeded. */
  lemma ClaimsDiffer(p: Platform, s: State, i: nat, j: nat)
    requires ShowsTexts(p) && Inv(p, s) && i < j < |s.journal|
    requires IsDecision(FactsOf(s.journal)[i]) && IsDecision(FactsOf(s.journal)[j])
    requires Claims(p, FactsOf(s.journal), i) && Claims(p, FactsOf(s.journal), j)
    ensures Claim(FactsOf(s.journal)[i]) != Claim(FactsOf(s.journal)[j])
  {
    var fs := FactsOf(s.journal);
    var action, key := fs[j].actionName.t, fs[j].key.t;
    if Claim(fs[i]) == Claim(fs[j]) {
      ClaimReserves(p, s, i);
      ClaimReserves(p, s, j);
      ClaimBlocks(p, s, i, j);
    }
  }

  lemma ClaimReserves(p: Platform, s: State, j: nat)
    requires ShowsTexts(p) && Inv(p, s) && j < |s.journal| && IsDecision(FactsOf(s.journal)[j]) && Claims(p, FactsOf(s.journal), j)
    ensures Reserves(FactsOf(s.journal)[j], FactsOf(s.journal)[j].actionName.t, FactsOf(s.journal)[j].key.t)
  {
    var fs := FactsOf(s.journal);
    var c :| Owns(s.calls, c, j);
    OutcomeStatusTrue(p, s, c);
    assert CallFits(fs, s.calls[c]);
    hide FactOf, IdsDistinct, CallsFit, OneOwner, DecisionsOwned, OutcomesFit, ResolutionsFit, ReservedSafely, MemoriesTrue,
         Linked, OutcomeStatus, LastResolution, SameIdentity, EndsRecorded, OneOutcome;
  }

  /** A claimed decision blocks every later reservation of its key. */
  lemma ClaimBlocks(p: Platform, s: State, i: nat, n: nat)
    requires ShowsTexts(p) && Inv(p, s) && i < n <= |s.journal| && IsDecision(FactsOf(s.journal)[i]) && Claims(p, FactsOf(s.journal), i)
    requires Reserves(FactsOf(s.journal)[i], FactsOf(s.journal)[i].actionName.t, FactsOf(s.journal)[i].key.t)
    ensures Blocks(p, FactsOf(s.journal), n, i, FactsOf(s.journal)[i].actionName.t, FactsOf(s.journal)[i].key.t)
  {
    var fs := FactsOf(s.journal);
    FirstById(fs, i);
    var id := fs[i].id.t;
    assert p.show(fs[i].id) == id by { assert p.show(Str(id)) == id; }
    hide FactOf, FirstUnderId, Inv;
    ClaimHasNoResolution(p, fs, i);
    forall k | 0 <= k < n && OutcomeOf(fs[k], id) ensures fs[k].status == W(SUCCEEDED) {
      assert Refers(p, fs[k], OUTCOME, id) by { assert p.show(Str(id)) == id; }
      assert k in Linked(p, fs, OUTCOME, |fs|, id);
    }
    forall k | 0 <= k < n ensures !ResolutionOf(fs[k], id) {
      assert Refers(p, fs[k], RESOLUTION, id) <==> fs[k].kind == W(RESOLUTION) && p.show(fs[k].ref) == id;
      assert p.show(Str(id)) == id;
    }
    if HasOutcome(fs, n, id) {
      var k :| 0 <= k < n && OutcomeOf(fs[k], id);
      assert HasSucceeded(fs, n, id);
    }
  }

  lemma ClaimHasNoResolution(p: Platform, fs: seq<Fact>, i: nat)
    requires i < |fs| && Claims(p, fs, i)
    ensures Linked(p, fs, RESOLUTION, |fs|, p.show(fs[i].id)) == []
    ensures |Linked(p, fs, OUTCOME, |fs|, p.show(fs[i].id))| == 1
    ensures fs[Linked(p, fs, OUTCOME, |fs|, p.show(fs[i].id))[0]].status == W(SUCCEEDED)
  {
    hide Linked;
  }

  lemma ClaimsNeverClash(p: Platform, s: State, k: nat)
    requires ShowsTexts(p) && Inv(p, s)
    requires k < |Decisions(p, FactsOf(s.journal), |s.journal|)|
    ensures var fs := FactsOf(s.journal); var ds := Decisions(p, fs, |fs|);
      !(Claims(p, fs, ds[k]) && ClaimTaken(p, fs, ds, k))
  {
    var fs := FactsOf(s.journal);
    var ds := Decisions(p, fs, |fs|);
    AllDecisionsAudited(p, fs, |fs|);
    hide Claims, Claim, Inv, FactOf;
    forall l | 0 <= l < k && Claims(p, fs, ds[l]) && Claims(p, fs, ds[k]) ensures Claim(fs[ds[l]]) != Claim(fs[ds[k]]) {
      ClaimsDiffer(p, s, ds[l], ds[k]);
    }
  }

  predicate Only(issues: seq<AuditIssue>, code: AuditCode) {
    forall i :: 0 <= i < |issues| ==> issues[i].code == code
  }

  // ---- What is never reported ------------------------------------------

  lemma {:induction false} NoDuplicateIds(p: Platform, fs: seq<Fact>, n: nat)
    requires ShowsTexts(p) && IdsDistinct(fs) && n <= |fs|
    ensures DuplicateIds(p, fs, n) == []
  {
    if n > 0 {
      NoDuplicateIds(p, fs, n - 1);
      forall i | 0 <= i < n - 1 ensures p.show(fs[i].id) != p.show(fs[n - 1].id) {
        assert p.show(Str(fs[i].id.t)) == fs[i].id.t && p.show(Str(fs[n - 1].id.t)) == fs[n - 1].id.t;
      }
    }
  }

  /** Every outcome and every resolution refers to a recorded decision before it. */
  lemma RefersBack(p: Platform, s: State, kind: Word, i: nat) returns (d: nat)
    requires ShowsTexts(p) && Inv(p, s) && i < |s.journal| && (kind == OUTCOME || kind == RESOLUTION)
    requires FactsOf(s.journal)[i].kind == W(kind)
    ensures d < i && IsDecision(FactsOf(s.journal)[d]) && FactsOf(s.journal)[i].ref == FactsOf(s.journal)[d].id
    ensures DecisionFor(p, FactsOf(s.journal), |s.journal|, p.show(FactsOf(s.journal)[i].ref)) == Some(d)
  {
    var fs := FactsOf(s.journal);
    if kind == OUTCOME {
      var c :| c in s.calls && OutcomeFits(fs, i, s.calls[c]);
      assert CallFits(fs, s.calls[c]);
      d := s.calls[c].decision.value;
    } else {
      assert ResolutionFits(fs, i);
      d :| 0 <= d < i && Resolvable(fs[d]) && fs[i].ref == fs[d].id;
    }
    hide Inv, FactOf, DecisionFor, ResolutionFits, OutcomeFits, CallFits;
    assert IdsDistinct(fs) by { IdsOf(p, s); }
    DecisionFound(p, fs, |fs|, d);
  }

  lemma IdsOf(p: Platform, s: State)
    requires Inv(p, s)
    ensures IdsDistinct(FactsOf(s.journal))
  {
  }

  lemma {:induction false} NoEarlyResolutions(p: Platform, fs: seq<Fact>, rows: seq<nat>, d: nat)
    requires forall k :: 0 <= k < |rows| ==> d < rows[k] < |fs|
    ensures EarlyResolutions(p, fs, rows, d) == []
  {
    if rows != [] {
      NoEarlyResolutions(p, fs, rows[..|rows| - 1], d);
    }
  }

  lemma ResolutionRowsFollow(p: Platform, s: State, kind: Word, id: Text)
    requires ShowsTexts(p) && Inv(p, s) && (kind == OUTCOME || kind == RESOLUTION)
    requires Linked(p, FactsOf(s.journal), kind, |s.journal|, id) != []
    ensures var fs := FactsOf(s.journal);
      var d, rows := DecisionFor(p, fs, |fs|, id), Linked(p, fs, kind, |fs|, id);
      d.Some? && forall k :: 0 <= k < |rows| ==> d.value < rows[k] && fs[rows[k]].ref == fs[d.value].id
  {
    hide Inv, FactOf, DecisionFor;
    var fs := FactsOf(s.journal);
    var rows := Linked(p, fs, kind, |fs|, id);
    var d := RefersBack(p, s, kind, rows[0]);
    forall k | 0 <= k < |rows| ensures d < rows[k] && fs[rows[k]].ref == fs[d].id {
      var e := RefersBack(p, s, kind, rows[k]);
    }
  }

  lemma ResolutionsOnlyConflict(p: Platform, s: State, id: Text)
    requires ShowsTexts(p) && Inv(p, s) && Linked(p, FactsOf(s.journal), RESOLUTION, |s.journal|, id) != []
    ensures Only(ResolutionIssuesOf(p, FactsOf(s.journal), id), ConflictingResolution)
  {
    hide Inv, FactOf, DecisionFor, Linked, Disagree;
    var fs := FactsOf(s.journal);
    ResolutionRowsFollow(p, s, RESOLUTION, id);
    NoEarlyResolutions(p, fs, Linked(p, fs, RESOLUTION, |fs|, id), DecisionFor(p, fs, |fs|, id).value);
  }

  lemma {:induction false} ResolutionTableOnlyConflicts(p: Platform, s: State, ids: seq<Text>)
    requires ShowsTexts(p) && Inv(p, s)
    requires forall k :: 0 <= k < |ids| ==> Linked(p, FactsOf(s.journal), RESOLUTION, |s.journal|, ids[k]) != []
    ensures Only(ResolutionIssues(p, FactsOf(s.journal), ids), ConflictingResolution)
  {
    hide Inv, FactOf, Linked, ResolutionIssuesOf;
    if ids != [] {
      ResolutionTableOnlyConflicts(p, s, ids[..|ids| - 1]);
      ResolutionsOnlyConflict(p, s, ids[|ids| - 1]);
    }
  }

  /** The outcome a call recorded matches its decision in every audited respect. */
  lemma OutcomeIsConsistent(p: Platform, s: State, c: nat, i: nat)
    requires Inv(p, s) && c in s.calls && i < |s.journal| && OutcomeFits(FactsOf(s.journal), i, s.calls[c])
    ensures OutcomeIssue(p, FactsOf(s.journal), i, s.calls[c].decision.value) == []
  {
    var fs := FactsOf(s.journal);
    assert CallFits(fs, s.calls[c]);
    hide FactOf, IdsDistinct, CallsFit, OneOwner, DecisionsOwned, OutcomesFit, EndsRecorded, OneOutcome, ResolutionsFit,
         ReservedSafely, MemoriesTrue;
  }

  lemma OwnerOf(p: Platform, s: State, d: nat) returns (c: nat)
    requires Inv(p, s) && d < |s.journal| && IsDecision(FactsOf(s.journal)[d])
    ensures c in s.calls && s.calls[c].decision == Some(d)
  {
    c :| Owns(s.calls, c, d);
  }

  lemma OutcomesClean(p: Platform, s: State, id: Text)
    requires ShowsTexts(p) && Inv(p, s) && Linked(p, FactsOf(s.journal), OUTCOME, |s.journal|, id) != []
    ensures OutcomeIssuesOf(p, FactsOf(s.journal), id) == []
  {
    hide Inv, FactOf, DecisionFor, OutcomeIssue, OutcomeFits, IsOutcome;
    var fs := FactsOf(s.journal);
    var rows := Linked(p, fs, OUTCOME, |fs|, id);
    ResolutionRowsFollow(p, s, OUTCOME, id);
    var d := DecisionFor(p, fs, |fs|, id).value;
    var c := OwnerOf(p, s, d);
    OutcomeRowsTrue(p, s, c);
    assert rows == OutcomeRows(p, fs, d);
    hide Linked;
    OutcomeIsConsistent(p, s, c, rows[0]);
    OneRowClean(p, fs, rows, d);
  }

  lemma OneRowClean(p: Platform, fs: seq<Fact>, rows: seq<nat>, d: nat)
    requires |rows| == 1 && rows[0] < |fs| && d < |fs| && OutcomeIssue(p, fs, rows[0], d) == []
    ensures OutcomeIssuesOn(p, fs, rows, d) == []
  {
    hide OutcomeIssue;
    assert OutcomeIssuesOn(p, fs, rows[..0], d) == [];
  }

  lemma {:induction false} OutcomeTableClean(p: Platform, s: State, ids: seq<Text>)
    requires ShowsTexts(p) && Inv(p, s)
    requires forall k :: 0 <= k < |ids| ==> Linked(p, FactsOf(s.journal), OUTCOME, |s.journal|, ids[k]) != []
    ensures OutcomeIssues(p, FactsOf(s.journal), ids) == []
  {
    hide Inv, FactOf, Linked, OutcomeIssuesOf;
    if ids != [] {
      OutcomeTableClean(p, s, ids[..|ids| - 1]);
      OutcomesClean(p, s, ids[|ids| - 1]);
    }
  }

  lemma VerdictKnown(p: Platform, s: State, d: nat)
    requires Inv(p, s) && d < |s.journal| && IsDecision(FactsOf(s.journal)[d])
    ensures FactsOf(s.journal)[d].verdict == W(ALLOWED) || FactsOf(s.journal)[d].verdict == W(DENIED)
  {
    var c :| Owns(s.calls, c, d);
    assert CallFits(FactsOf(s.journal), s.calls[c]);
  }

  lemma InvocationOnlyConflicts(p: Platform, s: State, k: nat)
    requires ShowsTexts(p) && Inv(p, s) && k < |Decisions(p, FactsOf(s.journal), |s.journal|)|
    ensures Only(InvocationIssuesOf(p, FactsOf(s.journal), Decisions(p, FactsOf(s.journal), |s.journal|), k), ConflictingResolution)
  {
    hide Inv, Claims, ClaimTaken, Contradicted, OutcomeStatus, LastResolution, FactOf;
    var fs := FactsOf(s.journal);
    var ds := Decisions(p, fs, |fs|);
    ClaimsNeverClash(p, s, k);
    VerdictKnown(p, s, ds[k]);
  }

  lemma {:induction false} InvocationsOnlyConflict(p: Platform, s: State, n: nat)
    requires ShowsTexts(p) && Inv(p, s) && n <= |Decisions(p, FactsOf(s.journal), |s.journal|)|
    ensures Only(InvocationIssues(p, FactsOf(s.journal), Decisions(p, FactsOf(s.journal), |s.journal|), n), ConflictingResolution)
  {
    hide Inv, InvocationIssuesOf, Decisions, FactOf;
    if n > 0 {
      InvocationsOnlyConflict(p, s, n - 1);
      InvocationOnlyConflicts(p, s, n - 1);
    }
  }

  lemma ReferredHaveRows(p: Platform, fs: seq<Fact>, kind: Word)
    ensures forall k :: 0 <= k < |Referred(p, fs, kind, |fs|)| ==> Linked(p, fs, kind, |fs|, Referred(p, fs, kind, |fs|)[k]) != []
  {
    forall k | 0 <= k < |Referred(p, fs, kind, |fs|)| ensures Linked(p, fs, kind, |fs|, Referred(p, fs, kind, |fs|)[k]) != [] {
      var id := Referred(p, fs, kind, |fs|)[k];
      assert ReferredBefore(p, fs, kind, |fs|, id);
    }
  }

  /** Whatever the operator resolved, whenever: the audit of a reachable journal
      reports nothing but conflicting resolutions. */
  lemma OnlyConflictsReported(p: Platform, s: State)
    requires ShowsTexts(p) && Inv(p, s)
    ensures Only(AuditOf(p, FactsOf(s.journal)).issues, ConflictingResolution)
  {
    hide FactOf, Linked, Decisions, Referred, ResolutionIssues, OutcomeIssues, InvocationIssues, Inv;
    var fs := FactsOf(s.journal);
    assert IdsDistinct(fs) by { IdsOf(p, s); }
    NoDuplicateIds(p, fs, |fs|);
    ReferredHaveRows(p, fs, RESOLUTION);
    ReferredHaveRows(p, fs, OUTCOME);
    ResolutionTableOnlyConflicts(p, s, Referred(p, fs, RESOLUTION, |fs|));
    OutcomeTableClean(p, s, Referred(p, fs, OUTCOME, |fs|));
    InvocationsOnlyConflict(p, s, |Decisions(p, fs, |fs|)|);
  }

  // ---- What is reported of each call -----------------------------------

  /** The status that tells a call's true fate. A resolution can only add to what
      the journal could not know; against a recorded success it stays open. */
  function TrueStatus(fate: Fate, resolution: Option<Text>): InvocationStatus {
    match fate
    case WasDenied => DeniedInvocation
    case WasDryRun => DryRunInvocation
    case DidSucceed => if resolution.None? then SucceededInvocation else NeedsReconciliation
    case _ =>
      if resolution == Some(Known(CONFIRMED_COMPLETED)) then ResolvedCompleted
      else if resolution == Some(Known(CONFIRMED_NOT_COMPLETED)) then ResolvedNotCompleted
      else if fate == DidFail then FailedInvocation
      else NeedsReconciliation
  }

  lemma OutcomeRowsExist(p: Platform, fs: seq<Fact>, d: nat)
    requires d < |fs|
    ensures OutcomeStatus(p, fs, d).Some? ==> Linked(p, fs, OUTCOME, |fs|, p.show(fs[d].id)) != []
    ensures |Linked(p, fs, OUTCOME, |fs|, p.show(fs[d].id))| <= 1 && OutcomeStatus(p, fs, d).None? ==>
            Linked(p, fs, OUTCOME, |fs|, p.show(fs[d].id)) == []
  {
    hide Linked;
  }

  lemma DecidedFits(p: Platform, s: State, c: nat)
    requires Inv(p, s) && c in s.calls && s.calls[c].decision.Some?
    ensures CallFits(FactsOf(s.journal), s.calls[c])
  {
    hide CallFits, OneOwner, DecisionsOwned, OutcomesFit, ResolutionsFit, ReservedSafely, MemoriesTrue, EndsRecorded, OneOutcome;
  }

  /** The audited status of a call's decision is the call's true fate. */
  lemma StatusIsTrue(p: Platform, s: State, c: nat)
    requires ShowsTexts(p) && Inv(p, s) && c in s.calls && s.calls[c].decision.Some?
    ensures s.calls[c].decision.value < |s.journal|
    ensures var fs, d := FactsOf(s.journal), s.calls[c].decision.value;
      StatusOf(p, fs, d) == TrueStatus(s.calls[c].fate, LastResolution(p, fs, d))
  {
    hide Inv, FactOf, FactsOf, Linked, OutcomeFits, SameIdentity, LastResolution, OutcomeStatus;
    var fs, call := FactsOf(s.journal), s.calls[c];
    DecidedFits(p, s, c);
    OutcomeStatusTrue(p, s, c);
    OutcomeRowsTrue(p, s, c);
    var d := call.decision.value;
    OutcomeRowsExist(p, fs, d);
    LastResolutionKnown(p, s, d);
    if LastResolution(p, fs, d).Some? {
      ResolvedReallyExecuted(p, s, d);
    }
    assert Linked(p, fs, OUTCOME, |fs|, p.show(fs[d].id)) == OutcomeRows(p, fs, d);
  }

  /** Main result. In every interleaving of guarded calls, crashes and resolutions,
      the journal verifies, its audit reports nothing but conflicting resolutions, and
      call by call the audited status is what really happened. */
  lemma AuditTellsTheTruth(p: Platform, trusted: set<Text>, states: seq<State>, steps: seq<Step>, n: nat)
    requires ShowsTexts(p) && Run(p, trusted, states, steps) && n < |states|
    ensures V.Verify(p, trusted, T.Lines(states[n].journal), V.NoWitness).valid
    ensures var s, fs := states[n], FactsOf(states[n].journal);
      var ds, report := Decisions(p, fs, |fs|), AuditOf(p, fs);
      && Only(report.issues, ConflictingResolution)
      && |report.invocations| == |ds|
      && (forall c :: c in s.calls && s.calls[c].decision.Some? ==> s.calls[c].decision.value in ds)
      && forall k :: 0 <= k < |ds| ==> Tells(p, s, ds[k], report.invocations[k])
  {
    hide Run, Inv, FactOf, Produced, Decisions, Tells;
    var s, fs := states[n], FactsOf(states[n].journal);
    var ds := Decisions(p, fs, |fs|);
    InvariantOverRuns(p, trusted, states, steps, n);
    JournalsAreProduced(p, trusted, states, steps, n);
    T.ReadAll(s.journal);
    V.ReadableWhile(T.Lines(s.journal), |s.journal|);
    Acceptance.ProducedVerifies(p, trusted, s.journal, T.Lines(s.journal));
    OnlyConflictsReported(p, s);
    AuditedOwners(p, s);
    forall k | 0 <= k < |ds| ensures Tells(p, s, ds[k], AuditOf(p, fs).invocations[k]) {
      InvocationTells(p, s, ds[k]);
    }
  }

  /** The invocation audited for decision `d` belongs to one call, shows that call's
      contract, and tells its fate. */
  ghost predicate Tells(p: Platform, s: State, d: nat, invocation: Invocation) {
    && d < |s.journal|
    && ShowsDecision(p, s.journal[d], invocation) && ShowsOutcome(p, s.journal, d, invocation)
    && exists c :: Owns(s.calls, c, d)
                   && (forall b :: Owns(s.calls, b, d) ==> b == c)
                   && ShowsContract(s.calls[c], invocation)
                   && (invocation.outcomeId.Some? <==> s.calls[c].fate == DidSucceed || s.calls[c].fate == DidFail)
                   && invocation.status == TrueStatus(s.calls[c].fate, LastResolution(p, FactsOf(s.journal), d))
  }

  predicate ShowsContract(call: Call, invocation: Invocation) {
    var contract := call.spec.contract;
    && invocation.actionName == contract.actionName && invocation.actionId == contract.actionId
    && invocation.contractHash == contract.contractHash
    && invocation.risk == contract.risk && invocation.approvalMode == contract.approvalMode
    && invocation.verdict == Known(if call.fate == WasDenied then DENIED else ALLOWED)
  }

  predicate ShowsDecision(p: Platform, decision: Event, invocation: Invocation) {
    && invocation.decisionId == p.show(Get(decision, EventId))
    && invocation.inputHash == p.show(Get(decision, InputHash))
    && invocation.decisionTime == p.show(Get(decision, TimestampUtc))
  }

  predicate OutcomeEventOf(journal: seq<Event>, d: nat, i: nat)
    requires d < |journal| && i < |journal|
  {
    KindOf(journal[i]) == W(OUTCOME) && Get(journal[i], DecisionEventId) == Get(journal[d], EventId)
  }

  /** The one outcome event that refers to the decision, or none if there is none. */
  predicate ShowsOutcome(p: Platform, journal: seq<Event>, d: nat, invocation: Invocation)
    requires d < |journal|
  {
    && (invocation.outcomeId.Some? <==> invocation.outcomeTime.Some?)
    && (invocation.outcomeId.None? ==> forall i :: 0 <= i < |journal| ==> !OutcomeEventOf(journal, d, i))
    && (invocation.outcomeId.Some? ==>
          exists i :: 0 <= i < |journal| && OutcomeEventOf(journal, d, i)
                      && invocation.outcomeId == Some(p.show(Get(journal[i], EventId)))
                      && invocation.outcomeTime == Some(p.show(Get(journal[i], TimestampUtc)))
                      && forall j :: 0 <= j < |journal| && OutcomeEventOf(journal, d, j) ==> j == i)
  }

  lemma OutcomeShown(p: Platform, s: State, d: nat, c: nat)
    requires ShowsTexts(p) && Inv(p, s) && c in s.calls && s.calls[c].decision == Some(d)
    ensures d < |s.journal|
    ensures var invocation := InvocationOf(p, FactsOf(s.journal), d);
      && ShowsOutcome(p, s.journal, d, invocation)
      && (invocation.outcomeId.Some? <==> s.calls[c].fate == DidSucceed || s.calls[c].fate == DidFail)
  {
    hide Inv, FactOf, StatusOf, OutcomeFits, Linked, Get;
    OutcomeRowsTrue(p, s, c);
    var fs := FactsOf(s.journal);
    var rows := OutcomeRows(p, fs, d);
    RowsAreLinked(p, fs, d);
    forall i | 0 <= i < |fs| ensures i in rows <==> OutcomeEventOf(s.journal, d, i) {
      OutcomeRowsAre(p, s, c, i);
    }
    if rows != [] {
      assert rows == [rows[0]] && rows[0] in rows;
      FactIs(s.journal, rows[0]);
    }
  }

  lemma RowsAreLinked(p: Platform, fs: seq<Fact>, d: nat)
    requires d < |fs|
    ensures OutcomeRows(p, fs, d) == Linked(p, fs, OUTCOME, |fs|, p.show(fs[d].id))
  {
  }

  lemma FactIs(es: seq<Event>, i: nat)
    requires i < |es|
    ensures var f := FactsOf(es)[i];
      && f.id == Get(es[i], EventId) && f.time == Get(es[i], TimestampUtc) && f.inputHash == Get(es[i], InputHash)
      && f.kind == KindOf(es[i]) && f.ref == Get(es[i], DecisionEventId)
  {
  }

  lemma OutcomeRowsAre(p: Platform, s: State, c: nat, i: nat)
    requires ShowsTexts(p) && Inv(p, s) && c in s.calls && s.calls[c].decision.Some? && i < |s.journal|
    ensures s.calls[c].decision.value < |s.journal|
    ensures i in OutcomeRows(p, FactsOf(s.journal), s.calls[c].decision.value)
            <==> OutcomeEventOf(s.journal, s.calls[c].decision.value, i)
  {
    hide FactOf, Linked, CallsFit, OneOwner, DecisionsOwned, OutcomesFit, ResolutionsFit, ReservedSafely, MemoriesTrue, EndsRecorded,
         OneOutcome, IdsDistinct, Get, ShowsTexts;
    var fs := FactsOf(s.journal);
    DecidedFits(p, s, c);
    var d := s.calls[c].decision.value;
    FactIs(s.journal, i);
    FactIs(s.journal, d);
    IdIsText(p, s, d);
    if IsOutcome(fs[i]) {
      RefsAreTexts(p, s, i);
      RefersByName(p, fs[i], OUTCOME, fs[d]);
    }
    RowsAreLinked(p, fs, d);
  }

  lemma IdIsText(p: Platform, s: State, d: nat)
    requires Inv(p, s) && d < |s.journal|
    ensures IsText(FactsOf(s.journal)[d].id)
  {
    hide FactOf, CallsFit, OneOwner, DecisionsOwned, OutcomesFit, ResolutionsFit, ReservedSafely, MemoriesTrue, EndsRecorded, OneOutcome;
  }

  lemma ContractShown(p: Platform, s: State, d: nat, c: nat)
    requires ShowsTexts(p) && Inv(p, s) && c in s.calls && s.calls[c].decision == Some(d)
    ensures d < |s.journal|
    ensures var invocation := InvocationOf(p, FactsOf(s.journal), d);
      ShowsContract(s.calls[c], invocation) && ShowsDecision(p, s.journal[d], invocation)
  {
    hide Inv, FactOf, StatusOf, SoleOutcome, Get;
    DecidedFits(p, s, c);
    FactIs(s.journal, d);
    var contract := s.calls[c].spec.contract;
    assert p.show(Str(contract.actionName)) == contract.actionName && p.show(Str(contract.actionId)) == contract.actionId;
    assert p.show(Str(contract.contractHash)) == contract.contractHash;
    assert p.show(Str(contract.risk)) == contract.risk && p.show(Str(contract.approvalMode)) == contract.approvalMode;
    assert p.show(W(ALLOWED)) == Known(ALLOWED) && p.show(W(DENIED)) == Known(DENIED);
  }

  lemma InvocationTells(p: Platform, s: State, d: nat)
    requires ShowsTexts(p) && Inv(p, s) && d < |s.journal| && IsDecision(FactsOf(s.journal)[d])
    ensures Tells(p, s, d, InvocationOf(p, FactsOf(s.journal), d))
  {
    hide Inv, FactOf, StatusOf, SoleOutcome, LastResolution, TrueStatus, ShowsTexts, ShowsContract, ShowsDecision, ShowsOutcome;
    var c := OwnerOf(p, s, d);
    StatusIsTrue(p, s, c);
    ContractShown(p, s, d, c);
    OutcomeShown(p, s, d, c);
    OneOwnerOnly(p, s, d, c);
    assert Owns(s.calls, c, d);
  }

  lemma OneOwnerOnly(p: Platform, s: State, d: nat, c: nat)
    requires Inv(p, s) && c in s.calls && s.calls[c].decision == Some(d)
    ensures forall b :: Owns(s.calls, b, d) ==> b == c
  {
    hide FactOf, CallsFit, DecisionsOwned, OutcomesFit, ResolutionsFit, ReservedSafely, MemoriesTrue, EndsRecorded, OneOutcome, IdsDistinct;
  }

  lemma AuditedOwners(p: Platform, s: State)
    requires ShowsTexts(p) && Inv(p, s)
    ensures forall c :: c in s.calls && s.calls[c].decision.Some? ==>
      s.calls[c].decision.value in Decisions(p, FactsOf(s.journal), |s.journal|)
  {
    var fs := FactsOf(s.journal);
    AllDecisionsAudited(p, fs, |fs|);
    forall c | c in s.calls && s.calls[c].decision.Some?
      ensures s.calls[c].decision.value < |fs| && IsDecision(fs[s.calls[c].decision.value])
    {
      assert CallFits(fs, s.calls[c]);
    }
  }

  /** Whatever is resolved, no two decisions with one action and key are both classified as succeeded. */
  lemma NoKeySucceedsTwice(p: Platform, trusted: set<Text>, states: seq<State>, steps: seq<Step>, n: nat, i: nat, j: nat)
    requires ShowsTexts(p) && Run(p, trusted, states, steps) && n < |states| && i < j < |states[n].journal|
    requires IsDecision(FactsOf(states[n].journal)[i]) && IsDecision(FactsOf(states[n].journal)[j])
    requires Claims(p, FactsOf(states[n].journal), i) && Claims(p, FactsOf(states[n].journal), j)
    ensures Claim(FactsOf(states[n].journal)[i]) != Claim(FactsOf(states[n].journal)[j])
  {
    hide Inv, Run, Claims, Claim, FactOf;
    InvariantOverRuns(p, trusted, states, steps, n);
    ClaimsDiffer(p, states[n], i, j);
  }
}
