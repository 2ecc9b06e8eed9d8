/** What an audit report lists, on any journal: each issue exactly when it is deserved,
    told from the events alone, and one invocation for each first decision under an id. */
module AuditMeaning {
  import opened Evidence
  import opened Facts
  import opened Audit

  // ---- Who refers to whom ----------------------------------------------

  /** The first decision recorded under its id. */
  predicate Audited(p: Platform, fs: seq<Fact>, d: nat) {
    && d < |fs| && IsDecision(fs[d])
    && forall j :: 0 <= j < d && IsDecision(fs[j]) ==> p.show(fs[j].id) != p.show(fs[d].id)
  }

  predicate Under(p: Platform, fs: seq<Fact>, kind: Word, i: nat, id: Text) {
    i < |fs| && fs[i].kind == W(kind) && p.show(fs[i].ref) == id
  }

  /** Event `i` refers to the audited decision `d`. */
  predicate LinksTo(p: Platform, fs: seq<Fact>, kind: Word, i: nat, d: nat) {
    i < |fs| && d < |fs| && Audited(p, fs, d) && Under(p, fs, kind, i, p.show(fs[d].id))
  }

  predicate Unknown(p: Platform, fs: seq<Fact>, id: Text) {
    forall d :: 0 <= d < |fs| && IsDecision(fs[d]) ==> p.show(fs[d].id) != id
  }

  predicate SoleSuccess(p: Platform, fs: seq<Fact>, d: nat)
    requires d < |fs|
  {
    exists i :: 0 <= i < |fs| && LinksTo(p, fs, OUTCOME, i, d) && fs[i].status == W(SUCCEEDED)
                && forall j :: 0 <= j < |fs| && LinksTo(p, fs, OUTCOME, j, d) ==> j == i
  }

  predicate AnyResolution(p: Platform, fs: seq<Fact>, d: nat)
    requires d < |fs|
  {
    exists i :: 0 <= i < |fs| && LinksTo(p, fs, RESOLUTION, i, d)
  }

  /** An audited call that counts as succeeded under a non-empty key. */
  predicate HasClaim(p: Platform, fs: seq<Fact>, d: nat) {
    && Audited(p, fs, d) && fs[d].verdict == W(ALLOWED) && SoleSuccess(p, fs, d) && !AnyResolution(p, fs, d)
    && IsText(fs[d].key) && fs[d].key != Str(Other("")) && IsText(fs[d].actionName)
  }

  /** When an issue belongs in the report. */
  ghost predicate Deserved(p: Platform, fs: seq<Fact>, issue: AuditIssue) {
    match issue.code
    case DuplicateEventId => issue.quoted == [] && SharedId(p, fs, issue.eventId)
    case OrphanResolution => OrphanOf(p, fs, RESOLUTION, issue)
    case OrphanOutcome => OrphanOf(p, fs, OUTCOME, issue)
    case ConflictingResolution => issue.quoted == [] && exists d: nat :: AuditedAs(p, fs, d, issue.eventId) && Conflicts(p, fs, d)
    case ResolutionBeforeDecision =>
      issue.quoted == [] && exists i: nat, d: nat :: LinksTo(p, fs, RESOLUTION, i, d) && i <= d && p.show(fs[i].id) == issue.eventId
    case DuplicateOutcome => issue.quoted == [] && exists d: nat :: AuditedAs(p, fs, d, issue.eventId) && TwoOutcomes(p, fs, d)
    case InvalidDecision => exists d: nat :: AuditedAs(p, fs, d, issue.eventId) && OddVerdict(fs[d], issue)
    case DuplicateIdempotencyKey =>
      exists d: nat :: AuditedAs(p, fs, d, issue.eventId) && ClaimsAgain(p, fs, d) && issue.quoted == [fs[d].actionName, fs[d].key]
    case _ => exists i: nat, d: nat :: LinksTo(p, fs, OUTCOME, i, d) && p.show(fs[i].id) == issue.eventId && AgainstOutcome(fs, i, d, issue)
  }

  predicate AuditedAs(p: Platform, fs: seq<Fact>, d: nat, id: Text) {
    d < |fs| && Audited(p, fs, d) && p.show(fs[d].id) == id
  }

  predicate SharedId(p: Platform, fs: seq<Fact>, id: Text) {
    exists i, j :: 0 <= i < j < |fs| && p.show(fs[i].id) == p.show(fs[j].id) == id
  }

  predicate Conflicts(p: Platform, fs: seq<Fact>, d: nat)
    requires d < |fs|
  {
    TwoResolutions(p, fs, d) || (fs[d].verdict == W(ALLOWED) && SoleSuccess(p, fs, d) && AnyResolution(p, fs, d))
  }

  predicate TwoOutcomes(p: Platform, fs: seq<Fact>, d: nat)
    requires d < |fs|
  {
    exists i, j :: 0 <= i < |fs| && 0 <= j < |fs| && i != j && LinksTo(p, fs, OUTCOME, i, d) && LinksTo(p, fs, OUTCOME, j, d)
  }

  predicate OddVerdict(decision: Fact, issue: AuditIssue) {
    issue.quoted == [decision.verdict] && decision.verdict != W(ALLOWED) && decision.verdict != W(DENIED)
  }

  /** An earlier audited call claims the same action and key. */
  predicate ClaimsAgain(p: Platform, fs: seq<Fact>, d: nat)
    requires d < |fs|
  {
    HasClaim(p, fs, d)
    && exists b :: 0 <= b < d && HasClaim(p, fs, b) && fs[b].actionName == fs[d].actionName && fs[b].key == fs[d].key
  }

  predicate OrphanOf(p: Platform, fs: seq<Fact>, kind: Word, issue: AuditIssue) {
    |issue.quoted| == 1 && IsText(issue.quoted[0]) && Unknown(p, fs, issue.quoted[0].t)
    && exists i: nat :: i < |fs| && Under(p, fs, kind, i, issue.quoted[0].t) && p.show(fs[i].id) == issue.eventId
  }

  predicate TwoResolutions(p: Platform, fs: seq<Fact>, d: nat)
    requires d < |fs|
  {
    exists i, j :: 0 <= i < |fs| && 0 <= j < |fs| && LinksTo(p, fs, RESOLUTION, i, d) && LinksTo(p, fs, RESOLUTION, j, d)
                   && p.show(fs[i].resolution) != p.show(fs[j].resolution)
  }

  /** What may be wrong with one outcome of its decision. */
  predicate AgainstOutcome(fs: seq<Fact>, i: nat, d: nat, issue: AuditIssue)
    requires i < |fs| && d < |fs|
  {
    match issue.code
    case OutcomeBeforeDecision => issue.quoted == [] && i <= d
    case OutcomeForDeniedDecision => issue.quoted == [] && fs[d].verdict != W(ALLOWED)
    case OutcomeIdentityMismatch =>
      || (issue.quoted == [Str(Other("action_id"))] && !PyEq(fs[i].actionId, fs[d].actionId))
      || (issue.quoted == [Str(Other("action_name"))] && !PyEq(fs[i].actionName, fs[d].actionName))
      || (issue.quoted == [Str(Other("contract_hash"))] && !PyEq(fs[i].contractHash, fs[d].contractHash))
    case InvalidOutcomeStatus => issue.quoted == [fs[i].status] && fs[i].status != W(SUCCEEDED) && fs[i].status != W(FAILED)
    case _ => false
  }

  // ---- The tables ------------------------------------------------------

  lemma FoundIsAudited(p: Platform, fs: seq<Fact>, id: Text)
    ensures var d := DecisionFor(p, fs, |fs|, id);
      && (d.None? <==> Unknown(p, fs, id))
      && (d.Some? ==> Audited(p, fs, d.value) && p.show(fs[d.value].id) == id)
      && forall e: nat :: Audited(p, fs, e) && p.show(fs[e].id) == id ==> d == Some(e)
  {
    var d := DecisionFor(p, fs, |fs|, id);
    forall e: nat | Audited(p, fs, e) && p.show(fs[e].id) == id ensures d == Some(e) {
    }
  }

  lemma {:induction false} DecisionsAreAudited(p: Platform, fs: seq<Fact>, n: nat)
    requires n <= |fs|
    ensures forall d: nat :: d in Decisions(p, fs, n) <==> d < n && Audited(p, fs, d)
    ensures forall k, l :: 0 <= k < l < |Decisions(p, fs, n)| ==> Decisions(p, fs, n)[k] < Decisions(p, fs, n)[l]
  {
    if n > 0 {
      DecisionsAreAudited(p, fs, n - 1);
      var found := DecisionFor(p, fs, n - 1, p.show(fs[n - 1].id));
      assert IsDecision(fs[n - 1]) ==> (found.None? <==> Audited(p, fs, n - 1));
    }
  }

  lemma RowsAre(p: Platform, fs: seq<Fact>, kind: Word, id: Text, i: nat)
    ensures i in Linked(p, fs, kind, |fs|, id) <==> Under(p, fs, kind, i, id)
  {
    var rows := Linked(p, fs, kind, |fs|, id);
    if i in rows {
      var k :| 0 <= k < |rows| && rows[k] == i;
    }
  }

  lemma WhenIssueHas(condition: bool, issue: AuditIssue, x: AuditIssue)
    ensures x in WhenIssue(condition, issue) <==> condition && x == issue
  {
  }

  // ---- Repeated ids ----------------------------------------------------

  lemma {:induction false} DuplicatesExactly(p: Platform, fs: seq<Fact>, n: nat, issue: AuditIssue)
    requires n <= |fs|
    ensures issue in DuplicateIds(p, fs, n) <==>
      && issue.code == DuplicateEventId && issue.quoted == []
      && exists i, j :: 0 <= i < j < n && p.show(fs[i].id) == p.show(fs[j].id) == issue.eventId
  {
    if n > 0 {
      DuplicatesExactly(p, fs, n - 1, issue);
      WhenIssueHas(IdSeen(p, fs, n - 1), AuditIssue(DuplicateEventId, [], p.show(fs[n - 1].id)), issue);
    }
  }

  // ---- Resolutions -----------------------------------------------------

  lemma OrphansExactly(p: Platform, fs: seq<Fact>, kind: Word, code: AuditCode, id: Text, issue: AuditIssue)
    ensures issue in Orphans(p, fs, Linked(p, fs, kind, |fs|, id), code, id) <==>
      && issue.code == code && issue.quoted == [Str(id)]
      && exists i: nat :: i < |fs| && Under(p, fs, kind, i, id) && p.show(fs[i].id) == issue.eventId
  {
    var rows := Linked(p, fs, kind, |fs|, id);
    var all := Orphans(p, fs, rows, code, id);
    if issue in all {
      var k :| 0 <= k < |all| && all[k] == issue;
      RowsAre(p, fs, kind, id, rows[k]);
    } else if issue.code == code && issue.quoted == [Str(id)] {
      forall i: nat | i < |fs| && Under(p, fs, kind, i, id) ensures p.show(fs[i].id) != issue.eventId {
        RowsAre(p, fs, kind, id, i);
        var k :| 0 <= k < |rows| && rows[k] == i;
        assert all[k] in all;
      }
    }
    hide Linked, Refers;
  }

  lemma {:induction false} EarlyExactly(p: Platform, fs: seq<Fact>, rows: seq<nat>, d: nat, issue: AuditIssue)
    requires forall k :: 0 <= k < |rows| ==> rows[k] < |fs|
    ensures issue in EarlyResolutions(p, fs, rows, d) <==>
      issue.code == ResolutionBeforeDecision && issue.quoted == []
      && exists k :: 0 <= k < |rows| && rows[k] <= d && p.show(fs[rows[k]].id) == issue.eventId
  {
    if rows != [] {
      var last := rows[|rows| - 1];
      EarlyExactly(p, fs, rows[..|rows| - 1], d, issue);
      WhenIssueHas(last <= d, AuditIssue(ResolutionBeforeDecision, [], p.show(fs[last].id)), issue);
    }
  }

  lemma DisagreeMeans(p: Platform, fs: seq<Fact>, d: nat)
    requires d < |fs| && Audited(p, fs, d)
    ensures Disagree(p, fs, Linked(p, fs, RESOLUTION, |fs|, p.show(fs[d].id))) <==> TwoResolutions(p, fs, d)
  {
    hide Linked, Audited;
    var rows := Linked(p, fs, RESOLUTION, |fs|, p.show(fs[d].id));
    forall i | 0 <= i < |fs| ensures i in rows <==> LinksTo(p, fs, RESOLUTION, i, d) {
      RowsAre(p, fs, RESOLUTION, p.show(fs[d].id), i);
    }
    if Disagree(p, fs, rows) {
      var k :| 0 <= k < |rows| && p.show(fs[rows[k]].resolution) != p.show(fs[rows[0]].resolution);
      assert rows[k] in rows && rows[0] in rows;
    }
    if TwoResolutions(p, fs, d) {
      var i, j :| 0 <= i < |fs| && 0 <= j < |fs| && LinksTo(p, fs, RESOLUTION, i, d) && LinksTo(p, fs, RESOLUTION, j, d)
                  && p.show(fs[i].resolution) != p.show(fs[j].resolution);
      var x :| 0 <= x < |rows| && rows[x] == i;
      var y :| 0 <= y < |rows| && rows[y] == j;
    }
  }

  /** What one id that resolutions refer to adds to the report. */
  ghost predicate OfResolutions(p: Platform, fs: seq<Fact>, id: Text, issue: AuditIssue) {
    || (issue.code == OrphanResolution && issue.quoted == [Str(id)] && OrphanOf(p, fs, RESOLUTION, issue))
    || (issue.code == ConflictingResolution && issue.quoted == [] && issue.eventId == id
        && exists d: nat :: AuditedAs(p, fs, d, id) && TwoResolutions(p, fs, d))
    || (issue.code == ResolutionBeforeDecision && issue.quoted == []
        && exists i: nat, d: nat :: AuditedAs(p, fs, d, id) && LinksTo(p, fs, RESOLUTION, i, d) && i <= d && p.show(fs[i].id) == issue.eventId)
  }

  lemma ResolutionsExactly(p: Platform, fs: seq<Fact>, id: Text, issue: AuditIssue)
    ensures issue in ResolutionIssuesOf(p, fs, id) <==> OfResolutions(p, fs, id, issue)
  {
    hide Linked, DecisionFor, EarlyResolutions, Orphans, Disagree, TwoResolutions, Audited, Unknown, Under;
    FoundIsAudited(p, fs, id);
    var rows, found := Linked(p, fs, RESOLUTION, |fs|, id), DecisionFor(p, fs, |fs|, id);
    if found.None? {
      OrphansExactly(p, fs, RESOLUTION, OrphanResolution, id, issue);
    } else {
      var d := found.value;
      DisagreeMeans(p, fs, d);
      EarlyExactly(p, fs, rows, d, issue);
      WhenIssueHas(Disagree(p, fs, rows), AuditIssue(ConflictingResolution, [], id), issue);
      EarlyMeans(p, fs, d, issue.eventId);
    }
  }

  lemma EarlyMeans(p: Platform, fs: seq<Fact>, d: nat, id: Text)
    requires d < |fs| && Audited(p, fs, d)
    ensures var rows := Linked(p, fs, RESOLUTION, |fs|, p.show(fs[d].id));
      (exists k :: 0 <= k < |rows| && rows[k] <= d && p.show(fs[rows[k]].id) == id)
      <==> exists i: nat :: LinksTo(p, fs, RESOLUTION, i, d) && i <= d && p.show(fs[i].id) == id
  {
    hide Linked, Audited, LinksTo;
    var rows := Linked(p, fs, RESOLUTION, |fs|, p.show(fs[d].id));
    forall k | 0 <= k < |rows| && rows[k] <= d && p.show(fs[rows[k]].id) == id
      ensures exists i: nat :: LinksTo(p, fs, RESOLUTION, i, d) && i <= d && p.show(fs[i].id) == id
    {
      assert rows[k] in rows;
      RowLinks(p, fs, d, rows[k]);
    }
    forall i: nat | LinksTo(p, fs, RESOLUTION, i, d) && i <= d && p.show(fs[i].id) == id
      ensures exists k :: 0 <= k < |rows| && rows[k] <= d && p.show(fs[rows[k]].id) == id
    {
      RowLinks(p, fs, d, i);
      var k :| 0 <= k < |rows| && rows[k] == i;
    }
  }

  lemma RowLinks(p: Platform, fs: seq<Fact>, d: nat, i: nat)
    requires d < |fs| && Audited(p, fs, d)
    ensures i in Linked(p, fs, RESOLUTION, |fs|, p.show(fs[d].id)) <==> LinksTo(p, fs, RESOLUTION, i, d)
  {
    hide Linked, Audited;
    RowsAre(p, fs, RESOLUTION, p.show(fs[d].id), i);
  }

  lemma {:induction false} ResolutionTableExactly(p: Platform, fs: seq<Fact>, ids: seq<Text>, issue: AuditIssue)
    ensures issue in ResolutionIssues(p, fs, ids) <==> exists k :: 0 <= k < |ids| && OfResolutions(p, fs, ids[k], issue)
  {
    hide OfResolutions, ResolutionIssuesOf;
    if ids != [] {
      ResolutionTableExactly(p, fs, ids[..|ids| - 1], issue);
      ResolutionsExactly(p, fs, ids[|ids| - 1], issue);
    }
  }

  // ---- Outcomes --------------------------------------------------------

  lemma OutcomeExactly(p: Platform, fs: seq<Fact>, i: nat, d: nat, issue: AuditIssue)
    requires i < |fs| && d < |fs|
    ensures issue in OutcomeIssue(p, fs, i, d) <==> issue.eventId == p.show(fs[i].id) && AgainstOutcome(fs, i, d, issue)
  {
    hide PyEq, WhenIssue;
    var outcome, decision, id := fs[i], fs[d], p.show(fs[i].id);
    WhenIssueHas(i <= d, AuditIssue(OutcomeBeforeDecision, [], id), issue);
    WhenIssueHas(decision.verdict != W(ALLOWED), AuditIssue(OutcomeForDeniedDecision, [], id), issue);
    WhenIssueHas(!PyEq(outcome.actionId, decision.actionId), AuditIssue(OutcomeIdentityMismatch, [Str(Other("action_id"))], id), issue);
    WhenIssueHas(!PyEq(outcome.actionName, decision.actionName), AuditIssue(OutcomeIdentityMismatch, [Str(Other("action_name"))], id), issue);
    WhenIssueHas(!PyEq(outcome.contractHash, decision.contractHash), AuditIssue(OutcomeIdentityMismatch, [Str(Other("contract_hash"))], id), issue);
    WhenIssueHas(outcome.status != W(SUCCEEDED) && outcome.status != W(FAILED), AuditIssue(InvalidOutcomeStatus, [outcome.status], id), issue);
  }

  lemma {:induction false} OutcomesOnExactly(p: Platform, fs: seq<Fact>, rows: seq<nat>, d: nat, issue: AuditIssue)
    requires d < |fs| && forall k :: 0 <= k < |rows| ==> rows[k] < |fs|
    ensures issue in OutcomeIssuesOn(p, fs, rows, d) <==>
      exists k :: 0 <= k < |rows| && issue.eventId == p.show(fs[rows[k]].id) && AgainstOutcome(fs, rows[k], d, issue)
  {
    hide OutcomeIssue, AgainstOutcome;
    if rows != [] {
      OutcomesOnExactly(p, fs, rows[..|rows| - 1], d, issue);
      OutcomeExactly(p, fs, rows[|rows| - 1], d, issue);
    }
  }

  ghost predicate OfOutcomes(p: Platform, fs: seq<Fact>, id: Text, issue: AuditIssue) {
    || (issue.code == OrphanOutcome && issue.quoted == [Str(id)] && OrphanOf(p, fs, OUTCOME, issue))
    || (issue.code == DuplicateOutcome && issue.quoted == [] && issue.eventId == id
        && exists d: nat :: AuditedAs(p, fs, d, id) && TwoOutcomes(p, fs, d))
    || exists i: nat, d: nat :: AuditedAs(p, fs, d, id) && LinksTo(p, fs, OUTCOME, i, d) && issue.eventId == p.show(fs[i].id)
                                && AgainstOutcome(fs, i, d, issue)
  }

  lemma SeveralMeans(p: Platform, fs: seq<Fact>, d: nat)
    requires d < |fs| && Audited(p, fs, d)
    ensures var rows := Linked(p, fs, OUTCOME, |fs|, p.show(fs[d].id));
      && (forall i: nat :: i in rows <==> i < |fs| && LinksTo(p, fs, OUTCOME, i, d))
      && (|rows| > 1 <==> TwoOutcomes(p, fs, d))
  {
    hide Linked, Audited;
    var rows := Linked(p, fs, OUTCOME, |fs|, p.show(fs[d].id));
    forall i: nat ensures i in rows <==> i < |fs| && LinksTo(p, fs, OUTCOME, i, d) {
      RowsAre(p, fs, OUTCOME, p.show(fs[d].id), i);
    }
    if |rows| > 1 {
      assert rows[0] in rows && rows[1] in rows && rows[0] != rows[1];
    }
    if TwoOutcomes(p, fs, d) {
      var i, j :| 0 <= i < |fs| && 0 <= j < |fs| && i != j && LinksTo(p, fs, OUTCOME, i, d) && LinksTo(p, fs, OUTCOME, j, d);
      var x :| 0 <= x < |rows| && rows[x] == i;
      var y :| 0 <= y < |rows| && rows[y] == j;
    }
  }

  lemma OutcomesExactly(p: Platform, fs: seq<Fact>, id: Text, issue: AuditIssue)
    ensures issue in OutcomeIssuesOf(p, fs, id) <==> OfOutcomes(p, fs, id, issue)
  {
    hide Linked, DecisionFor, OutcomeIssuesOn, Orphans, TwoOutcomes, Audited, Unknown, Under, AgainstOutcome;
    FoundIsAudited(p, fs, id);
    var rows, found := Linked(p, fs, OUTCOME, |fs|, id), DecisionFor(p, fs, |fs|, id);
    if found.None? {
      OrphansExactly(p, fs, OUTCOME, OrphanOutcome, id, issue);
    } else {
      var d := found.value;
      SeveralMeans(p, fs, d);
      OutcomesOnExactly(p, fs, rows, d, issue);
      WhenIssueHas(|rows| > 1, AuditIssue(DuplicateOutcome, [], id), issue);
      OutcomesOnMean(p, fs, d, issue);
    }
  }

  lemma OutcomesOnMean(p: Platform, fs: seq<Fact>, d: nat, issue: AuditIssue)
    requires d < |fs| && Audited(p, fs, d)
    ensures var rows := Linked(p, fs, OUTCOME, |fs|, p.show(fs[d].id));
      (exists k :: 0 <= k < |rows| && issue.eventId == p.show(fs[rows[k]].id) && AgainstOutcome(fs, rows[k], d, issue))
      <==> exists i: nat :: LinksTo(p, fs, OUTCOME, i, d) && issue.eventId == p.show(fs[i].id) && AgainstOutcome(fs, i, d, issue)
  {
    hide Linked, Audited, AgainstOutcome;
    var rows := Linked(p, fs, OUTCOME, |fs|, p.show(fs[d].id));
    SeveralMeans(p, fs, d);
    if exists k :: 0 <= k < |rows| && issue.eventId == p.show(fs[rows[k]].id) && AgainstOutcome(fs, rows[k], d, issue) {
      var k :| 0 <= k < |rows| && issue.eventId == p.show(fs[rows[k]].id) && AgainstOutcome(fs, rows[k], d, issue);
      assert rows[k] in rows;
    }
    if exists i: nat :: LinksTo(p, fs, OUTCOME, i, d) && issue.eventId == p.show(fs[i].id) && AgainstOutcome(fs, i, d, issue) {
      var i: nat :| LinksTo(p, fs, OUTCOME, i, d) && issue.eventId == p.show(fs[i].id) && AgainstOutcome(fs, i, d, issue);
      var k :| 0 <= k < |rows| && rows[k] == i;
    }
  }

  lemma {:induction false} OutcomeTableExactly(p: Platform, fs: seq<Fact>, ids: seq<Text>, issue: AuditIssue)
    ensures issue in OutcomeIssues(p, fs, ids) <==> exists k :: 0 <= k < |ids| && OfOutcomes(p, fs, ids[k], issue)
  {
    hide OfOutcomes, OutcomeIssuesOf;
    if ids != [] {
      OutcomeTableExactly(p, fs, ids[..|ids| - 1], issue);
      OutcomesExactly(p, fs, ids[|ids| - 1], issue);
    }
  }

  // ---- Invocations -----------------------------------------------------

  lemma SoleMeans(p: Platform, fs: seq<Fact>, d: nat)
    requires d < |fs| && Audited(p, fs, d)
    ensures OutcomeStatus(p, fs, d) == Some(W(SUCCEEDED)) <==> SoleSuccess(p, fs, d)
    ensures LastResolution(p, fs, d).Some? <==> AnyResolution(p, fs, d)
  {
    hide Linked, Audited;
    var rows, resolved := Linked(p, fs, OUTCOME, |fs|, p.show(fs[d].id)), Linked(p, fs, RESOLUTION, |fs|, p.show(fs[d].id));
    SeveralMeans(p, fs, d);
    if |rows| == 1 {
      assert rows[0] in rows && rows == [rows[0]];
    }
    if SoleSuccess(p, fs, d) {
      var i :| 0 <= i < |fs| && LinksTo(p, fs, OUTCOME, i, d) && fs[i].status == W(SUCCEEDED)
               && forall j :: 0 <= j < |fs| && LinksTo(p, fs, OUTCOME, j, d) ==> j == i;
      assert i in rows;
    }
    forall i | 0 <= i < |fs| ensures i in resolved <==> LinksTo(p, fs, RESOLUTION, i, d) {
      RowsAre(p, fs, RESOLUTION, p.show(fs[d].id), i);
    }
    if resolved != [] {
      assert resolved[0] in resolved;
    }
  }

  lemma ClaimsMean(p: Platform, fs: seq<Fact>, d: nat)
    requires d < |fs| && Audited(p, fs, d)
    ensures Claims(p, fs, d) <==> HasClaim(p, fs, d)
  {
    hide Linked, Audited, SoleSuccess, AnyResolution, OutcomeStatus, LastResolution;
    SoleMeans(p, fs, d);
  }

  ghost predicate OfInvocation(p: Platform, fs: seq<Fact>, d: nat, issue: AuditIssue)
    requires d < |fs|
  {
    issue.eventId == p.show(fs[d].id)
    && match issue.code
       case InvalidDecision => OddVerdict(fs[d], issue)
       case ConflictingResolution => issue.quoted == [] && fs[d].verdict == W(ALLOWED) && SoleSuccess(p, fs, d) && AnyResolution(p, fs, d)
       case DuplicateIdempotencyKey => issue.quoted == [fs[d].actionName, fs[d].key] && ClaimsAgain(p, fs, d)
       case _ => false
  }

  lemma InvocationExactly(p: Platform, fs: seq<Fact>, ds: seq<nat>, k: nat, issue: AuditIssue)
    requires ds == Decisions(p, fs, |fs|) && k < |ds|
    ensures issue in InvocationIssuesOf(p, fs, ds, k) <==> OfInvocation(p, fs, ds[k], issue)
  {
    hide Decisions, Audited, SoleSuccess, AnyResolution, OutcomeStatus, LastResolution, Claims, HasClaim, ClaimTaken, ClaimsAgain, WhenIssue;
    DecisionsAreAudited(p, fs, |fs|);
    var d := ds[k];
    assert d in ds;
    SoleMeans(p, fs, d);
    ClaimsMean(p, fs, d);
    TakenMeans(p, fs, ds, k);
    var f, id := fs[d], p.show(fs[d].id);
    WhenIssueHas(f.verdict != W(ALLOWED) && f.verdict != W(DENIED), AuditIssue(InvalidDecision, [f.verdict], id), issue);
    WhenIssueHas(Contradicted(f.verdict, OutcomeStatus(p, fs, d), LastResolution(p, fs, d)), AuditIssue(ConflictingResolution, [], id), issue);
    WhenIssueHas(Claims(p, fs, d) && ClaimTaken(p, fs, ds, k), AuditIssue(DuplicateIdempotencyKey, [f.actionName, f.key], id), issue);
  }

  lemma TakenMeans(p: Platform, fs: seq<Fact>, ds: seq<nat>, k: nat)
    requires ds == Decisions(p, fs, |fs|) && k < |ds|
    ensures Claims(p, fs, ds[k]) && ClaimTaken(p, fs, ds, k) <==> ClaimsAgain(p, fs, ds[k])
  {
    hide Decisions, Claims, HasClaim;
    DecisionsAreAudited(p, fs, |fs|);
    forall l | 0 <= l < |ds| ensures Audited(p, fs, ds[l]) && (Claims(p, fs, ds[l]) <==> HasClaim(p, fs, ds[l])) {
      assert ds[l] in ds;
      ClaimsMean(p, fs, ds[l]);
    }
    if ClaimsAgain(p, fs, ds[k]) {
      var b :| 0 <= b < ds[k] && HasClaim(p, fs, b) && fs[b].actionName == fs[ds[k]].actionName && fs[b].key == fs[ds[k]].key;
      ClaimIsAudited(p, fs, b);
      var l :| 0 <= l < |ds| && ds[l] == b;
    }
  }

  lemma ClaimIsAudited(p: Platform, fs: seq<Fact>, d: nat)
    requires HasClaim(p, fs, d)
    ensures Audited(p, fs, d)
  {
  }

  lemma {:induction false} InvocationTableExactly(p: Platform, fs: seq<Fact>, ds: seq<nat>, n: nat, issue: AuditIssue)
    requires ds == Decisions(p, fs, |fs|) && n <= |ds|
    ensures issue in InvocationIssues(p, fs, ds, n) <==> exists k :: 0 <= k < n && OfInvocation(p, fs, ds[k], issue)
  {
    hide OfInvocation, InvocationIssuesOf, Decisions;
    if n > 0 {
      InvocationTableExactly(p, fs, ds, n - 1, issue);
      InvocationExactly(p, fs, ds, n - 1, issue);
    }
  }

  // ---- The report ------------------------------------------------------

  lemma RefersIsUnder(p: Platform, fs: seq<Fact>, kind: Word, id: Text)
    ensures id in Referred(p, fs, kind, |fs|) <==> exists i: nat :: i < |fs| && Under(p, fs, kind, i, id)
  {
    forall i: nat | i < |fs| ensures Refers(p, fs[i], kind, id) <==> Under(p, fs, kind, i, id) {
    }
    assert ReferredBefore(p, fs, kind, |fs|, id) <==> exists i: nat :: i < |fs| && Under(p, fs, kind, i, id) by {
      if exists i: nat :: i < |fs| && Under(p, fs, kind, i, id) {
        var i: nat :| i < |fs| && Under(p, fs, kind, i, id);
        assert Refers(p, fs[i], kind, id);
      }
    }
  }

  lemma DeservedByResolutions(p: Platform, fs: seq<Fact>, issue: AuditIssue)
    ensures (exists id :: id in Referred(p, fs, RESOLUTION, |fs|) && OfResolutions(p, fs, id, issue)) <==>
      || (issue.code == OrphanResolution && Deserved(p, fs, issue))
      || (issue.code == ConflictingResolution && issue.quoted == []
          && exists d: nat :: AuditedAs(p, fs, d, issue.eventId) && TwoResolutions(p, fs, d))
      || (issue.code == ResolutionBeforeDecision && Deserved(p, fs, issue))
  {
    hide Referred, Audited, Unknown;
    forall id ensures id in Referred(p, fs, RESOLUTION, |fs|) <==> exists i: nat :: i < |fs| && Under(p, fs, RESOLUTION, i, id) {
      RefersIsUnder(p, fs, RESOLUTION, id);
    }
    match issue.code
    case OrphanResolution =>
      if Deserved(p, fs, issue) {
        assert OfResolutions(p, fs, issue.quoted[0].t, issue);
      }
    case ConflictingResolution =>
      if issue.quoted == [] && exists d: nat :: AuditedAs(p, fs, d, issue.eventId) && TwoResolutions(p, fs, d) {
        assert OfResolutions(p, fs, issue.eventId, issue);
      }
    case ResolutionBeforeDecision =>
      if Deserved(p, fs, issue) {
        var i: nat, d: nat :| LinksTo(p, fs, RESOLUTION, i, d) && i <= d && p.show(fs[i].id) == issue.eventId;
        AuditedInRange(p, fs, d);
        assert OfResolutions(p, fs, p.show(fs[d].id), issue);
      }
    case _ =>
  }

  lemma AuditedInRange(p: Platform, fs: seq<Fact>, d: nat)
    requires Audited(p, fs, d)
    ensures d < |fs|
  {
  }

  lemma DeservedByOutcomes(p: Platform, fs: seq<Fact>, issue: AuditIssue)
    ensures (exists id :: id in Referred(p, fs, OUTCOME, |fs|) && OfOutcomes(p, fs, id, issue)) <==>
      && issue.code in {OrphanOutcome, DuplicateOutcome, OutcomeBeforeDecision, OutcomeForDeniedDecision, OutcomeIdentityMismatch,
                        InvalidOutcomeStatus}
      && Deserved(p, fs, issue)
  {
    hide Referred, Audited, Unknown;
    forall id ensures id in Referred(p, fs, OUTCOME, |fs|) <==> exists i: nat :: i < |fs| && Under(p, fs, OUTCOME, i, id) {
      RefersIsUnder(p, fs, OUTCOME, id);
    }
    if Deserved(p, fs, issue) {
      match issue.code
      case OrphanOutcome => assert OfOutcomes(p, fs, issue.quoted[0].t, issue);
      case DuplicateOutcome => assert OfOutcomes(p, fs, issue.eventId, issue);
      case OutcomeBeforeDecision => AgainstIsOf(p, fs, issue);
      case OutcomeForDeniedDecision => AgainstIsOf(p, fs, issue);
      case OutcomeIdentityMismatch => AgainstIsOf(p, fs, issue);
      case InvalidOutcomeStatus => AgainstIsOf(p, fs, issue);
      case _ =>
    }
  }

  lemma AgainstIsOf(p: Platform, fs: seq<Fact>, issue: AuditIssue)
    requires exists i: nat, d: nat :: LinksTo(p, fs, OUTCOME, i, d) && p.show(fs[i].id) == issue.eventId && AgainstOutcome(fs, i, d, issue)
    ensures exists id :: (exists i: nat :: i < |fs| && Under(p, fs, OUTCOME, i, id)) && OfOutcomes(p, fs, id, issue)
  {
    hide Audited, AgainstOutcome;
    var i: nat, d: nat :| LinksTo(p, fs, OUTCOME, i, d) && p.show(fs[i].id) == issue.eventId && AgainstOutcome(fs, i, d, issue);
    AuditedInRange(p, fs, d);
    assert OfOutcomes(p, fs, p.show(fs[d].id), issue);
  }

  lemma DeservedByInvocations(p: Platform, fs: seq<Fact>, issue: AuditIssue)
    ensures (exists d :: d in Decisions(p, fs, |fs|) && OfInvocation(p, fs, d, issue)) <==>
      || (issue.code == InvalidDecision && Deserved(p, fs, issue))
      || (issue.code == DuplicateIdempotencyKey && Deserved(p, fs, issue))
      || (issue.code == ConflictingResolution && issue.quoted == []
          && exists d: nat :: AuditedAs(p, fs, d, issue.eventId) && fs[d].verdict == W(ALLOWED) && SoleSuccess(p, fs, d) && AnyResolution(p, fs, d))
  {
    hide Decisions, Audited, SoleSuccess, AnyResolution, ClaimsAgain, OddVerdict;
    DecisionsAreAudited(p, fs, |fs|);
    forall d: nat ensures d in Decisions(p, fs, |fs|) <==> d < |fs| && Audited(p, fs, d) {
    }
  }

  /** On any journal: an issue is reported exactly when it is deserved. */
  lemma ReportExactly(p: Platform, fs: seq<Fact>, issue: AuditIssue)
    ensures issue in AuditOf(p, fs).issues <==> Deserved(p, fs, issue)
  {
    hide DuplicateIds, ResolutionIssues, OutcomeIssues, InvocationIssues, Referred, Decisions, OfResolutions, OfOutcomes, OfInvocation,
         Audited, TwoResolutions, SoleSuccess, AnyResolution, OrphanOf, AgainstOutcome, LinksTo, ClaimsAgain, OddVerdict, SharedId, TwoOutcomes;
    var n := |fs|;
    ReportedByPart(p, fs, issue);
    DeservedByResolutions(p, fs, issue);
    DeservedByOutcomes(p, fs, issue);
    DeservedByInvocations(p, fs, issue);
    DuplicatesAreShared(p, fs, issue);
  }

  lemma DuplicatesAreShared(p: Platform, fs: seq<Fact>, issue: AuditIssue)
    ensures issue in DuplicateIds(p, fs, |fs|) <==>
      issue.code == DuplicateEventId && issue.quoted == [] && SharedId(p, fs, issue.eventId)
  {
    DuplicatesExactly(p, fs, |fs|, issue);
  }

  lemma ReportedByPart(p: Platform, fs: seq<Fact>, issue: AuditIssue)
    ensures issue in AuditOf(p, fs).issues <==>
      || issue in DuplicateIds(p, fs, |fs|)
      || (exists id :: id in Referred(p, fs, RESOLUTION, |fs|) && OfResolutions(p, fs, id, issue))
      || (exists id :: id in Referred(p, fs, OUTCOME, |fs|) && OfOutcomes(p, fs, id, issue))
      || (exists d :: d in Decisions(p, fs, |fs|) && OfInvocation(p, fs, d, issue))
  {
    hide DuplicateIds, ResolutionIssues, OutcomeIssues, InvocationIssues, Referred, Decisions, OfResolutions, OfOutcomes, OfInvocation;
    var resolved, ended, ds := Referred(p, fs, RESOLUTION, |fs|), Referred(p, fs, OUTCOME, |fs|), Decisions(p, fs, |fs|);
    ResolutionTableExactly(p, fs, resolved, issue);
    OutcomeTableExactly(p, fs, ended, issue);
    InvocationTableExactly(p, fs, ds, |ds|, issue);
  }

  // ---- What each invocation shows --------------------------------------

  /** The only outcome of a decision. */
  predicate SoleOutcomeIs(p: Platform, fs: seq<Fact>, d: nat, i: nat) {
    i < |fs| && LinksTo(p, fs, OUTCOME, i, d) && forall j :: 0 <= j < |fs| && LinksTo(p, fs, OUTCOME, j, d) ==> j == i
  }

  predicate NoOutcome(p: Platform, fs: seq<Fact>, d: nat) {
    forall i :: 0 <= i < |fs| ==> !LinksTo(p, fs, OUTCOME, i, d)
  }

  /** The last resolution of a decision says `value`. */
  predicate ResolvedAs(p: Platform, fs: seq<Fact>, d: nat, value: Word) {
    exists i :: 0 <= i < |fs| && LinksTo(p, fs, RESOLUTION, i, d) && p.show(fs[i].resolution) == Known(value)
                && forall j :: i < j < |fs| ==> !LinksTo(p, fs, RESOLUTION, j, d)
  }

  lemma SoleOutcomeMeans(p: Platform, fs: seq<Fact>, d: nat)
    requires d < |fs| && Audited(p, fs, d)
    ensures SoleOutcome(p, fs, d).Some? ==> SoleOutcomeIs(p, fs, d, SoleOutcome(p, fs, d).value)
    ensures forall i: nat :: SoleOutcomeIs(p, fs, d, i) ==> SoleOutcome(p, fs, d) == Some(i)
    ensures Linked(p, fs, OUTCOME, |fs|, p.show(fs[d].id)) == [] <==> NoOutcome(p, fs, d)
  {
    hide Linked, Audited;
    var rows := Linked(p, fs, OUTCOME, |fs|, p.show(fs[d].id));
    SeveralMeans(p, fs, d);
    if |rows| == 1 {
      assert rows[0] in rows && rows == [rows[0]];
    }
    if rows != [] {
      assert rows[0] in rows;
    }
    forall i: nat | SoleOutcomeIs(p, fs, d, i) ensures SoleOutcome(p, fs, d) == Some(i) {
      assert i in rows && !TwoOutcomes(p, fs, d);
    }
  }

  lemma LastMeans(p: Platform, fs: seq<Fact>, d: nat, value: Word)
    requires d < |fs| && Audited(p, fs, d)
    ensures LastResolution(p, fs, d) == Some(Known(value)) <==> ResolvedAs(p, fs, d, value)
  {
    hide Linked, Audited;
    var rows := Linked(p, fs, RESOLUTION, |fs|, p.show(fs[d].id));
    forall i | 0 <= i < |fs| ensures i in rows <==> LinksTo(p, fs, RESOLUTION, i, d) {
      RowsAre(p, fs, RESOLUTION, p.show(fs[d].id), i);
    }
    if rows != [] {
      var last := rows[|rows| - 1];
      assert last in rows;
      assert forall k :: 0 <= k < |rows| ==> rows[k] <= last;
      assert forall j :: last < j < |fs| ==> j !in rows;
      if ResolvedAs(p, fs, d, value) {
        var i :| 0 <= i < |fs| && LinksTo(p, fs, RESOLUTION, i, d) && p.show(fs[i].resolution) == Known(value)
                 && forall j :: i < j < |fs| ==> !LinksTo(p, fs, RESOLUTION, j, d);
        assert i in rows;
        assert i == last;
      }
    }
  }

  /** The status of an audited decision, on any journal, told from the events alone. */
  lemma StatusExactly(p: Platform, fs: seq<Fact>, d: nat)
    requires d < |fs| && Audited(p, fs, d)
    ensures var status, allowed := StatusOf(p, fs, d), fs[d].verdict == W(ALLOWED);
      var dry, one := allowed && fs[d].dryRun == Bool(true), exists i: nat :: SoleOutcomeIs(p, fs, d, i);
      var confirmed := ResolvedAs(p, fs, d, CONFIRMED_COMPLETED) || ResolvedAs(p, fs, d, CONFIRMED_NOT_COMPLETED);
      && (status == DeniedInvocation <==> fs[d].verdict == W(DENIED) && NoOutcome(p, fs, d))
      && (status == DryRunInvocation <==> dry && !one)
      && (status == SucceededInvocation <==> allowed && SoleSuccess(p, fs, d) && !AnyResolution(p, fs, d))
      && (status == FailedInvocation <==>
            allowed && !confirmed && exists i: nat :: SoleOutcomeIs(p, fs, d, i) && fs[i].status == W(FAILED))
      && (status == ResolvedCompleted <==>
            allowed && !SoleSuccess(p, fs, d) && !(dry && !one) && ResolvedAs(p, fs, d, CONFIRMED_COMPLETED))
      && (status == ResolvedNotCompleted <==>
            allowed && !SoleSuccess(p, fs, d) && !(dry && !one) && ResolvedAs(p, fs, d, CONFIRMED_NOT_COMPLETED))
  {
    hide Linked, Audited, SoleOutcomeIs, NoOutcome, ResolvedAs, SoleSuccess, AnyResolution, LastResolution, SoleOutcome;
    SoleMeans(p, fs, d);
    SoleOutcomeMeans(p, fs, d);
    LastMeans(p, fs, d, CONFIRMED_COMPLETED);
    LastMeans(p, fs, d, CONFIRMED_NOT_COMPLETED);
    NoneIsNotSole(p, fs, d);
  }

  lemma NoneIsNotSole(p: Platform, fs: seq<Fact>, d: nat)
    ensures NoOutcome(p, fs, d) ==> !exists i: nat :: SoleOutcomeIs(p, fs, d, i)
  {
  }

  /** What a report shows of a decision event: its own fields, and those of its only outcome. */
  lemma InvocationShows(p: Platform, es: seq<Event>, d: nat)
    requires d < |es| && Audited(p, FactsOf(es), d)
    ensures var invocation, e, fs := InvocationOf(p, FactsOf(es), d), es[d], FactsOf(es);
      && invocation.actionName == p.show(Get(e, ActionName)) && invocation.actionId == p.show(Get(e, ActionId))
      && invocation.contractHash == p.show(Get(e, ContractHash)) && invocation.inputHash == p.show(Get(e, InputHash))
      && invocation.risk == p.show(Get(e, Risk)) && invocation.approvalMode == p.show(Get(e, ApprovalMode))
      && invocation.decisionId == p.show(Get(e, EventId)) && invocation.verdict == p.show(Get(e, Verdict))
      && invocation.decisionTime == p.show(Get(e, TimestampUtc))
      && (invocation.outcomeId.None? && invocation.outcomeTime.None? <==> !exists i: nat :: SoleOutcomeIs(p, fs, d, i))
      && forall i: nat :: SoleOutcomeIs(p, fs, d, i) && i < |es| ==>
           && invocation.outcomeId == Some(p.show(Get(es[i], EventId)))
           && invocation.outcomeTime == Some(p.show(Get(es[i], TimestampUtc)))
  {
    hide SoleOutcome, StatusOf, SoleOutcomeIs, Audited, Get;
    SoleOutcomeMeans(p, FactsOf(es), d);
  }

  /** One invocation for every audited decision, in file order. */
  lemma InvocationsExactly(p: Platform, fs: seq<Fact>)
    ensures var ds := Decisions(p, fs, |fs|);
      && (forall d: nat :: d in ds <==> d < |fs| && Audited(p, fs, d))
      && (forall k, l :: 0 <= k < l < |ds| ==> ds[k] < ds[l])
      && |AuditOf(p, fs).invocations| == |ds|
      && forall k :: 0 <= k < |ds| ==> AuditOf(p, fs).invocations[k] == InvocationOf(p, fs, ds[k])
  {
    hide Decisions, InvocationOf, Audited, DuplicateIds, ResolutionIssues, OutcomeIssues, InvocationIssues;
    DecisionsAreAudited(p, fs, |fs|);
  }
}
