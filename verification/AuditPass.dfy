/** The audit as it runs: tables filled in one loop over the retained events, then
    one loop per table. What it reports is `AuditOf`. */
module AuditPass {
  import opened Evidence
  import opened Facts
  import opened Audit
  import opened Verification
  import opened Acceptance
  import opened JournalContent

  /** The only event fields the audit reads. */
  const AUDIT_FIELDS: set<Field> := {
    EventId, EventType, DecisionEventId, Verdict, ActionId, ActionName, ContractHash, InputHash, Risk,
    ApprovalMode, TimestampUtc, DryRun, IdempotencyKey, Status, ResolutionValue}

  /** The fields the audit indexes without a default, by kind of event. */
  function Indexed(kind: Json): set<Field> {
    {EventId, EventType}
    + (if kind == W(DECISION) then
         {Verdict, ActionId, ActionName, ContractHash, InputHash, Risk, ApprovalMode, TimestampUtc}
       else if kind == W(OUTCOME) then {DecisionEventId, ActionId, ActionName, ContractHash, TimestampUtc}
       else if kind == W(RESOLUTION) then {DecisionEventId}
       else {})
  }

  /** No lookup of the audit can fail on this event. */
  predicate Auditable(e: Event) { Indexed(KindOf(e)) <= e.Keys }

  predicate AllAuditable(es: seq<Event>) {
    forall i :: 0 <= i < |es| ==> Auditable(es[i])
  }

  // ---- The tables ------------------------------------------------------

  /** The decisions by id: in insertion order, and where each one stands. */
  ghost predicate DecisionTable(p: Platform, fs: seq<Fact>, n: nat, order: seq<nat>, at: map<Text, nat>)
    requires n <= |fs|
  {
    && order == Decisions(p, fs, n)
    && forall id :: DecisionFor(p, fs, n, id) == if id in at then Some(at[id]) else None
  }

  /** Events grouped by the decision they refer to; ids in order of first reference. */
  datatype Groups = Groups(ids: seq<Text>, rows: map<Text, seq<nat>>)

  function RowsOf(g: Groups, id: Text): seq<nat> {
    if id in g.rows then g.rows[id] else []
  }

  /** Python's `table.setdefault(id, []).append(row)`. */
  function Enter(g: Groups, id: Text, row: nat): Groups {
    Groups(if id in g.rows then g.ids else g.ids + [id], g.rows[id := RowsOf(g, id) + [row]])
  }

  ghost predicate LinkTable(p: Platform, fs: seq<Fact>, kind: Word, n: nat, g: Groups)
    requires n <= |fs|
  {
    && g.ids == Referred(p, fs, kind, n)
    && (forall id :: id in g.rows <==> id in g.ids)
    && forall id :: Linked(p, fs, kind, n, id) == RowsOf(g, id)
  }

  ghost predicate SeenTable(p: Platform, fs: seq<Fact>, n: nat, seen: set<Text>)
    requires n <= |fs|
  {
    forall id :: id in seen <==> exists i :: 0 <= i < n && p.show(fs[i].id) == id
  }

  lemma TablesStart(p: Platform, fs: seq<Fact>)
    ensures DecisionTable(p, fs, 0, [], map[])
    ensures LinkTable(p, fs, OUTCOME, 0, Groups([], map[])) && LinkTable(p, fs, RESOLUTION, 0, Groups([], map[]))
    ensures SeenTable(p, fs, 0, {}) && DuplicateIds(p, fs, 0) == []
  {
  }

  lemma DecisionEntered(p: Platform, fs: seq<Fact>, n: nat, order: seq<nat>, at: map<Text, nat>)
    requires n < |fs| && DecisionTable(p, fs, n, order, at)
    ensures var id := p.show(fs[n].id);
      if fs[n].kind == W(DECISION) && id !in at then DecisionTable(p, fs, n + 1, order + [n], at[id := n])
      else DecisionTable(p, fs, n + 1, order, at)
  {
    var id := p.show(fs[n].id);
    var added := IsDecision(fs[n]) && id !in at;
    var after := if added then at[id := n] else at;
    forall other ensures DecisionFor(p, fs, n + 1, other) == if other in after then Some(after[other]) else None {
      assert DecisionFor(p, fs, n, other) == if other in at then Some(at[other]) else None;
    }
    assert DecisionFor(p, fs, n, id) == if id in at then Some(at[id]) else None;
  }

  lemma RowsAfter(p: Platform, fs: seq<Fact>, kind: Word, n: nat, g: Groups, id: Text)
    requires n < |fs| && fs[n].kind == W(kind) && Linked(p, fs, kind, n, id) == RowsOf(g, id)
    ensures Linked(p, fs, kind, n + 1, id) == RowsOf(Enter(g, p.show(fs[n].ref), n), id)
  {
    assert Refers(p, fs[n], kind, id) <==> id == p.show(fs[n].ref);
  }

  lemma LinkEntered(p: Platform, fs: seq<Fact>, kind: Word, n: nat, g: Groups)
    requires n < |fs| && LinkTable(p, fs, kind, n, g)
    ensures fs[n].kind == W(kind) ==> LinkTable(p, fs, kind, n + 1, Enter(g, p.show(fs[n].ref), n))
    ensures fs[n].kind != W(kind) ==> LinkTable(p, fs, kind, n + 1, g)
  {
    hide RowsOf, Linked;
    if fs[n].kind == W(kind) {
      forall id ensures Linked(p, fs, kind, n + 1, id) == RowsOf(Enter(g, p.show(fs[n].ref), n), id) {
        RowsAfter(p, fs, kind, n, g, id);
      }
    } else {
      forall id ensures Linked(p, fs, kind, n + 1, id) == Linked(p, fs, kind, n, id) {
        LinkSkipped(p, fs, kind, n, id);
      }
    }
  }

  lemma LinkSkipped(p: Platform, fs: seq<Fact>, kind: Word, n: nat, id: Text)
    requires n < |fs| && fs[n].kind != W(kind)
    ensures Linked(p, fs, kind, n + 1, id) == Linked(p, fs, kind, n, id)
  {
  }

  lemma SeenEntered(p: Platform, fs: seq<Fact>, n: nat, seen: set<Text>)
    requires n < |fs| && SeenTable(p, fs, n, seen)
    ensures SeenTable(p, fs, n + 1, seen + {p.show(fs[n].id)})
    ensures DuplicateIds(p, fs, n + 1) ==
            DuplicateIds(p, fs, n)
            + if p.show(fs[n].id) in seen then [AuditIssue(DuplicateEventId, [], p.show(fs[n].id))] else []
  {
    assert p.show(fs[n].id) in seen <==> exists i :: 0 <= i < n && p.show(fs[i].id) == p.show(fs[n].id);
  }

  /** The linking loop. */
  method Link(p: Platform, es: seq<Event>)
    returns (issues: seq<AuditIssue>, order: seq<nat>, at: map<Text, nat>, outcomes: Groups, resolutions: Groups)
    requires AllAuditable(es)
    ensures issues == DuplicateIds(p, FactsOf(es), |es|)
    ensures DecisionTable(p, FactsOf(es), |es|, order, at)
    ensures LinkTable(p, FactsOf(es), OUTCOME, |es|, outcomes)
    ensures LinkTable(p, FactsOf(es), RESOLUTION, |es|, resolutions)
  {
    hide DecisionTable, LinkTable, SeenTable, Enter, FactsOf, DuplicateIds, Auditable, AllAuditable;
    ghost var fs := FactsOf(es);
    issues, order, at, outcomes, resolutions := [], [], map[], Groups([], map[]), Groups([], map[]);
    var seen: set<Text> := {};
    TablesStart(p, fs);
    for index := 0 to |es|
      invariant issues == DuplicateIds(p, fs, index)
      invariant SeenTable(p, fs, index, seen)
      invariant DecisionTable(p, fs, index, order, at)
      invariant LinkTable(p, fs, OUTCOME, index, outcomes)
      invariant LinkTable(p, fs, RESOLUTION, index, resolutions)
    {
      var event := es[index];
      Reads(es, index);
      SeenEntered(p, fs, index, seen);
      DecisionEntered(p, fs, index, order, at);
      LinkEntered(p, fs, OUTCOME, index, outcomes);
      LinkEntered(p, fs, RESOLUTION, index, resolutions);
      var id := p.show(event[EventId]);
      if id in seen {
        issues := issues + [AuditIssue(DuplicateEventId, [], id)];
      }
      seen := seen + {id};
      if event[EventType] == W(DECISION) {
        if id !in at {
          order, at := order + [index], at[id := index];
        }
      } else if event[EventType] == W(OUTCOME) {
        outcomes := Enter(outcomes, p.show(event[DecisionEventId]), index);
      } else if event[EventType] == W(RESOLUTION) {
        resolutions := Enter(resolutions, p.show(event[DecisionEventId]), index);
      }
    }
  }

  /** The lookups of the linking loop succeed and read the event's facts. */
  lemma Reads(es: seq<Event>, i: nat)
    requires AllAuditable(es) && i < |es|
    ensures var e, f := es[i], FactsOf(es)[i];
      && EventId in e && e[EventId] == f.id
      && EventType in e && e[EventType] == f.kind
      && (f.kind == W(OUTCOME) || f.kind == W(RESOLUTION) ==> DecisionEventId in e && e[DecisionEventId] == f.ref)
  {
    assert Auditable(es[i]);
  }

  // ---- Resolutions -----------------------------------------------------

  /** What the tables say about one decision id. */
  lemma TablesSay(p: Platform, fs: seq<Fact>, order: seq<nat>, at: map<Text, nat>, kind: Word, g: Groups, id: Text)
    requires DecisionTable(p, fs, |fs|, order, at) && LinkTable(p, fs, kind, |fs|, g)
    ensures DecisionFor(p, fs, |fs|, id) == if id in at then Some(at[id]) else None
    ensures Linked(p, fs, kind, |fs|, id) == RowsOf(g, id)
    ensures id in g.rows <==> id in g.ids
  {
  }

  method ReportOrphans(p: Platform, es: seq<Event>, rows: seq<nat>, code: AuditCode, id: Text) returns (issues: seq<AuditIssue>)
    requires AllAuditable(es) && forall k :: 0 <= k < |rows| ==> rows[k] < |es|
    ensures issues == Orphans(p, FactsOf(es), rows, code, id)
  {
    issues := [];
    for k := 0 to |rows|
      invariant issues == Orphans(p, FactsOf(es), rows, code, id)[..k]
    {
      Reads(es, rows[k]);
      issues := issues + [AuditIssue(code, [Str(id)], p.show(es[rows[k]][EventId]))];
    }
  }

  /** Collecting the values in a set and counting them finds a disagreement. */
  method MoreThanOneValue(p: Platform, es: seq<Event>, rows: seq<nat>) returns (disagree: bool)
    requires forall k :: 0 <= k < |rows| ==> rows[k] < |es|
    ensures disagree <==> Disagree(p, FactsOf(es), rows)
  {
    ghost var fs := FactsOf(es);
    var values: set<Text> := {};
    for k := 0 to |rows|
      invariant forall j :: 0 <= j < k ==> p.show(fs[rows[j]].resolution) in values
      invariant forall v :: v in values ==> exists j :: 0 <= j < k && p.show(fs[rows[j]].resolution) == v
    {
      values := values + {p.show(Get(es[rows[k]], ResolutionValue))};
    }
    disagree := |values| > 1;
    if rows != [] {
      MoreThanOne(values, p.show(fs[rows[0]].resolution));
    }
  }

  lemma MoreThanOne(values: set<Text>, one: Text)
    requires one in values
    ensures |values| > 1 <==> exists v :: v in values && v != one
  {
    if v :| v in values && v != one {
      assert values >= {one, v} && |{one, v}| == 2;
      assert |values| == |values - {one, v}| + 2;
    } else {
      assert values == {one};
    }
  }

  lemma EarlyStep(p: Platform, fs: seq<Fact>, rows: seq<nat>, d: nat, k: nat)
    requires k < |rows| && forall l :: 0 <= l < |rows| ==> rows[l] < |fs|
    ensures EarlyResolutions(p, fs, rows[..k + 1], d) ==
            EarlyResolutions(p, fs, rows[..k], d)
            + if rows[k] <= d then [AuditIssue(ResolutionBeforeDecision, [], p.show(fs[rows[k]].id))] else []
  {
    assert rows[..k + 1][..k] == rows[..k];
  }

  method ReportResolutions(p: Platform, es: seq<Event>, at: map<Text, nat>, rows: seq<nat>, id: Text)
    returns (issues: seq<AuditIssue>)
    requires AllAuditable(es) && rows == Linked(p, FactsOf(es), RESOLUTION, |es|, id)
    requires DecisionFor(p, FactsOf(es), |es|, id) == if id in at then Some(at[id]) else None
    ensures issues == ResolutionIssuesOf(p, FactsOf(es), id)
  {
    hide EarlyResolutions, Disagree, Linked, DecisionFor, AllAuditable, ResolutionIssuesOf, Orphans, FactsOf;
    ghost var fs := FactsOf(es);
    FactsCount(es);
    ResolutionIssuesUnfold(p, fs, rows, id);
    if id !in at {
      issues := ReportOrphans(p, es, rows, OrphanResolution, id);
    } else {
      var disagree := MoreThanOneValue(p, es, rows);
      issues := if disagree then [AuditIssue(ConflictingResolution, [], id)] else [];
      ghost var conflicts := issues;
      assert EarlyResolutions(p, fs, rows[..0], at[id]) == [] by { NoEarly(p, fs, at[id]); }
      for k := 0 to |rows|
        invariant issues == conflicts + EarlyResolutions(p, fs, rows[..k], at[id])
      {
        EarlyStep(p, fs, rows, at[id], k);
        Reads(es, rows[k]);
        if rows[k] <= at[id] {
          issues := issues + [AuditIssue(ResolutionBeforeDecision, [], p.show(es[rows[k]][EventId]))];
        }
      }
      assert rows[..|rows|] == rows;
    }
  }

  lemma FactsCount(es: seq<Event>)
    ensures |FactsOf(es)| == |es|
  {
  }

  lemma ResolutionIssuesUnfold(p: Platform, fs: seq<Fact>, rows: seq<nat>, id: Text)
    requires rows == Linked(p, fs, RESOLUTION, |fs|, id)
    ensures forall k :: 0 <= k < |rows| ==> rows[k] < |fs|
    ensures var d := DecisionFor(p, fs, |fs|, id);
      && (d.Some? ==> d.value < |fs|)
      && ResolutionIssuesOf(p, fs, id) ==
         if d.None? then Orphans(p, fs, rows, OrphanResolution, id)
         else WhenIssue(Disagree(p, fs, rows), AuditIssue(ConflictingResolution, [], id)) + EarlyResolutions(p, fs, rows, d.value)
  {
    hide EarlyResolutions, Disagree, Orphans;
  }

  lemma NoEarly(p: Platform, fs: seq<Fact>, d: nat)
    ensures EarlyResolutions(p, fs, [], d) == []
  {
  }

  method AuditResolutions(p: Platform, es: seq<Event>, ghost order: seq<nat>, at: map<Text, nat>, resolutions: Groups)
    returns (issues: seq<AuditIssue>)
    requires AllAuditable(es)
    requires DecisionTable(p, FactsOf(es), |es|, order, at)
    requires LinkTable(p, FactsOf(es), RESOLUTION, |es|, resolutions)
    ensures issues == ResolutionIssues(p, FactsOf(es), resolutions.ids)
  {
    hide DecisionTable, LinkTable, Linked, DecisionFor, ResolutionIssuesOf, FactsOf;
    var ids := resolutions.ids;
    issues := [];
    for k := 0 to |ids|
      invariant issues == ResolutionIssues(p, FactsOf(es), ids[..k])
    {
      TablesSay(p, FactsOf(es), order, at, RESOLUTION, resolutions, ids[k]);
      var more := ReportResolutions(p, es, at, resolutions.rows[ids[k]], ids[k]);
      issues := issues + more;
      assert ids[..k + 1][..k] == ids[..k];
    }
    assert ids[..|ids|] == ids;
  }

  // ---- Outcomes --------------------------------------------------------

  lemma OutcomeReads(p: Platform, es: seq<Event>, id: Text, row: nat, d: nat)
    requires AllAuditable(es) && row < |es| && d < |es|
    requires Refers(p, FactsOf(es)[row], OUTCOME, id) && IsDecision(FactsOf(es)[d])
    ensures Verdict in es[d] && {EventId, ActionId, ActionName, ContractHash} <= es[row].Keys
    ensures {ActionId, ActionName, ContractHash} <= es[d].Keys
  {
    assert Auditable(es[row]) && Auditable(es[d]);
    assert KindOf(es[row]) == W(OUTCOME) && KindOf(es[d]) == W(DECISION);
  }

  function NameOf(f: Field): string {
    match f
    case ActionId => "action_id"
    case ActionName => "action_name"
    case _ => "contract_hash"
  }

  function Mismatches(p: Platform, outcome: Fact, decision: Fact, k: nat): seq<AuditIssue> {
    (if k > 0 then MismatchIssue(p, outcome, outcome.actionId, decision.actionId, "action_id") else [])
    + (if k > 1 then MismatchIssue(p, outcome, outcome.actionName, decision.actionName, "action_name") else [])
    + (if k > 2 then MismatchIssue(p, outcome, outcome.contractHash, decision.contractHash, "contract_hash") else [])
  }

  method ReportMismatches(p: Platform, outcome: Event, decision: Event) returns (issues: seq<AuditIssue>)
    requires {EventId, ActionId, ActionName, ContractHash} <= outcome.Keys
    requires {ActionId, ActionName, ContractHash} <= decision.Keys
    ensures issues == Mismatches(p, FactOf(outcome), FactOf(decision), 3)
  {
    hide PyEq;
    var outcomeId := p.show(outcome[EventId]);
    issues := [];
    for k := 0 to 3
      invariant issues == Mismatches(p, FactOf(outcome), FactOf(decision), k)
    {
      var field := [ActionId, ActionName, ContractHash][k];
      if !PyEq(outcome[field], decision[field]) {
        issues := issues + [AuditIssue(OutcomeIdentityMismatch, [Str(Other(NameOf(field)))], outcomeId)];
      }
    }
  }

  lemma OutcomeIssueIs(p: Platform, fs: seq<Fact>, row: nat, d: nat)
    requires row < |fs| && d < |fs|
    ensures OutcomeIssue(p, fs, row, d) ==
            WhenIssue(row <= d, AuditIssue(OutcomeBeforeDecision, [], p.show(fs[row].id)))
            + WhenIssue(fs[d].verdict != W(ALLOWED), AuditIssue(OutcomeForDeniedDecision, [], p.show(fs[row].id)))
            + Mismatches(p, fs[row], fs[d], 3)
            + WhenIssue(fs[row].status != W(SUCCEEDED) && fs[row].status != W(FAILED),
                        AuditIssue(InvalidOutcomeStatus, [fs[row].status], p.show(fs[row].id)))
  {
    hide PyEq, MismatchIssue, WhenIssue;
  }

  /** An outcome that is what a call which ran under this decision would record. */
  predicate Consistent(fs: seq<Fact>, row: nat, d: nat)
    requires row < |fs| && d < |fs|
  {
    && d < row && fs[d].verdict == W(ALLOWED) && SameAction(fs[row], fs[d])
    && (fs[row].status == W(SUCCEEDED) || fs[row].status == W(FAILED))
  }

  predicate SameAction(a: Fact, b: Fact) {
    PyEq(a.actionId, b.actionId) && PyEq(a.actionName, b.actionName) && PyEq(a.contractHash, b.contractHash)
  }

  /** Each code of the issues of an outcome, exactly when it applies. */
  predicate Applies(fs: seq<Fact>, row: nat, d: nat, code: AuditCode)
    requires row < |fs| && d < |fs|
  {
    match code
    case OutcomeBeforeDecision => row <= d
    case OutcomeForDeniedDecision => fs[d].verdict != W(ALLOWED)
    case OutcomeIdentityMismatch => !SameAction(fs[row], fs[d])
    case InvalidOutcomeStatus => fs[row].status != W(SUCCEEDED) && fs[row].status != W(FAILED)
    case _ => false
  }

  predicate Names(issues: seq<AuditIssue>, code: AuditCode) {
    exists k :: 0 <= k < |issues| && issues[k].code == code
  }

  lemma NamesSum(a: seq<AuditIssue>, b: seq<AuditIssue>, code: AuditCode)
    ensures Names(a + b, code) <==> Names(a, code) || Names(b, code)
  {
    if Names(b, code) {
      var k :| 0 <= k < |b| && b[k].code == code;
      assert (a + b)[|a| + k].code == code;
    }
    if Names(a, code) {
      var k :| 0 <= k < |a| && a[k].code == code;
      assert (a + b)[k].code == code;
    }
  }

  lemma NamesWhen(c: bool, issue: AuditIssue, code: AuditCode)
    ensures Names(WhenIssue(c, issue), code) <==> c && issue.code == code
  {
    if c {
      assert WhenIssue(c, issue)[0] == issue;
    }
  }

  lemma MismatchesName(p: Platform, outcome: Fact, decision: Fact, code: AuditCode)
    ensures Names(Mismatches(p, outcome, decision, 3), code) <==> code == OutcomeIdentityMismatch && !SameAction(outcome, decision)
  {
    hide PyEq, Names;
    var a := MismatchIssue(p, outcome, outcome.actionId, decision.actionId, "action_id");
    var b := MismatchIssue(p, outcome, outcome.actionName, decision.actionName, "action_name");
    var c := MismatchIssue(p, outcome, outcome.contractHash, decision.contractHash, "contract_hash");
    NamesSum(a + b, c, code);
    NamesSum(a, b, code);
    NamesWhen(!PyEq(outcome.actionId, decision.actionId), AuditIssue(OutcomeIdentityMismatch, [Str(Other("action_id"))], p.show(outcome.id)), code);
    NamesWhen(!PyEq(outcome.actionName, decision.actionName),
              AuditIssue(OutcomeIdentityMismatch, [Str(Other("action_name"))], p.show(outcome.id)), code);
    NamesWhen(!PyEq(outcome.contractHash, decision.contractHash),
              AuditIssue(OutcomeIdentityMismatch, [Str(Other("contract_hash"))], p.show(outcome.id)), code);
  }

  /** An outcome is reported under a code exactly when it applies. */
  lemma ReportedExactly(p: Platform, fs: seq<Fact>, row: nat, d: nat, code: AuditCode)
    requires row < |fs| && d < |fs|
    ensures Names(OutcomeIssue(p, fs, row, d), code) <==> Applies(fs, row, d, code)
  {
    hide Names, Mismatches, SameAction, WhenIssue;
    var outcome, decision, id := fs[row], fs[d], p.show(fs[row].id);
    var before := AuditIssue(OutcomeBeforeDecision, [], id);
    var denied := AuditIssue(OutcomeForDeniedDecision, [], id);
    var odd := AuditIssue(InvalidOutcomeStatus, [outcome.status], id);
    var isOdd := outcome.status != W(SUCCEEDED) && outcome.status != W(FAILED);
    OutcomeIssueIs(p, fs, row, d);
    hide OutcomeIssue;
    NamesSum(WhenIssue(row <= d, before) + WhenIssue(decision.verdict != W(ALLOWED), denied) + Mismatches(p, outcome, decision, 3),
             WhenIssue(isOdd, odd), code);
    NamesSum(WhenIssue(row <= d, before) + WhenIssue(decision.verdict != W(ALLOWED), denied), Mismatches(p, outcome, decision, 3), code);
    NamesSum(WhenIssue(row <= d, before), WhenIssue(decision.verdict != W(ALLOWED), denied), code);
    NamesWhen(row <= d, before, code);
    NamesWhen(decision.verdict != W(ALLOWED), denied, code);
    NamesWhen(isOdd, odd, code);
    MismatchesName(p, outcome, decision, code);
  }

  /** Nothing is reported exactly of a consistent outcome. */
  lemma ConsistentIsSilent(p: Platform, fs: seq<Fact>, row: nat, d: nat)
    requires row < |fs| && d < |fs|
    ensures OutcomeIssue(p, fs, row, d) == [] <==> Consistent(fs, row, d)
  {
    hide OutcomeIssue, SameAction, PyEq;
    var issues := OutcomeIssue(p, fs, row, d);
    ReportedExactly(p, fs, row, d, OutcomeBeforeDecision);
    ReportedExactly(p, fs, row, d, OutcomeForDeniedDecision);
    ReportedExactly(p, fs, row, d, OutcomeIdentityMismatch);
    ReportedExactly(p, fs, row, d, InvalidOutcomeStatus);
    if issues != [] {
      ReportedExactly(p, fs, row, d, issues[0].code);
      assert Names(issues, issues[0].code);
    }
  }

  lemma OutcomeIssueMeans(p: Platform, fs: seq<Fact>, row: nat, d: nat)
    requires row < |fs| && d < |fs|
    ensures OutcomeIssue(p, fs, row, d) == [] <==> Consistent(fs, row, d)
    ensures forall code :: Names(OutcomeIssue(p, fs, row, d), code) <==> Applies(fs, row, d, code)
  {
    hide OutcomeIssue, Names, Applies, Consistent;
    ConsistentIsSilent(p, fs, row, d);
    forall code ensures Names(OutcomeIssue(p, fs, row, d), code) <==> Applies(fs, row, d, code) {
      ReportedExactly(p, fs, row, d, code);
    }
  }

  /** One linked outcome against its decision. */
  method ReportOutcome(p: Platform, es: seq<Event>, id: Text, row: nat, d: nat) returns (issues: seq<AuditIssue>)
    requires AllAuditable(es) && row < |es| && d < |es|
    requires Refers(p, FactsOf(es)[row], OUTCOME, id) && IsDecision(FactsOf(es)[d])
    ensures issues == [] <==> Consistent(FactsOf(es), row, d)
    ensures forall code :: Names(issues, code) <==> Applies(FactsOf(es), row, d, code)
    ensures issues == OutcomeIssue(p, FactsOf(es), row, d)
  {
    hide AllAuditable, Mismatches, OutcomeIssue, OutcomeIssues, Names, Applies, Consistent;
    OutcomeReads(p, es, id, row, d);
    OutcomeIssueIs(p, FactsOf(es), row, d);
    OutcomeIssueMeans(p, FactsOf(es), row, d);
    var outcome, decision := es[row], es[d];
    var outcomeId := p.show(outcome[EventId]);
    issues := [];
    if row <= d {
      issues := issues + [AuditIssue(OutcomeBeforeDecision, [], outcomeId)];
    }
    if decision[Verdict] != W(ALLOWED) {
      issues := issues + [AuditIssue(OutcomeForDeniedDecision, [], outcomeId)];
    }
    var mismatches := ReportMismatches(p, outcome, decision);
    issues := issues + mismatches;
    if Get(outcome, Status) != W(SUCCEEDED) && Get(outcome, Status) != W(FAILED) {
      issues := issues + [AuditIssue(InvalidOutcomeStatus, [Get(outcome, Status)], outcomeId)];
    }
    assert issues == OutcomeIssue(p, FactsOf(es), row, d);
  }

  lemma OutcomesStep(p: Platform, fs: seq<Fact>, rows: seq<nat>, d: nat, k: nat)
    requires k < |rows| && d < |fs| && forall l :: 0 <= l < |rows| ==> rows[l] < |fs|
    ensures OutcomeIssuesOn(p, fs, rows[..k + 1], d) == OutcomeIssuesOn(p, fs, rows[..k], d) + OutcomeIssue(p, fs, rows[k], d)
  {
    hide OutcomeIssue;
    assert rows[..k + 1][..k] == rows[..k];
  }

  lemma NoOutcomes(p: Platform, fs: seq<Fact>, d: nat)
    requires d < |fs|
    ensures OutcomeIssuesOn(p, fs, [], d) == []
  {
  }

  method ReportOutcomes(p: Platform, es: seq<Event>, at: map<Text, nat>, rows: seq<nat>, id: Text)
    returns (issues: seq<AuditIssue>)
    requires AllAuditable(es) && rows == Linked(p, FactsOf(es), OUTCOME, |es|, id)
    requires DecisionFor(p, FactsOf(es), |es|, id) == if id in at then Some(at[id]) else None
    ensures issues == OutcomeIssuesOf(p, FactsOf(es), id)
  {
    hide Linked, DecisionFor, OutcomeIssue, OutcomeIssuesOn, Refers, IsDecision, FactsOf, AllAuditable;
    ghost var fs := FactsOf(es);
    if id !in at {
      issues := ReportOrphans(p, es, rows, OrphanOutcome, id);
    } else {
      issues := if |rows| > 1 then [AuditIssue(DuplicateOutcome, [], id)] else [];
      ghost var duplicates := issues;
      NoOutcomes(p, fs, at[id]);
      for k := 0 to |rows|
        invariant issues == duplicates + OutcomeIssuesOn(p, fs, rows[..k], at[id])
      {
        OutcomesStep(p, fs, rows, at[id], k);
        var more := ReportOutcome(p, es, id, rows[k], at[id]);
        issues := issues + more;
      }
      assert rows[..|rows|] == rows;
    }
  }

  method AuditOutcomes(p: Platform, es: seq<Event>, ghost order: seq<nat>, at: map<Text, nat>, outcomes: Groups)
    returns (issues: seq<AuditIssue>)
    requires AllAuditable(es)
    requires DecisionTable(p, FactsOf(es), |es|, order, at)
    requires LinkTable(p, FactsOf(es), OUTCOME, |es|, outcomes)
    ensures issues == OutcomeIssues(p, FactsOf(es), outcomes.ids)
  {
    hide DecisionTable, LinkTable, Linked, DecisionFor, OutcomeIssuesOf, FactsOf;
    var ids := outcomes.ids;
    issues := [];
    for k := 0 to |ids|
      invariant issues == OutcomeIssues(p, FactsOf(es), ids[..k])
    {
      TablesSay(p, FactsOf(es), order, at, OUTCOME, outcomes, ids[k]);
      var more := ReportOutcomes(p, es, at, outcomes.rows[ids[k]], ids[k]);
      issues := issues + more;
      assert ids[..k + 1][..k] == ids[..k];
    }
    assert ids[..|ids|] == ids;
  }

  // ---- Invocations -----------------------------------------------------

  predicate Confirmed(resolution: Option<Text>) {
    resolution == Some(Known(CONFIRMED_COMPLETED)) || resolution == Some(Known(CONFIRMED_NOT_COMPLETED))
  }

  /** The classification: what each status takes, whatever the order of the branches.
      `outcome` is the status of the only outcome; several count as none. */
  method Classify(verdict: Json, dryRun: bool, linked: nat, outcome: Option<Json>, resolution: Option<Text>)
    returns (status: InvocationStatus, contradicted: bool)
    requires outcome.Some? <==> linked == 1
    ensures status == DeniedInvocation <==> verdict == W(DENIED) && linked == 0
    ensures status == DryRunInvocation <==> verdict == W(ALLOWED) && dryRun && linked != 1
    ensures status == SucceededInvocation <==> verdict == W(ALLOWED) && outcome == Some(W(SUCCEEDED)) && resolution.None?
    ensures status == FailedInvocation <==> verdict == W(ALLOWED) && outcome == Some(W(FAILED)) && !Confirmed(resolution)
    ensures status == ResolvedCompleted || status == ResolvedNotCompleted <==>
      verdict == W(ALLOWED) && Confirmed(resolution) && outcome != Some(W(SUCCEEDED)) && !(dryRun && linked != 1)
    ensures status == ResolvedCompleted ==> resolution == Some(Known(CONFIRMED_COMPLETED))
    ensures status == ResolvedNotCompleted ==> resolution == Some(Known(CONFIRMED_NOT_COMPLETED))
    ensures contradicted <==> verdict == W(ALLOWED) && outcome == Some(W(SUCCEEDED)) && resolution.Some?
    ensures contradicted ==> status == NeedsReconciliation
    ensures status == StatusFrom(verdict, dryRun, linked > 0, outcome, resolution)
  {
    contradicted := false;
    if dryRun && verdict == W(ALLOWED) && outcome.None? {
      status := DryRunInvocation;
    } else if verdict == W(DENIED) && linked == 0 {
      status := DeniedInvocation;
    } else if verdict == W(ALLOWED) && outcome.Some? && outcome.value == W(SUCCEEDED) && resolution.None? {
      status := SucceededInvocation;
    } else if verdict == W(ALLOWED) && outcome.Some? && outcome.value == W(SUCCEEDED) {
      contradicted := true;
      status := NeedsReconciliation;
    } else if verdict == W(ALLOWED) && resolution == Some(Known(CONFIRMED_COMPLETED)) {
      status := ResolvedCompleted;
    } else if verdict == W(ALLOWED) && resolution == Some(Known(CONFIRMED_NOT_COMPLETED)) {
      status := ResolvedNotCompleted;
    } else if verdict == W(ALLOWED) && outcome.Some? {
      status := if outcome.value == W(FAILED) then FailedInvocation else NeedsReconciliation;
    } else {
      status := NeedsReconciliation;
    }
  }

  /** The issues a decision raises before its key is considered. */
  function StandingIssues(p: Platform, fs: seq<Fact>, d: nat): seq<AuditIssue>
    requires d < |fs|
  {
    WhenIssue(fs[d].verdict != W(ALLOWED) && fs[d].verdict != W(DENIED), AuditIssue(InvalidDecision, [fs[d].verdict], p.show(fs[d].id)))
    + WhenIssue(Contradicted(fs[d].verdict, OutcomeStatus(p, fs, d), LastResolution(p, fs, d)),
                AuditIssue(ConflictingResolution, [], p.show(fs[d].id)))
  }

  lemma InvocationReads(es: seq<Event>, d: nat)
    requires AllAuditable(es) && d < |es| && IsDecision(FactsOf(es)[d])
    ensures {EventId, Verdict, ActionId, ActionName, ContractHash, InputHash, Risk, ApprovalMode, TimestampUtc} <= es[d].Keys
  {
    assert Auditable(es[d]) && KindOf(es[d]) == W(DECISION);
  }

  lemma LinkedOutcomeReads(p: Platform, es: seq<Event>, id: Text, row: nat)
    requires AllAuditable(es) && row < |es| && Refers(p, FactsOf(es)[row], OUTCOME, id)
    ensures {EventId, TimestampUtc} <= es[row].Keys
  {
    assert Auditable(es[row]) && KindOf(es[row]) == W(OUTCOME);
  }

  /** What the tables hold for decision `d`. */
  ghost predicate RowsFor(p: Platform, fs: seq<Fact>, d: nat, linked: seq<nat>, resolved: seq<nat>)
    requires d < |fs|
  {
    && linked == Linked(p, fs, OUTCOME, |fs|, p.show(fs[d].id))
    && resolved == Linked(p, fs, RESOLUTION, |fs|, p.show(fs[d].id))
  }

  /** The outcome and the resolution that decide a status. */
  method Evidenced(p: Platform, es: seq<Event>, d: nat, linked: seq<nat>, resolved: seq<nat>)
    returns (outcome: Option<nat>, outcomeStatus: Option<Json>, resolution: Option<Text>)
    requires d < |es| && RowsFor(p, FactsOf(es), d, linked, resolved)
    ensures outcome == SoleOutcome(p, FactsOf(es), d) && outcomeStatus == OutcomeStatus(p, FactsOf(es), d)
    ensures resolution == LastResolution(p, FactsOf(es), d)
    ensures outcome.Some? ==> |linked| == 1 && outcome.value == linked[0] < |es|
  {
    outcome := if |linked| == 1 then Some(linked[0]) else None;
    outcomeStatus := if outcome.Some? then Some(Get(es[outcome.value], Status)) else None;
    resolution := if resolved != [] then Some(p.show(Get(es[resolved[|resolved| - 1]], ResolutionValue))) else None;
  }

  method ReportInvocation(p: Platform, es: seq<Event>, d: nat, linked: seq<nat>, resolved: seq<nat>)
    returns (invocation: Invocation, issues: seq<AuditIssue>)
    requires AllAuditable(es) && d < |es| && IsDecision(FactsOf(es)[d])
    requires RowsFor(p, FactsOf(es), d, linked, resolved)
    ensures invocation == InvocationOf(p, FactsOf(es), d)
    ensures issues == StandingIssues(p, FactsOf(es), d)
  {
    InvocationReads(es, d);
    var outcome, outcomeStatus, resolution := Evidenced(p, es, d, linked, resolved);
    if outcome.Some? {
      LinkedOutcomeReads(p, es, p.show(FactsOf(es)[d].id), outcome.value);
    }
    hide Linked, AllAuditable, OutcomeStatus, LastResolution, StatusFrom, SoleOutcome, Contradicted;
    var decision := es[d];
    var verdict := decision[Verdict];
    issues := [];
    if verdict != W(ALLOWED) && verdict != W(DENIED) {
      issues := issues + [AuditIssue(InvalidDecision, [verdict], p.show(decision[EventId]))];
    }
    var status, contradicted := Classify(verdict, Get(decision, DryRun) == Bool(true), |linked|, outcomeStatus, resolution);
    if contradicted {
      issues := issues + [AuditIssue(ConflictingResolution, [], p.show(decision[EventId]))];
    }
    invocation := Invocation(
      p.show(decision[ActionName]), p.show(decision[ActionId]), p.show(decision[ContractHash]),
      p.show(decision[InputHash]), p.show(decision[Risk]), p.show(decision[ApprovalMode]),
      p.show(decision[EventId]), p.show(verdict), p.show(decision[TimestampUtc]),
      if outcome.Some? then Some(p.show(es[outcome.value][EventId])) else None,
      if outcome.Some? then Some(p.show(es[outcome.value][TimestampUtc])) else None,
      status);
  }

  /** The keys claimed by the first `k` decisions. */
  ghost predicate ClaimTable(p: Platform, fs: seq<Fact>, ds: seq<nat>, k: nat, seen: set<(Json, Json)>)
    requires k <= |ds| && forall l :: 0 <= l < |ds| ==> ds[l] < |fs|
  {
    forall m :: m in seen <==> exists l :: 0 <= l < k && Claims(p, fs, ds[l]) && Claim(fs[ds[l]]) == m
  }

  lemma ClaimEntered(p: Platform, fs: seq<Fact>, ds: seq<nat>, k: nat, seen: set<(Json, Json)>)
    requires k < |ds| && forall l :: 0 <= l < |ds| ==> ds[l] < |fs|
    requires ClaimTable(p, fs, ds, k, seen)
    ensures ClaimTable(p, fs, ds, k + 1, if Claims(p, fs, ds[k]) then seen + {Claim(fs[ds[k]])} else seen)
    ensures Claim(fs[ds[k]]) in seen <==> ClaimTaken(p, fs, ds, k)
  {
    hide Claims;
  }

  lemma InvocationStep(p: Platform, fs: seq<Fact>, ds: seq<nat>, k: nat)
    requires k < |ds| && forall l :: 0 <= l < |ds| ==> ds[l] < |fs|
    ensures InvocationIssues(p, fs, ds, k + 1) == InvocationIssues(p, fs, ds, k) + InvocationIssuesOf(p, fs, ds, k)
    ensures Invocations(p, fs, ds)[..k + 1] == Invocations(p, fs, ds)[..k] + [InvocationOf(p, fs, ds[k])]
  {
    hide InvocationIssuesOf, InvocationOf;
  }

  lemma IssuesOfOne(p: Platform, fs: seq<Fact>, ds: seq<nat>, k: nat)
    requires k < |ds| && forall l :: 0 <= l < |ds| ==> ds[l] < |fs|
    ensures InvocationIssuesOf(p, fs, ds, k) ==
            StandingIssues(p, fs, ds[k])
            + (if Claims(p, fs, ds[k]) && ClaimTaken(p, fs, ds, k)
               then [AuditIssue(DuplicateIdempotencyKey, [fs[ds[k]].actionName, fs[ds[k]].key], p.show(fs[ds[k]].id))] else [])
  {
    hide Claims, ClaimTaken, Contradicted, OutcomeStatus, LastResolution;
  }

  /** Whether an invocation claims its key can be read off the classification. */
  lemma ClaimsMeans(p: Platform, es: seq<Event>, d: nat)
    requires AllAuditable(es) && d < |es| && IsDecision(FactsOf(es)[d])
    ensures Claims(p, FactsOf(es), d) <==>
            && IsText(Get(es[d], IdempotencyKey)) && Get(es[d], IdempotencyKey).t != Other("")
            && InvocationOf(p, FactsOf(es), d).status == SucceededInvocation && IsText(Get(es[d], ActionName))
    ensures Claim(FactsOf(es)[d]) == (Get(es[d], ActionName), Get(es[d], IdempotencyKey))
  {
    hide StatusOf;
  }

  lemma RowsKnown(p: Platform, fs: seq<Fact>, outcomes: Groups, resolutions: Groups, d: nat)
    requires LinkTable(p, fs, OUTCOME, |fs|, outcomes) && LinkTable(p, fs, RESOLUTION, |fs|, resolutions) && d < |fs|
    ensures RowsFor(p, fs, d, RowsOf(outcomes, p.show(fs[d].id)), RowsOf(resolutions, p.show(fs[d].id)))
  {
  }

  lemma AuditedAreDecisions(p: Platform, fs: seq<Fact>, order: seq<nat>, at: map<Text, nat>)
    requires DecisionTable(p, fs, |fs|, order, at)
    ensures forall l :: 0 <= l < |order| ==> order[l] < |fs| && IsDecision(fs[order[l]])
  {
  }

  /** One decision of the classification loop. */
  method AuditInvocation(p: Platform, es: seq<Event>, order: seq<nat>, k: nat, outcomes: Groups, resolutions: Groups,
                         seen: set<(Json, Json)>)
    returns (invocation: Invocation, issues: seq<AuditIssue>, claimed: set<(Json, Json)>)
    requires AllAuditable(es) && k < |order|
    requires forall l :: 0 <= l < |order| ==> order[l] < |FactsOf(es)| && IsDecision(FactsOf(es)[order[l]])
    requires LinkTable(p, FactsOf(es), OUTCOME, |es|, outcomes)
    requires LinkTable(p, FactsOf(es), RESOLUTION, |es|, resolutions)
    requires ClaimTable(p, FactsOf(es), order, k, seen)
    ensures invocation == InvocationOf(p, FactsOf(es), order[k])
    ensures issues == InvocationIssuesOf(p, FactsOf(es), order, k)
    ensures ClaimTable(p, FactsOf(es), order, k + 1, claimed)
  {
    hide LinkTable, FactsOf, InvocationOf, InvocationIssuesOf, StandingIssues, ClaimTable,
         Claims, ClaimTaken, RowsFor, RowsOf, AllAuditable, Claim, IsDecision;
    ghost var fs := FactsOf(es);
    var d := order[k];
    InvocationReads(es, d);
    RowsKnown(p, fs, outcomes, resolutions, d);
    Reads(es, d);
    var id := p.show(es[d][EventId]);
    invocation, issues := ReportInvocation(p, es, d, RowsOf(outcomes, id), RowsOf(resolutions, id));
    ClaimsMeans(p, es, d);
    ClaimEntered(p, fs, order, k, seen);
    IssuesOfOne(p, fs, order, k);
    var key, action := Get(es[d], IdempotencyKey), Get(es[d], ActionName);
    claimed := seen;
    if IsText(key) && key.t != Other("") && invocation.status == SucceededInvocation && IsText(action) {
      if (action, key) in seen {
        issues := issues + [AuditIssue(DuplicateIdempotencyKey, [action, key], id)];
      }
      claimed := seen + {(action, key)};
    }
  }

  /** The classification loop over the decisions, in file order. */
  method AuditInvocations(p: Platform, es: seq<Event>, order: seq<nat>, ghost at: map<Text, nat>, outcomes: Groups, resolutions: Groups)
    returns (invocations: seq<Invocation>, issues: seq<AuditIssue>)
    requires AllAuditable(es)
    requires DecisionTable(p, FactsOf(es), |es|, order, at)
    requires LinkTable(p, FactsOf(es), OUTCOME, |es|, outcomes)
    requires LinkTable(p, FactsOf(es), RESOLUTION, |es|, resolutions)
    ensures forall l :: 0 <= l < |order| ==> order[l] < |es|
    ensures invocations == Invocations(p, FactsOf(es), order)
    ensures issues == InvocationIssues(p, FactsOf(es), order, |order|)
  {
    hide *;
    ghost var fs := FactsOf(es);
    AuditedAreDecisions(p, fs, order, at);
    invocations, issues := [], [];
    var seen: set<(Json, Json)> := {};
    LoopStarts(p, fs, order);
    for k := 0 to |order|
      invariant invocations == Invocations(p, fs, order)[..k]
      invariant issues == InvocationIssues(p, fs, order, k)
      invariant ClaimTable(p, fs, order, k, seen)
    {
      InvocationStep(p, fs, order, k);
      var invocation, more, claimed := AuditInvocation(p, es, order, k, outcomes, resolutions, seen);
      invocations, issues, seen := invocations + [invocation], issues + more, claimed;
    }
  }

  lemma LoopStarts(p: Platform, fs: seq<Fact>, ds: seq<nat>)
    requires forall l :: 0 <= l < |ds| ==> ds[l] < |fs|
    ensures InvocationIssues(p, fs, ds, 0) == [] && ClaimTable(p, fs, ds, 0, {})
  {
  }

  // ---- The audit -------------------------------------------------------

  datatype AuditResult = Refused(first: Option<Issue>) | TooLarge(size: nat) | BadLimit | Audited(report: Report)

  /** The audit of an in-memory snapshot. */
  method AuditVerifiedSnapshot(p: Platform, verification: Result, es: seq<Event>) returns (r: AuditResult)
    requires verification.valid ==> AllAuditable(es)
    ensures r == if verification.valid then Audited(AuditOf(p, FactsOf(es)))
                 else Refused(if verification.issues == [] then None else Some(verification.issues[0]))
  {
    hide *;
    if !verification.valid {
      return Refused(if verification.issues == [] then None else Some(verification.issues[0]));
    }
    var issues, order, at, outcomes, resolutions := Link(p, es);
    var resolutionIssues := AuditResolutions(p, es, order, at, resolutions);
    var outcomeIssues := AuditOutcomes(p, es, order, at, outcomes);
    var invocations, invocationIssues := AuditInvocations(p, es, order, at, outcomes, resolutions);
    Assembled(p, FactsOf(es), order, at, outcomes, resolutions);
    r := Audited(Report(invocations, issues + resolutionIssues + outcomeIssues + invocationIssues));
  }

  lemma Assembled(p: Platform, fs: seq<Fact>, order: seq<nat>, at: map<Text, nat>, outcomes: Groups, resolutions: Groups)
    requires DecisionTable(p, fs, |fs|, order, at)
    requires LinkTable(p, fs, OUTCOME, |fs|, outcomes) && LinkTable(p, fs, RESOLUTION, |fs|, resolutions)
    ensures forall l :: 0 <= l < |order| ==> order[l] < |fs|
    ensures AuditOf(p, fs) ==
            Report(Invocations(p, fs, order),
                   DuplicateIds(p, fs, |fs|) + ResolutionIssues(p, fs, resolutions.ids)
                   + OutcomeIssues(p, fs, outcomes.ids) + InvocationIssues(p, fs, order, |order|))
  {
    hide Linked, DecisionFor, Referred, DuplicateIds, ResolutionIssues, OutcomeIssues, InvocationIssues, Invocations;
  }

  // ---- Streaming -------------------------------------------------------

  /** What auditing a journal file comes to, whichever way its events are retained. */
  function AuditFile(p: Platform, trusted: Keyring, lines: seq<Line>, limit: Option<int>): AuditResult {
    if limit.Some? && limit.value < 1 then BadLimit
    else if limit.Some? && NonBlank(lines) > limit.value then TooLarge(NonBlank(lines))
    else
      var verification := Verify(p, trusted, lines, NoWitness);
      if verification.valid then Audited(AuditOf(p, FactsOf(Read(lines))))
      else Refused(if verification.issues == [] then None else Some(verification.issues[0]))
  }

  /** Verification guarantees every field the audit indexes. */
  lemma VerifiedIsAuditable(p: Platform, trusted: Keyring, lines: seq<Line>)
    requires Verify(p, trusted, lines, NoWitness).valid
    ensures AllAuditable(Read(lines))
  {
    ValidMeans(p, trusted, lines, NoWitness);
    var es := Read(lines);
    hide Read, VerifyEvent, Verify;
    forall i | 0 <= i < |es| ensures Auditable(es[i]) {
      assert CodesAt(p, trusted, es, i) == [];
      RequiredIfClean(p, trusted, es[i], Expected(es, i), CheckpointsBefore(es, i));
      assert Indexed(KindOf(es[i])) <= Required(KindOf(es[i]));
    }
  }

  lemma ProjectionKeepsFact(e: Event)
    ensures FactOf(Project(e, AUDIT_FIELDS)) == FactOf(e)
    ensures Auditable(Project(e, AUDIT_FIELDS))
  {
  }

  /** The projection keeps every fact the audit reads, null for null. */
  lemma {:induction false} ProjectionKeepsFacts(es: seq<Event>)
    ensures |Retained(Only(AUDIT_FIELDS), es)| == |es|
    ensures FactsOf(Retained(Only(AUDIT_FIELDS), es)) == FactsOf(es)
    ensures AllAuditable(Retained(Only(AUDIT_FIELDS), es))
  {
    hide FactOf, Auditable, Project;
    if es != [] {
      var last := es[|es| - 1];
      ProjectionKeepsFacts(es[..|es| - 1]);
      ProjectionKeepsFact(last);
      assert FactsOf(es) == FactsOf(es[..|es| - 1]) + [FactOf(last)];
    }
  }

  /** Auditing what streaming retains of a verified journal reports the same
      invocations, statuses and issues, in the same order; no lookup fails either way. */
  lemma StreamingEqualsFull(p: Platform, trusted: Keyring, lines: seq<Line>)
    requires Verify(p, trusted, lines, NoWitness).valid
    ensures AllAuditable(Read(lines)) && AllAuditable(Retained(Only(AUDIT_FIELDS), Read(lines)))
    ensures AuditOf(p, FactsOf(Retained(Only(AUDIT_FIELDS), Read(lines)))) == AuditOf(p, FactsOf(Read(lines)))
  {
    hide Verify, AuditOf, Read, Retained, AllAuditable, FactsOf;
    VerifiedIsAuditable(p, trusted, lines);
    ProjectionKeepsFacts(Read(lines));
  }

  lemma {:induction false} WholeKeepsAll(es: seq<Event>)
    ensures Retained(Whole, es) == es
  {
    if es != [] {
      WholeKeepsAll(es[..|es| - 1]);
      assert es == es[..|es| - 1] + [es[|es| - 1]];
    }
  }

  /** Streaming retains projected events, the full audit whole ones; the report,
      and every refusal, is the same. No lookup fails on either. */
  method AuditJournal(p: Platform, trusted: Keyring, lines: seq<Line>, limit: Option<int>, streaming: bool)
    returns (r: AuditResult)
    ensures r == AuditFile(p, trusted, lines, limit)
    ensures r.BadLimit? <==> limit.Some? && limit.value < 1
    ensures r.TooLarge? <==> limit.Some? && 1 <= limit.value < NonBlank(lines)
    ensures r.TooLarge? ==> r.size == NonBlank(lines)
    ensures r.Audited? ==> Verify(p, trusted, lines, NoWitness).valid && r.report == AuditOf(p, FactsOf(Read(lines)))
    ensures r.Refused? ==>
      var verdict := Verify(p, trusted, lines, NoWitness);
      !verdict.valid && (r.first.Some? <==> verdict.issues != []) && (r.first.Some? ==> r.first.value == verdict.issues[0])
  {
    hide Verify, AuditOf, Read, Retained, AllAuditable, FactsOf, NonBlank;
    if limit.Some? {
      if limit.value < 1 {
        return BadLimit;
      }
      var size := CountLines(lines);
      if size > limit.value {
        return TooLarge(size);
      }
    }
    var verification, events := ReadAndVerify(p, trusted, lines, NoWitness, if streaming then Only(AUDIT_FIELDS) else Whole);
    if verification.valid {
      VerifiedIsAuditable(p, trusted, lines);
      ProjectionKeepsFacts(Read(lines));
      WholeKeepsAll(Read(lines));
    }
    r := AuditVerifiedSnapshot(p, verification, events);
  }
}
