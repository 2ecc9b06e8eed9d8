/** The operational audit: what happened to each decided invocation, and what in
    the journal does not fit together. */
module Audit {
  import opened Evidence
  import opened Facts

  datatype AuditCode =
    | DuplicateEventId
    | OrphanResolution | ConflictingResolution | ResolutionBeforeDecision
    | OrphanOutcome | DuplicateOutcome | OutcomeBeforeDecision | OutcomeForDeniedDecision
    | OutcomeIdentityMismatch | InvalidOutcomeStatus
    | InvalidDecision | DuplicateIdempotencyKey

  /** An issue, the values its message quotes, and the event it is about. */
  datatype AuditIssue = AuditIssue(code: AuditCode, quoted: seq<Json>, eventId: Text)

  datatype InvocationStatus =
    | DeniedInvocation | SucceededInvocation | FailedInvocation | NeedsReconciliation
    | DryRunInvocation | ResolvedCompleted | ResolvedNotCompleted

  datatype Invocation = Invocation(
    actionName: Text, actionId: Text, contractHash: Text, inputHash: Text, risk: Text, approvalMode: Text,
    decisionId: Text, verdict: Text, decisionTime: Text,
    outcomeId: Option<Text>, outcomeTime: Option<Text>, status: InvocationStatus)

  datatype Report = Report(invocations: seq<Invocation>, issues: seq<AuditIssue>)

  function WhenIssue(condition: bool, issue: AuditIssue): seq<AuditIssue> {
    if condition then [issue] else []
  }

  // ---- How events are linked -------------------------------------------

  /** The first decision recorded under `id`, among the first `n` events. */
  function DecisionFor(p: Platform, fs: seq<Fact>, n: nat, id: Text): (d: Option<nat>)
    requires n <= |fs|
    ensures d.Some? ==> d.value < n && IsDecision(fs[d.value]) && p.show(fs[d.value].id) == id
    ensures forall i :: 0 <= i < (if d.Some? then d.value else n) && IsDecision(fs[i]) ==> p.show(fs[i].id) != id
  {
    if n == 0 then None
    else
      var earlier := DecisionFor(p, fs, n - 1, id);
      if earlier.Some? then earlier
      else if IsDecision(fs[n - 1]) && p.show(fs[n - 1].id) == id then Some(n - 1)
      else None
  }

  /** The audited decisions, in file order. */
  function Decisions(p: Platform, fs: seq<Fact>, n: nat): (ds: seq<nat>)
    requires n <= |fs|
    ensures forall k :: 0 <= k < |ds| ==> ds[k] < n && IsDecision(fs[ds[k]])
  {
    if n == 0 then []
    else if IsDecision(fs[n - 1]) && DecisionFor(p, fs, n - 1, p.show(fs[n - 1].id)).None? then
      Decisions(p, fs, n - 1) + [n - 1]
    else Decisions(p, fs, n - 1)
  }

  predicate Refers(p: Platform, f: Fact, kind: Word, id: Text) {
    f.kind == W(kind) && p.show(f.ref) == id
  }

  /** The events of one kind that refer to `id`, in file order. */
  function Linked(p: Platform, fs: seq<Fact>, kind: Word, n: nat, id: Text): (rows: seq<nat>)
    requires n <= |fs|
    ensures forall k :: 0 <= k < |rows| ==> rows[k] < n && Refers(p, fs[rows[k]], kind, id)
    ensures forall k, l :: 0 <= k < l < |rows| ==> rows[k] < rows[l]
    ensures forall i :: 0 <= i < n && Refers(p, fs[i], kind, id) ==> i in rows
  {
    if n == 0 then []
    else if Refers(p, fs[n - 1], kind, id) then Linked(p, fs, kind, n - 1, id) + [n - 1]
    else Linked(p, fs, kind, n - 1, id)
  }

  predicate ReferredBefore(p: Platform, fs: seq<Fact>, kind: Word, n: nat, id: Text)
    requires n <= |fs|
  {
    exists i :: 0 <= i < n && Refers(p, fs[i], kind, id)
  }

  /** The ids referred to by events of one kind, in the order they first appear. */
  function Referred(p: Platform, fs: seq<Fact>, kind: Word, n: nat): (ids: seq<Text>)
    requires n <= |fs|
    ensures forall id :: id in ids <==> ReferredBefore(p, fs, kind, n, id)
  {
    if n == 0 then []
    else
      var before := Referred(p, fs, kind, n - 1);
      assert forall id :: ReferredBefore(p, fs, kind, n, id) <==>
        Refers(p, fs[n - 1], kind, id) || ReferredBefore(p, fs, kind, n - 1, id);
      if fs[n - 1].kind == W(kind) && p.show(fs[n - 1].ref) !in before then before + [p.show(fs[n - 1].ref)] else before
  }

  // ---- Issues ----------------------------------------------------------

  predicate IdSeen(p: Platform, fs: seq<Fact>, n: nat)
    requires n < |fs|
  {
    exists i :: 0 <= i < n && p.show(fs[i].id) == p.show(fs[n].id)
  }

  function DuplicateIds(p: Platform, fs: seq<Fact>, n: nat): seq<AuditIssue>
    requires n <= |fs|
  {
    if n == 0 then []
    else
      DuplicateIds(p, fs, n - 1)
      + WhenIssue(IdSeen(p, fs, n - 1), AuditIssue(DuplicateEventId, [], p.show(fs[n - 1].id)))
  }

  /** One issue per linked event. */
  function Orphans(p: Platform, fs: seq<Fact>, rows: seq<nat>, code: AuditCode, id: Text): seq<AuditIssue>
    requires forall k :: 0 <= k < |rows| ==> rows[k] < |fs|
  {
    seq(|rows|, k requires 0 <= k < |rows| => AuditIssue(code, [Str(id)], p.show(fs[rows[k]].id)))
  }

  predicate Disagree(p: Platform, fs: seq<Fact>, rows: seq<nat>)
    requires forall k :: 0 <= k < |rows| ==> rows[k] < |fs|
  {
    exists k :: 0 <= k < |rows| && p.show(fs[rows[k]].resolution) != p.show(fs[rows[0]].resolution)
  }

  function EarlyResolutions(p: Platform, fs: seq<Fact>, rows: seq<nat>, d: nat): seq<AuditIssue>
    requires forall k :: 0 <= k < |rows| ==> rows[k] < |fs|
  {
    if rows == [] then []
    else
      EarlyResolutions(p, fs, rows[..|rows| - 1], d)
      + WhenIssue(rows[|rows| - 1] <= d, AuditIssue(ResolutionBeforeDecision, [], p.show(fs[rows[|rows| - 1]].id)))
  }

  function ResolutionIssuesOf(p: Platform, fs: seq<Fact>, id: Text): seq<AuditIssue> {
    var rows, d := Linked(p, fs, RESOLUTION, |fs|, id), DecisionFor(p, fs, |fs|, id);
    if d.None? then Orphans(p, fs, rows, OrphanResolution, id)
    else WhenIssue(Disagree(p, fs, rows), AuditIssue(ConflictingResolution, [], id)) + EarlyResolutions(p, fs, rows, d.value)
  }

  function MismatchIssue(p: Platform, outcome: Fact, a: Json, b: Json, name: string): seq<AuditIssue> {
    WhenIssue(!PyEq(a, b), AuditIssue(OutcomeIdentityMismatch, [Str(Other(name))], p.show(outcome.id)))
  }

  /** What is wrong with one outcome of decision `d`. */
  function OutcomeIssue(p: Platform, fs: seq<Fact>, row: nat, d: nat): seq<AuditIssue>
    requires row < |fs| && d < |fs|
  {
    var outcome, decision := fs[row], fs[d];
    WhenIssue(row <= d, AuditIssue(OutcomeBeforeDecision, [], p.show(outcome.id)))
    + WhenIssue(decision.verdict != W(ALLOWED), AuditIssue(OutcomeForDeniedDecision, [], p.show(outcome.id)))
    + MismatchIssue(p, outcome, outcome.actionId, decision.actionId, "action_id")
    + MismatchIssue(p, outcome, outcome.actionName, decision.actionName, "action_name")
    + MismatchIssue(p, outcome, outcome.contractHash, decision.contractHash, "contract_hash")
    + WhenIssue(outcome.status != W(SUCCEEDED) && outcome.status != W(FAILED),
                AuditIssue(InvalidOutcomeStatus, [outcome.status], p.show(outcome.id)))
  }

  function OutcomeIssuesOn(p: Platform, fs: seq<Fact>, rows: seq<nat>, d: nat): seq<AuditIssue>
    requires d < |fs| && forall k :: 0 <= k < |rows| ==> rows[k] < |fs|
  {
    if rows == [] then []
    else OutcomeIssuesOn(p, fs, rows[..|rows| - 1], d) + OutcomeIssue(p, fs, rows[|rows| - 1], d)
  }

  function OutcomeIssuesOf(p: Platform, fs: seq<Fact>, id: Text): seq<AuditIssue> {
    var rows, d := Linked(p, fs, OUTCOME, |fs|, id), DecisionFor(p, fs, |fs|, id);
    if d.None? then Orphans(p, fs, rows, OrphanOutcome, id)
    else WhenIssue(|rows| > 1, AuditIssue(DuplicateOutcome, [], id)) + OutcomeIssuesOn(p, fs, rows, d.value)
  }

  function ResolutionIssues(p: Platform, fs: seq<Fact>, ids: seq<Text>): seq<AuditIssue> {
    if ids == [] then [] else ResolutionIssues(p, fs, ids[..|ids| - 1]) + ResolutionIssuesOf(p, fs, ids[|ids| - 1])
  }

  function OutcomeIssues(p: Platform, fs: seq<Fact>, ids: seq<Text>): seq<AuditIssue> {
    if ids == [] then [] else OutcomeIssues(p, fs, ids[..|ids| - 1]) + OutcomeIssuesOf(p, fs, ids[|ids| - 1])
  }

  // ---- Invocations -----------------------------------------------------

  /** The outcome an invocation is judged by: the only one linked to it. */
  function SoleOutcome(p: Platform, fs: seq<Fact>, d: nat): (o: Option<nat>)
    requires d < |fs|
    ensures o.Some? ==> o.value < |fs|
  {
    var rows := Linked(p, fs, OUTCOME, |fs|, p.show(fs[d].id));
    if |rows| == 1 then Some(rows[0]) else None
  }

  /** The latest resolution wins. */
  function LastResolution(p: Platform, fs: seq<Fact>, d: nat): Option<Text>
    requires d < |fs|
  {
    var rows := Linked(p, fs, RESOLUTION, |fs|, p.show(fs[d].id));
    if rows == [] then None else Some(p.show(fs[rows[|rows| - 1]].resolution))
  }

  function StatusFrom(verdict: Json, dryRun: bool, anyOutcome: bool, outcome: Option<Json>, resolution: Option<Text>): InvocationStatus {
    if dryRun && verdict == W(ALLOWED) && outcome.None? then DryRunInvocation
    else if verdict == W(DENIED) && !anyOutcome then DeniedInvocation
    else if verdict == W(ALLOWED) && outcome == Some(W(SUCCEEDED)) && resolution.None? then SucceededInvocation
    else if verdict == W(ALLOWED) && outcome == Some(W(SUCCEEDED)) then NeedsReconciliation
    else if verdict == W(ALLOWED) && resolution == Some(Known(CONFIRMED_COMPLETED)) then ResolvedCompleted
    else if verdict == W(ALLOWED) && resolution == Some(Known(CONFIRMED_NOT_COMPLETED)) then ResolvedNotCompleted
    else if verdict == W(ALLOWED) && outcome == Some(W(FAILED)) then FailedInvocation
    else NeedsReconciliation
  }

  predicate Contradicted(verdict: Json, outcome: Option<Json>, resolution: Option<Text>) {
    verdict == W(ALLOWED) && outcome == Some(W(SUCCEEDED)) && resolution.Some?
  }

  function OutcomeStatus(p: Platform, fs: seq<Fact>, d: nat): Option<Json>
    requires d < |fs|
  {
    var o := SoleOutcome(p, fs, d);
    if o.Some? then Some(fs[o.value].status) else None
  }

  function StatusOf(p: Platform, fs: seq<Fact>, d: nat): InvocationStatus
    requires d < |fs|
  {
    StatusFrom(fs[d].verdict, fs[d].dryRun == Bool(true),
               Linked(p, fs, OUTCOME, |fs|, p.show(fs[d].id)) != [],
               OutcomeStatus(p, fs, d), LastResolution(p, fs, d))
  }

  /** A succeeded invocation claims its action and key. */
  predicate Claims(p: Platform, fs: seq<Fact>, d: nat)
    requires d < |fs|
  {
    IsText(fs[d].key) && fs[d].key.t != Other("") && StatusOf(p, fs, d) == SucceededInvocation && IsText(fs[d].actionName)
  }

  function Claim(f: Fact): (Json, Json) { (f.actionName, f.key) }

  predicate ClaimTaken(p: Platform, fs: seq<Fact>, ds: seq<nat>, k: nat)
    requires k < |ds| && forall l :: 0 <= l < |ds| ==> ds[l] < |fs|
  {
    exists l :: 0 <= l < k && Claims(p, fs, ds[l]) && Claim(fs[ds[l]]) == Claim(fs[ds[k]])
  }

  function InvocationIssuesOf(p: Platform, fs: seq<Fact>, ds: seq<nat>, k: nat): seq<AuditIssue>
    requires k < |ds| && forall l :: 0 <= l < |ds| ==> ds[l] < |fs|
  {
    var f, id := fs[ds[k]], p.show(fs[ds[k]].id);
    WhenIssue(f.verdict != W(ALLOWED) && f.verdict != W(DENIED), AuditIssue(InvalidDecision, [f.verdict], id))
    + WhenIssue(Contradicted(f.verdict, OutcomeStatus(p, fs, ds[k]), LastResolution(p, fs, ds[k])),
                AuditIssue(ConflictingResolution, [], id))
    + WhenIssue(Claims(p, fs, ds[k]) && ClaimTaken(p, fs, ds, k), AuditIssue(DuplicateIdempotencyKey, [f.actionName, f.key], id))
  }

  function InvocationIssues(p: Platform, fs: seq<Fact>, ds: seq<nat>, n: nat): seq<AuditIssue>
    requires n <= |ds| && forall l :: 0 <= l < |ds| ==> ds[l] < |fs|
  {
    if n == 0 then [] else InvocationIssues(p, fs, ds, n - 1) + InvocationIssuesOf(p, fs, ds, n - 1)
  }

  function InvocationOf(p: Platform, fs: seq<Fact>, d: nat): Invocation
    requires d < |fs|
  {
    var f, o := fs[d], SoleOutcome(p, fs, d);
    Invocation(
      p.show(f.actionName), p.show(f.actionId), p.show(f.contractHash), p.show(f.inputHash), p.show(f.risk), p.show(f.mode),
      p.show(f.id), p.show(f.verdict), p.show(f.time),
      if o.Some? then Some(p.show(fs[o.value].id)) else None,
      if o.Some? then Some(p.show(fs[o.value].time)) else None,
      StatusOf(p, fs, d))
  }

  function Invocations(p: Platform, fs: seq<Fact>, ds: seq<nat>): (all: seq<Invocation>)
    requires forall l :: 0 <= l < |ds| ==> ds[l] < |fs|
    ensures |all| == |ds| && forall k :: 0 <= k < |ds| ==> all[k] == InvocationOf(p, fs, ds[k])
  {
    seq(|ds|, k requires 0 <= k < |ds| => InvocationOf(p, fs, ds[k]))
  }

  /** The audit of a verified journal, given the facts of its events. */
  function AuditOf(p: Platform, fs: seq<Fact>): Report {
    var n := |fs|;
    var ds := Decisions(p, fs, n);
    Report(Invocations(p, fs, ds),
           DuplicateIds(p, fs, n)
           + ResolutionIssues(p, fs, Referred(p, fs, RESOLUTION, n))
           + OutcomeIssues(p, fs, Referred(p, fs, OUTCOME, n))
           + InvocationIssues(p, fs, ds, |ds|))
  }
}
