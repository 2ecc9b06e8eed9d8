/** The reservation protocol: any number of guarded calls, in any processes, racing
    on one journal file, with crashes anywhere and operator resolutions at any time.

    Every step below is one critical section under the journal's file lock, or a
    step of a single call that touches no shared file. */
module Reservation {
  import opened Evidence
  import opened Writer
  import opened Facts
  import opened Recorded

  datatype Spec = Spec(contract: Contract, key: Option<Text>, dryRun: bool, process: nat)

  datatype Phase =
    | Preparing               // bound and hashed; nothing decided
    | Approved(allowed: bool) // the provider answered; nothing recorded
    | Executing               // the allowed decision is durable and the callable runs
    | Returned(ok: bool)      // the callable ended; its outcome is not recorded
    | Recorded                // the succeeded outcome is durable; completion not yet marked
    | Over                    // returned, raised, crashed or was killed

  /** What really happened to a call. */
  datatype Fate = Undecided | WasDenied | WasDryRun | NoOutcome | DidSucceed | DidFail

  datatype Call = Call(spec: Spec, phase: Phase, decision: Option<nat>, fate: Fate)

  type Pair = (Text, Text)

  /** `completed` is each process's capped memory of keys it saw complete. */
  datatype State = State(journal: seq<Event>, calls: map<nat, Call>, completed: map<nat, seq<Pair>>)

  const COMPLETED_MAX := 8192

  datatype Step =
    | Begin(c: nat, spec: Spec)
    | Notice(c: nat)
    | PreCheckDenies(c: nat, e: Event, entry: Entry)
    | Approve(c: nat, allowed: bool)
    | Decide(c: nat, e: Event, entry: Entry)
    | Return(c: nat, ok: bool)
    | RecordOutcome(c: nat, e: Event, entry: Entry)
    | MarkCompleted(c: nat)
    | Stop(c: nat)
    | Resolve(d: nat, e: Event, entry: Entry)
    | Maintain(e: Event, entry: Entry)

  function CompletedBy(s: State, process: nat): seq<Pair> {
    if process in s.completed then s.completed[process] else []
  }

  /** Remembers a pair; past the cap the oldest one is forgotten. */
  function Remember(memory: seq<Pair>, pair: Pair): (after: seq<Pair>)
    ensures pair in after && forall x :: x in after ==> x in memory || x == pair
    ensures pair in memory ==> after == memory
    ensures pair !in memory && |memory| < COMPLETED_MAX ==> after == memory + [pair]
    ensures pair !in memory && |memory| >= COMPLETED_MAX ==>
      |after| == COMPLETED_MAX && exists k: nat :: k <= |memory| && after == memory[k..] + [pair]
  {
    if pair in memory then memory
    else if |memory| < COMPLETED_MAX then memory + [pair]
    else memory[|memory| + 1 - COMPLETED_MAX..] + [pair]
  }

  function Marked(s: State, spec: Spec): map<nat, seq<Pair>>
    requires spec.key.Some?
  {
    s.completed[spec.process := Remember(CompletedBy(s, spec.process), (spec.contract.actionName, spec.key.value))]
  }

  /** Some allowed decision with this action and key has a succeeded outcome. */
  predicate CompletedIn(fs: seq<Fact>, pair: Pair) {
    exists i :: 0 <= i < |fs| && Completes(fs, |fs|, i, pair.0, pair.1)
  }

  /** The check made under the file lock: a blocking prior, or a key this process saw complete. */
  predicate IsDuplicate(p: Platform, s: State, spec: Spec) {
    && spec.key.Some?
    && (BlockingPrior(p, FactsOf(s.journal), |s.journal|, spec.contract.actionName, spec.key.value).Some?
        || (spec.contract.actionName, spec.key.value) in CompletedBy(s, spec.process))
  }

  predicate DecisionEntry(entry: Entry, spec: Spec, allowed: bool, dryRun: bool) {
    && entry.body.DecisionBody? && entry.body.contract == spec.contract && entry.body.key == spec.key
    && entry.body.allowed == allowed && entry.body.dryRun == dryRun
  }

  function Decided(call: Call, at: nat, allowed: bool, dryRun: bool): Call {
    if !allowed then call.(phase := Over, decision := Some(at), fate := WasDenied)
    else if dryRun then call.(phase := Over, decision := Some(at), fate := WasDryRun)
    else call.(phase := Executing, decision := Some(at), fate := NoOutcome)
  }

  function CallAfter(p: Platform, s: State, step: Step): Call
    requires step.Decide? && step.c in s.calls && s.calls[step.c].phase.Approved?
  {
    var call := s.calls[step.c];
    if IsDuplicate(p, s, call.spec) then Decided(call, |s.journal|, false, false)
    else Decided(call, |s.journal|, call.phase.allowed, call.spec.dryRun)
  }

  /** One step of the system. */
  predicate Next(p: Platform, trusted: set<Text>, s: State, step: Step, s': State) {
    match step
    case Begin(c, spec) =>
      c !in s.calls && spec.key != Some(Other("")) && s' == s.(calls := s.calls[c := Call(spec, Preparing, None, Undecided)])
    case Notice(c) =>
      // The unlocked pre-check saw the key completed and remembers that.
      && c in s.calls && s.calls[c].phase.Preparing? && s.calls[c].spec.key.Some?
      && CompletedIn(FactsOf(s.journal), (s.calls[c].spec.contract.actionName, s.calls[c].spec.key.value))
      && s' == s.(completed := Marked(s, s.calls[c].spec))
    case PreCheckDenies(c, e, entry) =>
      // The unlocked pre-check is best-effort: it may deny, and never allows.
      && c in s.calls && s.calls[c].phase.Preparing? && s.calls[c].spec.key.Some?
      && WrittenAs(p, trusted, s.journal, e, entry) && DecisionEntry(entry, s.calls[c].spec, false, false)
      && s' == s.(journal := s.journal + [e], calls := s.calls[c := Decided(s.calls[c], |s.journal|, false, false)])
    case Approve(c, allowed) =>
      && c in s.calls && s.calls[c].phase.Preparing?
      && s' == s.(calls := s.calls[c := s.calls[c].(phase := Approved(allowed))])
    case Decide(c, e, entry) =>
      && c in s.calls && s.calls[c].phase.Approved?
      && WrittenAs(p, trusted, s.journal, e, entry)
      && (if IsDuplicate(p, s, s.calls[c].spec) then DecisionEntry(entry, s.calls[c].spec, false, false)
          else DecisionEntry(entry, s.calls[c].spec, s.calls[c].phase.allowed, s.calls[c].spec.dryRun))
      && s' == s.(journal := s.journal + [e], calls := s.calls[c := CallAfter(p, s, step)])
    case Return(c, ok) =>
      && c in s.calls && s.calls[c].phase.Executing?
      && s' == s.(calls := s.calls[c := s.calls[c].(phase := Returned(ok))])
    case RecordOutcome(c, e, entry) =>
      && c in s.calls && s.calls[c].phase.Returned? && s.calls[c].decision.Some? && s.calls[c].decision.value < |s.journal|
      && WrittenAs(p, trusted, s.journal, e, entry) && entry.body.OutcomeBody?
      && entry.body.contract == s.calls[c].spec.contract
      && Get(s.journal[s.calls[c].decision.value], EventId) == Str(entry.body.decisionId)
      && entry.body.succeeded == s.calls[c].phase.ok
      && s' == s.(journal := s.journal + [e],
                  calls := s.calls[c := s.calls[c].(
                    phase := if s.calls[c].phase.ok then Recorded else Over,
                    fate := if s.calls[c].phase.ok then DidSucceed else DidFail)])
    case MarkCompleted(c) =>
      && c in s.calls && s.calls[c].phase.Recorded?
      && s' == s.(calls := s.calls[c := s.calls[c].(phase := Over)],
                  completed := if s.calls[c].spec.key.Some? then Marked(s, s.calls[c].spec) else s.completed)
    case Stop(c) =>
      c in s.calls && s' == s.(calls := s.calls[c := s.calls[c].(phase := Over)])
    case Resolve(d, e, entry) =>
      && d < |s.journal| && Resolvable(FactOf(s.journal[d]))
      && WrittenAs(p, trusted, s.journal, e, entry) && entry.body.ResolutionBody?
      && Get(s.journal[d], EventId) == Str(entry.body.decisionId)
      && s' == s.(journal := s.journal + [e])
    case Maintain(e, entry) =>
      && WrittenAs(p, trusted, s.journal, e, entry)
      && (entry.body.CheckpointBody? || entry.body.CountersignatureBody? || entry.body.RotationBody?)
      && s' == s.(journal := s.journal + [e])
  }

  /** What the operator may resolve: an allowed decision that really executed. */
  predicate Resolvable(f: Fact) {
    IsDecision(f) && f.verdict == W(ALLOWED) && f.dryRun != Bool(true)
  }

  predicate Initial(s: State) {
    s == State([], map[], map[])
  }

  /** A run: a state per moment and the step between each two. */
  ghost predicate Run(p: Platform, trusted: set<Text>, states: seq<State>, steps: seq<Step>) {
    && |states| == |steps| + 1 && Initial(states[0])
    && forall i :: 0 <= i < |steps| ==> Next(p, trusted, states[i], steps[i], states[i + 1])
  }

  // ---- The invariant ---------------------------------------------------

  predicate IdsDistinct(fs: seq<Fact>) {
    && (forall i :: 0 <= i < |fs| ==> IsText(fs[i].id))
    && forall i, j :: 0 <= i < j < |fs| ==> fs[i].id != fs[j].id
  }

  function KeyJson(key: Option<Text>): Json { if key.Some? then Str(key.value) else Null }

  predicate SameIdentity(f: Fact, c: Contract) {
    f.actionName == Str(c.actionName) && f.actionId == Str(c.actionId) && f.contractHash == Str(c.contractHash)
  }

  /** The recorded decision agrees with the call's fate. */
  predicate DecisionMatches(f: Fact, call: Call) {
    && IsDecision(f) && SameIdentity(f, call.spec.contract) && f.key == KeyJson(call.spec.key)
    && f.risk == Str(call.spec.contract.risk) && f.mode == Str(call.spec.contract.approvalMode)
    && match call.fate
       case Undecided => false
       case WasDenied => f.verdict == W(DENIED)
       case WasDryRun => f.verdict == W(ALLOWED) && f.dryRun == Bool(true)
       case _ => f.verdict == W(ALLOWED) && f.dryRun == Null
  }

  predicate PhaseFits(call: Call) {
    match call.phase
    case Preparing => call.fate == Undecided
    case Approved(_) => call.fate == Undecided
    case Executing => call.fate == NoOutcome
    case Returned(_) => call.fate == NoOutcome
    case Recorded => call.fate == DidSucceed
    case Over => true
  }

  predicate CallFits(fs: seq<Fact>, call: Call) {
    && (call.fate == Undecided <==> call.decision.None?)
    && (call.decision.Some? ==> call.decision.value < |fs| && DecisionMatches(fs[call.decision.value], call))
    && PhaseFits(call)
  }

  predicate CallsFit(fs: seq<Fact>, calls: map<nat, Call>) {
    forall c :: c in calls ==> CallFits(fs, calls[c])
  }

  predicate OneOwner(calls: map<nat, Call>) {
    forall c, d :: c in calls && d in calls && c != d && calls[c].decision.Some? ==> calls[c].decision != calls[d].decision
  }

  predicate Owns(calls: map<nat, Call>, c: nat, j: nat) { c in calls && calls[c].decision == Some(j) }

  ghost predicate DecisionsOwned(fs: seq<Fact>, calls: map<nat, Call>) {
    forall j :: 0 <= j < |fs| && IsDecision(fs[j]) ==> exists c :: Owns(calls, c, j)
  }

  /** Event `i` is the outcome of this call. */
  predicate OutcomeFits(fs: seq<Fact>, i: nat, call: Call)
    requires i < |fs|
  {
    && call.decision.Some? && call.decision.value < i
    && fs[i].ref == fs[call.decision.value].id && SameIdentity(fs[i], call.spec.contract)
    && ((call.fate == DidSucceed && fs[i].status == W(SUCCEEDED)) || (call.fate == DidFail && fs[i].status == W(FAILED)))
  }

  ghost predicate OutcomesFit(fs: seq<Fact>, calls: map<nat, Call>) {
    forall i :: 0 <= i < |fs| && IsOutcome(fs[i]) ==> exists c :: c in calls && OutcomeFits(fs, i, calls[c])
  }

  predicate OneOutcome(fs: seq<Fact>) {
    forall i, j :: 0 <= i < j < |fs| && IsOutcome(fs[i]) && IsOutcome(fs[j]) ==> fs[i].ref != fs[j].ref
  }

  predicate OutcomeRecorded(fs: seq<Fact>, call: Call) {
    exists i :: 0 <= i < |fs| && IsOutcome(fs[i]) && OutcomeFits(fs, i, call)
  }

  /** A call that recorded an outcome has one in the journal. */
  predicate EndsRecorded(fs: seq<Fact>, calls: map<nat, Call>) {
    forall c :: c in calls && (calls[c].fate == DidSucceed || calls[c].fate == DidFail) ==> OutcomeRecorded(fs, calls[c])
  }

  predicate ResolutionFits(fs: seq<Fact>, i: nat)
    requires i < |fs|
  {
    && (fs[i].resolution == W(CONFIRMED_COMPLETED) || fs[i].resolution == W(CONFIRMED_NOT_COMPLETED))
    && exists j :: 0 <= j < i && Resolvable(fs[j]) && fs[i].ref == fs[j].id
  }

  predicate ResolutionsFit(fs: seq<Fact>) {
    forall i :: 0 <= i < |fs| && IsResolution(fs[i]) ==> ResolutionFits(fs, i)
  }

  /** At the moment a key was reserved, no earlier decision blocked it. */
  ghost predicate ReservedSafely(p: Platform, fs: seq<Fact>) {
    forall i, j, action, key :: 0 <= i < j < |fs| && Reserves(fs[j], action, key) ==> !Blocks(p, fs, j, i, action, key)
  }

  /** Processes remember only keys that really completed. */
  predicate MemoriesTrue(fs: seq<Fact>, completed: map<nat, seq<Pair>>) {
    forall process, pair :: process in completed && pair in completed[process] ==> CompletedIn(fs, pair)
  }

  ghost predicate Inv(p: Platform, s: State) {
    var fs := FactsOf(s.journal);
    && IdsDistinct(fs) && CallsFit(fs, s.calls) && OneOwner(s.calls) && DecisionsOwned(fs, s.calls)
    && OutcomesFit(fs, s.calls) && OneOutcome(fs) && EndsRecorded(fs, s.calls)
    && ResolutionsFit(fs) && ReservedSafely(p, fs) && MemoriesTrue(fs, s.completed)
  }

  // ---- Every step keeps it ---------------------------------------------

  lemma FactsAppend(es: seq<Event>, e: Event)
    ensures FactsOf(es + [e]) == FactsOf(es) + [FactOf(e)]
  {
  }

  /** A step that appends a fact under a fresh id keeps the ids distinct. */
  lemma IdsStayDistinct(p: Platform, trusted: set<Text>, journal: seq<Event>, e: Event, entry: Entry)
    requires WrittenAs(p, trusted, journal, e, entry) && IdsDistinct(FactsOf(journal))
    ensures IdsDistinct(FactsOf(journal) + [FactOf(e)])
  {
    hide Payload, Finalize, Enabled, Unsigned, Get, KeyIdOf;
    SealedFacts(p, trusted, journal, e, entry);
    forall i | 0 <= i < |journal| ensures FactsOf(journal)[i].id != FactOf(e).id {
      assert Get(journal[i], EventId) != Str(entry.stamp.id);
    }
  }

  lemma CallsStayFit(fs: seq<Fact>, f: Fact, calls: map<nat, Call>)
    requires CallsFit(fs, calls)
    ensures CallsFit(fs + [f], calls)
  {
    forall c | c in calls ensures CallFits(fs + [f], calls[c]) {
      assert CallFits(fs, calls[c]);
    }
  }

  lemma OutcomeFitsSame(fs: seq<Fact>, f: Fact, i: nat, a: Call, b: Call)
    requires i < |fs| && b.spec == a.spec && b.decision == a.decision && b.fate == a.fate
    ensures OutcomeFits(fs, i, a) ==> OutcomeFits(fs, i, b) && OutcomeFits(fs + [f], i, a)
  {
  }

  lemma OwnershipMoves(fs: seq<Fact>, calls: map<nat, Call>, c: nat, call: Call)
    requires DecisionsOwned(fs, calls) && c in calls && (calls[c].decision.None? || call.decision == calls[c].decision)
    ensures DecisionsOwned(fs, calls[c := call])
  {
    var after := calls[c := call];
    forall j | 0 <= j < |fs| && IsDecision(fs[j]) ensures exists d :: Owns(after, d, j) {
      var d :| Owns(calls, d, j);
      assert Owns(after, d, j);
    }
  }

  /** Moving a call on without touching its decision or fate leaves its outcome alone. */
  lemma OutcomesMove(fs: seq<Fact>, calls: map<nat, Call>, c: nat, call: Call)
    requires OutcomesFit(fs, calls) && EndsRecorded(fs, calls) && c in calls
    requires call.spec == calls[c].spec && call.decision == calls[c].decision && call.fate == calls[c].fate
    ensures OutcomesFit(fs, calls[c := call]) && EndsRecorded(fs, calls[c := call])
  {
    hide OutcomeFits;
    var after := calls[c := call];
    forall i | 0 <= i < |fs| && IsOutcome(fs[i]) ensures exists d :: d in after && OutcomeFits(fs, i, after[d]) {
      var d :| d in calls && OutcomeFits(fs, i, calls[d]);
      OutcomeFitsSame(fs, fs[i], i, calls[d], after[d]);
      assert d in after;
    }
    forall d | d in after && (after[d].fate == DidSucceed || after[d].fate == DidFail) ensures OutcomeRecorded(fs, after[d]) {
      var i :| 0 <= i < |fs| && IsOutcome(fs[i]) && OutcomeFits(fs, i, calls[d]);
      OutcomeFitsSame(fs, fs[i], i, calls[d], after[d]);
    }
  }

  lemma SameDecisionMatches(fs: seq<Fact>, a: Call, b: Call)
    requires b.spec == a.spec && b.fate == a.fate
    ensures forall i :: 0 <= i < |fs| ==> (DecisionMatches(fs[i], b) <==> DecisionMatches(fs[i], a))
  {
  }

  lemma PhaseChangeKeeps(fs: seq<Fact>, calls: map<nat, Call>, c: nat, call: Call)
    requires CallsFit(fs, calls) && OneOwner(calls) && DecisionsOwned(fs, calls) && OutcomesFit(fs, calls) && EndsRecorded(fs, calls)
    requires c in calls && call.spec == calls[c].spec && call.decision == calls[c].decision && call.fate == calls[c].fate
    requires PhaseFits(call)
    ensures CallsFit(fs, calls[c := call]) && OneOwner(calls[c := call]) && DecisionsOwned(fs, calls[c := call])
    ensures OutcomesFit(fs, calls[c := call]) && EndsRecorded(fs, calls[c := call])
  {
    hide DecisionsOwned, OutcomesFit, EndsRecorded, PhaseFits, DecisionMatches;
    assert CallFits(fs, calls[c]);
    OwnershipMoves(fs, calls, c, call);
    OutcomesMove(fs, calls, c, call);
    SameDecisionMatches(fs, calls[c], call);
    assert CallFits(fs, call);
  }

  lemma OutcomesStayFit(fs: seq<Fact>, f: Fact, calls: map<nat, Call>)
    requires OutcomesFit(fs, calls) && EndsRecorded(fs, calls)
    ensures !IsOutcome(f) ==> OutcomesFit(fs + [f], calls)
    ensures EndsRecorded(fs + [f], calls)
  {
    hide OutcomeFits;
    var all := fs + [f];
    if !IsOutcome(f) {
      forall i | 0 <= i < |all| && IsOutcome(all[i]) ensures exists c :: c in calls && OutcomeFits(all, i, calls[c]) {
        var c :| c in calls && OutcomeFits(fs, i, calls[c]);
        OutcomeFitsSame(fs, f, i, calls[c], calls[c]);
      }
    }
    forall c | c in calls && (calls[c].fate == DidSucceed || calls[c].fate == DidFail) ensures OutcomeRecorded(all, calls[c]) {
      var i :| 0 <= i < |fs| && IsOutcome(fs[i]) && OutcomeFits(fs, i, calls[c]);
      OutcomeFitsSame(fs, f, i, calls[c], calls[c]);
      assert IsOutcome(all[i]);
    }
  }

  lemma DecisionsStayOwned(fs: seq<Fact>, f: Fact, calls: map<nat, Call>)
    requires DecisionsOwned(fs, calls) && !IsDecision(f)
    ensures DecisionsOwned(fs + [f], calls)
  {
    var all := fs + [f];
    forall j | 0 <= j < |all| && IsDecision(all[j]) ensures exists c :: Owns(calls, c, j) {
      assert all[j] == fs[j];
    }
  }

  lemma ResolutionsStayFit(fs: seq<Fact>, f: Fact)
    requires ResolutionsFit(fs)
    requires IsResolution(f) ==> ResolutionFits(fs + [f], |fs|)
    ensures ResolutionsFit(fs + [f])
  {
    var all := fs + [f];
    forall i | 0 <= i < |all| && IsResolution(all[i]) ensures ResolutionFits(all, i) {
      if i < |fs| {
        assert ResolutionFits(fs, i);
        var j :| 0 <= j < i && Resolvable(fs[j]) && fs[i].ref == fs[j].id;
        assert Resolvable(all[j]) && all[i].ref == all[j].id;
      }
    }
  }

  lemma ReservationsStaySafe(p: Platform, fs: seq<Fact>, f: Fact)
    requires ReservedSafely(p, fs)
    requires forall i, action, key :: 0 <= i < |fs| && Reserves(f, action, key) ==> !Blocks(p, fs, |fs|, i, action, key)
    ensures ReservedSafely(p, fs + [f])
  {
    hide Blocks;
    var all := fs + [f];
    forall i, j, action, key | 0 <= i < j < |all| && Reserves(all[j], action, key) ensures !Blocks(p, all, j, i, action, key) {
      assert all[j] == if j < |fs| then fs[j] else f;
      BlocksLooksBack(p, fs, all, j, i, action, key);
    }
  }

  lemma CompletionsStay(fs: seq<Fact>, f: Fact, pair: Pair)
    requires CompletedIn(fs, pair)
    ensures CompletedIn(fs + [f], pair)
  {
    var all := fs + [f];
    var i :| 0 <= i < |fs| && Completes(fs, |fs|, i, pair.0, pair.1);
    var j :| 0 <= j < |fs| && OutcomeOf(fs[j], fs[i].id.t) && fs[j].status == W(SUCCEEDED);
    assert OutcomeOf(all[j], all[i].id.t) && all[j].status == W(SUCCEEDED);
    assert HasSucceeded(all, |all|, all[i].id.t);
    assert FirstUnderId(all, i);
    assert Completes(all, |all|, i, pair.0, pair.1);
  }

  lemma MemoriesStayTrue(fs: seq<Fact>, f: Fact, completed: map<nat, seq<Pair>>)
    requires MemoriesTrue(fs, completed)
    ensures MemoriesTrue(fs + [f], completed)
  {
    hide CompletedIn;
    forall process, pair | process in completed && pair in completed[process] ensures CompletedIn(fs + [f], pair) {
      CompletionsStay(fs, f, pair);
    }
  }

  lemma MarkingStaysTrue(fs: seq<Fact>, s: State, spec: Spec)
    requires spec.key.Some? && MemoriesTrue(fs, s.completed)
    requires CompletedIn(fs, (spec.contract.actionName, spec.key.value))
    ensures MemoriesTrue(fs, Marked(s, spec))
  {
    hide CompletedIn;
  }

  // ---- Steps that append nothing ---------------------------------------

  lemma BeginKeeps(p: Platform, trusted: set<Text>, s: State, step: Step, s': State)
    requires Inv(p, s) && step.Begin? && Next(p, trusted, s, step, s')
    ensures Inv(p, s')
  {
    hide CallFits, OutcomeFits, ResolutionsFit, ReservedSafely, MemoriesTrue, IdsDistinct, OneOutcome;
    var fs, after := FactsOf(s.journal), s'.calls;
    FreshCallFits(fs, step.spec);
    forall j | 0 <= j < |fs| && IsDecision(fs[j]) ensures exists d :: Owns(after, d, j) {
      var d :| Owns(s.calls, d, j);
      assert Owns(after, d, j);
    }
    forall i | 0 <= i < |fs| && IsOutcome(fs[i]) ensures exists d :: d in after && OutcomeFits(fs, i, after[d]) {
      var d :| d in s.calls && OutcomeFits(fs, i, s.calls[d]);
      assert d in after && after[d] == s.calls[d];
    }
  }

  lemma FreshCallFits(fs: seq<Fact>, spec: Spec)
    ensures CallFits(fs, Call(spec, Preparing, None, Undecided))
  {
  }

  lemma QuietStepKeeps(p: Platform, trusted: set<Text>, s: State, step: Step, s': State)
    requires Inv(p, s) && Next(p, trusted, s, step, s')
    requires step.Approve? || step.Return? || step.MarkCompleted? || step.Stop? || step.Notice?
    ensures Inv(p, s')
  {
    hide DecisionsOwned, OutcomesFit, EndsRecorded, ResolutionsFit, ReservedSafely, IdsDistinct, OneOutcome, MemoriesTrue,
         CompletedIn, DecisionMatches, OutcomeRecorded;
    var fs := FactsOf(s.journal);
    assert CallFits(fs, s.calls[step.c]);
    PhaseChangeKeeps(fs, s.calls, step.c, s'.calls[step.c]);
    if step.Notice? {
      MarkingStaysTrue(fs, s, s.calls[step.c].spec);
      assert s'.calls == s.calls[step.c := s'.calls[step.c]];
    }
    if step.MarkCompleted? && s.calls[step.c].spec.key.Some? {
      SucceededCallCompletes(p, s, step.c);
      MarkingStaysTrue(fs, s, s.calls[step.c].spec);
    }
  }

  /** A call that succeeded has completed its key. */
  lemma SucceededCallCompletes(p: Platform, s: State, c: nat)
    requires Inv(p, s) && c in s.calls && s.calls[c].fate == DidSucceed && s.calls[c].spec.key.Some?
    ensures CompletedIn(FactsOf(s.journal), (s.calls[c].spec.contract.actionName, s.calls[c].spec.key.value))
  {
    hide DecisionsOwned, OutcomesFit, ResolutionsFit, ReservedSafely, MemoriesTrue, OneOutcome, OneOwner;
    var fs, call := FactsOf(s.journal), s.calls[c];
    assert CallFits(fs, call) && OutcomeRecorded(fs, call);
    var i :| 0 <= i < |fs| && IsOutcome(fs[i]) && OutcomeFits(fs, i, call);
    var j := call.decision.value;
    assert OutcomeOf(fs[i], fs[j].id.t) && fs[i].status == W(SUCCEEDED);
    assert FirstUnderId(fs, j);
    assert Completes(fs, |fs|, j, call.spec.contract.actionName, call.spec.key.value);
  }

  // ---- Steps that append one event -------------------------------------

  /** What every append keeps, whatever it appends. */
  lemma AppendKeeps(p: Platform, trusted: set<Text>, s: State, e: Event, entry: Entry)
    requires Inv(p, s) && WrittenAs(p, trusted, s.journal, e, entry)
    ensures FactsOf(s.journal + [e]) == FactsOf(s.journal) + [FactOf(e)]
    ensures var all := FactsOf(s.journal) + [FactOf(e)];
      && IdsDistinct(all) && CallsFit(all, s.calls) && EndsRecorded(all, s.calls) && MemoriesTrue(all, s.completed)
      && (!IsOutcome(FactOf(e)) ==> OutcomesFit(all, s.calls))
      && (!IsDecision(FactOf(e)) ==> DecisionsOwned(all, s.calls))
  {
    hide WrittenAs, IdsDistinct, CallsFit, OutcomesFit, EndsRecorded, DecisionsOwned, MemoriesTrue, ReservedSafely,
         ResolutionsFit, OneOutcome, OneOwner, FactOf;
    var fs, f := FactsOf(s.journal), FactOf(e);
    FactsAppend(s.journal, e);
    IdsStayDistinct(p, trusted, s.journal, e, entry);
    CallsStayFit(fs, f, s.calls);
    OutcomesStayFit(fs, f, s.calls);
    MemoriesStayTrue(fs, f, s.completed);
    if !IsDecision(f) {
      DecisionsStayOwned(fs, f, s.calls);
    }
  }

  /** A call gets its decision: the new event is its own, and it has no outcome. */
  lemma DecisionIsOwned(fs: seq<Fact>, f: Fact, calls: map<nat, Call>, c: nat, call: Call)
    requires DecisionsOwned(fs, calls) && c in calls && calls[c].decision.None? && call.decision == Some(|fs|)
    ensures DecisionsOwned(fs + [f], calls[c := call])
  {
    var all, after := fs + [f], calls[c := call];
    forall j | 0 <= j < |all| && IsDecision(all[j]) ensures exists d :: Owns(after, d, j) {
      if j == |fs| {
        assert Owns(after, c, j);
      } else {
        assert IsDecision(fs[j]);
        var d :| Owns(calls, d, j);
        assert Owns(after, d, j);
      }
    }
  }

  lemma NoOutcomeUndecided(fs: seq<Fact>, i: nat, call: Call)
    requires i < |fs| && call.decision.None?
    ensures !OutcomeFits(fs, i, call)
  {
  }

  lemma UndecidedMoves(fs: seq<Fact>, calls: map<nat, Call>, c: nat, call: Call)
    requires OutcomesFit(fs, calls) && EndsRecorded(fs, calls)
    requires c in calls && calls[c].decision.None? && call.fate != DidSucceed && call.fate != DidFail
    ensures OutcomesFit(fs, calls[c := call]) && EndsRecorded(fs, calls[c := call])
  {
    var after := calls[c := call];
    hide OutcomeFits, OutcomeRecorded;
    forall i | 0 <= i < |fs| && IsOutcome(fs[i]) ensures exists d :: d in after && OutcomeFits(fs, i, after[d]) {
      var d :| d in calls && OutcomeFits(fs, i, calls[d]);
      NoOutcomeUndecided(fs, i, calls[c]);
      assert d in after && after[d] == calls[d];
    }
  }

  lemma DecisionStepKeeps(p: Platform, trusted: set<Text>, s: State, c: nat, e: Event, entry: Entry, allowed: bool, dryRun: bool)
    requires Inv(p, s) && c in s.calls && s.calls[c].fate == Undecided
    requires WrittenAs(p, trusted, s.journal, e, entry) && DecisionEntry(entry, s.calls[c].spec, allowed, dryRun)
    requires allowed && !dryRun ==> !IsDuplicate(p, s, s.calls[c].spec)
    ensures Inv(p, s.(journal := s.journal + [e], calls := s.calls[c := Decided(s.calls[c], |s.journal|, allowed, dryRun)]))
  {
    hide WrittenAs, OutcomeFits, Completes, FirstUnderId, MemoriesTrue, OutcomeRecorded, IdsDistinct;
    var fs, f, call := FactsOf(s.journal), FactOf(e), Decided(s.calls[c], |s.journal|, allowed, dryRun);
    DecisionIsRecorded(p, trusted, s.journal, e, entry);
    AppendKeeps(p, trusted, s, e, entry);
    DecisionOwnerKept(fs, f, s.calls, c, call);
    ResolutionsStayFit(fs, f);
    UnblockedIsSafe(p, s, f, s.calls[c].spec);
    ReservationsStaySafe(p, fs, f);
    OneOutcomeStays(fs, f);
  }

  lemma OneOutcomeStays(fs: seq<Fact>, f: Fact)
    requires OneOutcome(fs) && !IsOutcome(f)
    ensures OneOutcome(fs + [f])
  {
  }

  lemma DecisionOwnerKept(fs: seq<Fact>, f: Fact, calls: map<nat, Call>, c: nat, call: Call)
    requires CallsFit(fs, calls) && CallsFit(fs + [f], calls) && OneOwner(calls) && DecisionsOwned(fs, calls)
    requires OutcomesFit(fs + [f], calls) && EndsRecorded(fs + [f], calls)
    requires c in calls && calls[c].fate == Undecided && call.decision == Some(|fs|) && call.fate != Undecided
    requires call.fate != DidSucceed && call.fate != DidFail && DecisionMatches(f, call) && PhaseFits(call)
    ensures CallsFit(fs + [f], calls[c := call]) && OneOwner(calls[c := call]) && DecisionsOwned(fs + [f], calls[c := call])
    ensures OutcomesFit(fs + [f], calls[c := call]) && EndsRecorded(fs + [f], calls[c := call])
  {
    assert CallFits(fs, calls[c]);
    assert CallFits(fs + [f], call);
    UndecidedMoves(fs + [f], calls, c, call);
    DecisionIsOwned(fs, f, calls, c, call);
    hide DecisionsOwned, OutcomesFit, EndsRecorded, DecisionMatches, PhaseFits;
    assert forall d :: d in calls && calls[d].decision.Some? ==> CallFits(fs, calls[d]) && calls[d].decision.value < |fs|;
  }

  /** The locked check refuses exactly what would break the invariant. */
  lemma UnblockedIsSafe(p: Platform, s: State, f: Fact, spec: Spec)
    requires f.key == KeyJson(spec.key) && f.actionName == Str(spec.contract.actionName)
    requires f.verdict == W(ALLOWED) && f.dryRun != Bool(true) ==> !IsDuplicate(p, s, spec)
    ensures forall i, action, key :: 0 <= i < |s.journal| && Reserves(f, action, key) ==>
      !Blocks(p, FactsOf(s.journal), |s.journal|, i, action, key)
  {
    hide Blocks;
  }

  /** Only a call that ended with an outcome has one in the journal. */
  lemma OutcomeHasEnded(fs: seq<Fact>, calls: map<nat, Call>, c: nat, i: nat)
    requires IdsDistinct(fs) && CallsFit(fs, calls) && OneOwner(calls) && OutcomesFit(fs, calls)
    requires c in calls && calls[c].decision.Some? && i < |fs| && IsOutcome(fs[i])
    requires calls[c].decision.value < |fs| && fs[i].ref == fs[calls[c].decision.value].id
    ensures OutcomeFits(fs, i, calls[c])
  {
    hide CallFits, IsOutcome;
    var d :| d in calls && OutcomeFits(fs, i, calls[d]);
    assert fs[calls[d].decision.value].id == fs[calls[c].decision.value].id;
    assert calls[d].decision == calls[c].decision;
  }

  lemma FirstOutcomeJoins(fs: seq<Fact>, f: Fact, calls: map<nat, Call>, c: nat)
    requires IdsDistinct(fs) && CallsFit(fs, calls) && OneOwner(calls) && OutcomesFit(fs, calls) && OneOutcome(fs)
    requires c in calls && calls[c].fate == NoOutcome && calls[c].decision.Some? && calls[c].decision.value < |fs|
    requires f.ref == fs[calls[c].decision.value].id
    ensures OneOutcome(fs + [f])
  {
    hide IdsDistinct, CallsFit, OneOwner, OutcomesFit, OutcomeFits;
    forall i | 0 <= i < |fs| && IsOutcome(fs[i]) ensures fs[i].ref != f.ref {
      if fs[i].ref == f.ref {
        OutcomeHasEnded(fs, calls, c, i);
        NoOutcomeYet(fs, calls[c]);
      }
    }
  }

  lemma OutcomeJoins(fs: seq<Fact>, f: Fact, calls: map<nat, Call>, c: nat, call: Call)
    requires OutcomesFit(fs, calls) && EndsRecorded(fs + [f], calls) && IsOutcome(f)
    requires c in calls && calls[c].fate == NoOutcome && OutcomeFits(fs + [f], |fs|, call)
    ensures OutcomesFit(fs + [f], calls[c := call]) && EndsRecorded(fs + [f], calls[c := call])
  {
    hide OutcomeFits;
    var all, after := fs + [f], calls[c := call];
    NoOutcomeYet(fs, calls[c]);
    forall i | 0 <= i < |all| && IsOutcome(all[i]) ensures exists d :: d in after && OutcomeFits(all, i, after[d]) {
      if i == |fs| {
        assert c in after;
      } else {
        var d :| d in calls && OutcomeFits(fs, i, calls[d]);
        OutcomeFitsSame(fs, f, i, calls[d], calls[d]);
        assert d in after && after[d] == calls[d];
      }
    }
    assert OutcomeRecorded(all, call) by {
      assert IsOutcome(all[|fs|]);
    }
  }

  lemma NoOutcomeYet(fs: seq<Fact>, call: Call)
    requires call.fate == NoOutcome
    ensures forall i :: 0 <= i < |fs| ==> !OutcomeFits(fs, i, call)
  {
  }

  lemma IdInFact(es: seq<Event>, d: nat)
    requires d < |es|
    ensures |FactsOf(es)| == |es| && FactsOf(es)[d].id == Get(es[d], EventId)
  {
  }

  lemma OutcomeStepKeeps(p: Platform, trusted: set<Text>, s: State, step: Step, s': State)
    requires Inv(p, s) && step.RecordOutcome? && Next(p, trusted, s, step, s')
    ensures Inv(p, s')
  {
    hide WrittenAs, Completes, FirstUnderId, MemoriesTrue, OutcomeRecorded, IdsDistinct, DecisionsOwned, ReservedSafely,
         ResolutionsFit, EndsRecorded, OutcomesFit, OneOutcome, FactOf, FactsOf, Get;
    var fs, f, c := FactsOf(s.journal), FactOf(step.e), step.c;
    assert CallFits(fs, s.calls[c]);
    IdInFact(s.journal, s.calls[c].decision.value);
    OutcomeIsRecorded(p, trusted, s.journal, step.e, step.entry);
    AppendKeeps(p, trusted, s, step.e, step.entry);
    FirstOutcomeJoins(fs, f, s.calls, c);
    OutcomeJoins(fs, f, s.calls, c, s'.calls[c]);
    OwnershipMoves(fs + [f], s.calls, c, s'.calls[c]);
    ResolutionsStayFit(fs, f);
    ReservationsStaySafe(p, fs, f);
  }

  lemma ResolutionStepKeeps(p: Platform, trusted: set<Text>, s: State, step: Step, s': State)
    requires Inv(p, s) && step.Resolve? && Next(p, trusted, s, step, s')
    ensures Inv(p, s')
  {
    hide WrittenAs, Completes, FirstUnderId, MemoriesTrue, OutcomeRecorded, IdsDistinct, DecisionsOwned, ReservedSafely,
         ResolutionsFit, EndsRecorded, OutcomesFit, CallsFit, OneOwner;
    var fs, f := FactsOf(s.journal), FactOf(step.e);
    ResolutionIsRecorded(p, trusted, s.journal, step.e, step.entry);
    AppendKeeps(p, trusted, s, step.e, step.entry);
    var all := fs + [f];
    assert Resolvable(all[step.d]) && all[|fs|].ref == all[step.d].id;
    assert ResolutionFits(all, |fs|);
    ResolutionsStayFit(fs, f);
    ReservationsStaySafe(p, fs, f);
    OneOutcomeStays(fs, f);
  }

  lemma MaintenanceStepKeeps(p: Platform, trusted: set<Text>, s: State, step: Step, s': State)
    requires Inv(p, s) && step.Maintain? && Next(p, trusted, s, step, s')
    ensures Inv(p, s')
  {
    hide Completes, FirstUnderId, MemoriesTrue, OutcomeRecorded, IdsDistinct, DecisionsOwned, ReservedSafely,
         ResolutionsFit, EndsRecorded, OutcomesFit, CallsFit, OneOwner, Payload, Finalize, Fresh, Enabled;
    var fs, f := FactsOf(s.journal), FactOf(step.e);
    WrittenFacts(p, trusted, s.journal, step.e, step.entry);
    assert f.kind == W(KindWord(step.entry.body));
    AppendKeeps(p, trusted, s, step.e, step.entry);
    ResolutionsStayFit(fs, f);
    ReservationsStaySafe(p, fs, f);
    OneOutcomeStays(fs, f);
  }

  lemma PreCheckStepKeeps(p: Platform, trusted: set<Text>, s: State, step: Step, s': State)
    requires Inv(p, s) && step.PreCheckDenies? && Next(p, trusted, s, step, s')
    ensures Inv(p, s')
  {
    var c := step.c;
    assert CallFits(FactsOf(s.journal), s.calls[c]);
    hide WrittenAs, CompletedIn, IdsDistinct, CallsFit, OutcomesFit, EndsRecorded, DecisionsOwned, ReservedSafely,
         ResolutionsFit, OneOutcome, OneOwner, FactOf, Decided, MemoriesTrue, Marked, CallFits, DecisionEntry;
    DecisionStepKeeps(p, trusted, s, c, step.e, step.entry, false, false);
  }

  /** Every step of every interleaving keeps the invariant. */
  lemma StepKeeps(p: Platform, trusted: set<Text>, s: State, step: Step, s': State)
    requires Inv(p, s) && Next(p, trusted, s, step, s')
    ensures Inv(p, s')
  {
    match step {
      case Begin(_, _) => BeginKeeps(p, trusted, s, step, s');
      case PreCheckDenies(_, _, _) => PreCheckStepKeeps(p, trusted, s, step, s');
      case Decide(c, e, entry) => DecideStepKeeps(p, trusted, s, step, s');
      case RecordOutcome(_, _, _) => OutcomeStepKeeps(p, trusted, s, step, s');
      case Resolve(_, _, _) => ResolutionStepKeeps(p, trusted, s, step, s');
      case Maintain(_, _) => MaintenanceStepKeeps(p, trusted, s, step, s');
      case _ => QuietStepKeeps(p, trusted, s, step, s');
    }
  }

  lemma DecideStepKeeps(p: Platform, trusted: set<Text>, s: State, step: Step, s': State)
    requires Inv(p, s) && step.Decide? && Next(p, trusted, s, step, s')
    ensures Inv(p, s')
  {
    var call := s.calls[step.c];
    assert CallFits(FactsOf(s.journal), call);
    hide WrittenAs, IdsDistinct, OutcomesFit, EndsRecorded, DecisionsOwned, ReservedSafely, ResolutionsFit, OneOutcome,
         OneOwner, FactOf, MemoriesTrue;
    if IsDuplicate(p, s, call.spec) {
      DecisionStepKeeps(p, trusted, s, step.c, step.e, step.entry, false, false);
    } else {
      DecisionStepKeeps(p, trusted, s, step.c, step.e, step.entry, call.phase.allowed, call.spec.dryRun);
    }
  }
}
