/** One guarded call as it runs, other processes acting between any two of its steps.
    Whatever happens, it only ever takes steps of the reservation protocol. */
module Engine {
  import opened Evidence
  import opened Writer
  import opened Facts
  import opened Recorded
  import opened Reservation
  import opened ExactlyOnce

  /** What the unlocked pre-check reads, and the id of the prior decision it names. */
  datatype View = SeesNothing | SeesBlocking(prior: Text) | SeesCompleted(prior: Text)

  /** What the approval provider does. */
  datatype Approval = Answers(allowed: bool) | ApprovalFails

  /** How the guarded callable ends. */
  datatype Ending = Succeeds | Fails | Dies

  /** How an append ends: durable, durable with a failing witness sink, or not at all. */
  datatype Appending = Lands | LandsUnshipped | NeverLands

  /** What the caller of one guarded call is told. */
  datatype Told =
    | ReturnedResult | RaisedOwnError | WasDuplicate | ActionDenied | DryRunDone | ApprovalError | EvidenceIncomplete | Killed
    | ContractError | JournalFailed | DecisionUnshipped | OutcomeUnshipped(ok: bool)

  /** A call's own input to its decision event. */
  datatype Request = Request(summary: Json, inputHash: Text, details: Event)

  /** Everything around the call: other processes, ids and signatures, the provider, the callable. */
  datatype Surroundings = Surroundings(
    others: State -> seq<(Step, State)>,
    stamp: State -> Stamp,
    sign: Event -> Text,
    refuses: bool,
    view: State -> View,
    denial: Appending,
    approval: Approval,
    decision: Appending,
    ending: Ending,
    receipt: Option<string>,
    outcomeDetails: Event,
    outcome: Appending)

  /** How the callable of call `c` ended, every time it did. */
  function Ends(steps: seq<Step>, c: nat): seq<bool> {
    if steps == [] then []
    else
      var last := steps[|steps| - 1];
      Ends(steps[..|steps| - 1], c) + if last.Return? && last.c == c then [last.ok] else []
  }

  predicate Touches(step: Step, c: nat) {
    match step
    case Resolve(_, _, _) => false
    case Maintain(_, _) => false
    case _ => step.c == c
  }

  /** A chain of steps of other calls and of operators. */
  ghost predicate Legal(p: Platform, trusted: set<Text>, s: State, moves: seq<(Step, State)>, c: nat)
    decreases |moves|
  {
    moves == []
    || (Next(p, trusted, s, moves[0].0, moves[0].1) && !Touches(moves[0].0, c) && Legal(p, trusted, moves[0].1, moves[1..], c))
  }

  ghost predicate Signs(p: Platform, trusted: set<Text>, stamp: Stamp, sign: Event -> Text, journal: seq<Event>) {
    && stamp.keyId in trusted && Fresh(stamp.id, journal)
    && forall payload :: p.checks(stamp.keyId, p.digest(payload), sign(payload))
  }

  /** The surroundings behave: others follow the protocol, ids are fresh, signatures
      check, and the pre-check reports a completion only when there is one. */
  ghost predicate Behaves(p: Platform, trusted: set<Text>, around: Surroundings, c: nat, spec: Spec) {
    && (forall s :: Legal(p, trusted, s, around.others(s), c))
    && (forall s :: Signs(p, trusted, around.stamp(s), around.sign, s.journal))
    && (forall s :: spec.key.Some? && around.view(s).SeesCompleted? ==>
          CompletedIn(FactsOf(s.journal), (spec.contract.actionName, spec.key.value)))
    && around.outcomeDetails.Keys <= OUTCOME_DETAILS
  }

  lemma OthersLeaveCall(p: Platform, trusted: set<Text>, s: State, step: Step, s': State, c: nat)
    requires Next(p, trusted, s, step, s') && !Touches(step, c)
    ensures c in s'.calls <==> c in s.calls
    ensures c in s.calls ==> s'.calls[c] == s.calls[c]
    ensures s.journal <= s'.journal
  {
    hide WrittenAs, IsDuplicate, CompletedIn, DecisionEntry, Decided, Marked, Resolvable, CallAfter;
  }

  /** The shared file and processes, with the history that led here. */
  class World {
    const p: Platform
    const trusted: set<Text>
    var now: State
    ghost var states: seq<State>
    ghost var steps: seq<Step>

    ghost predicate Valid()
      reads this
    {
      Run(p, trusted, states, steps) && now == states[|states| - 1]
    }

    constructor (p: Platform, trusted: set<Text>)
      ensures Valid() && this.p == p && this.trusted == trusted && Initial(now)
    {
      this.p, this.trusted, now := p, trusted, State([], map[], map[]);
      states, steps := [State([], map[], map[])], [];
    }

    /** One step: only the protocol's steps can be taken. */
    method Take(step: Step, next: State)
      requires Valid() && Next(p, trusted, now, step, next)
      modifies this
      ensures Valid() && now == next && steps == old(steps) + [step] && old(states) <= states
      ensures forall c :: Ends(steps, c) == Ends(old(steps), c) + if step.Return? && step.c == c then [step.ok] else []
    {
      hide Next, Initial;
      assert (steps + [step])[..|steps|] == steps;
      RunGrows(p, trusted, states, steps, step, next);
      states, steps, now := states + [next], steps + [step], next;
    }

    lemma HistoryEnds()
      requires Valid()
      ensures |states| >= 1 && now == states[|states| - 1]
    {
    }

    /** Other processes act; the call itself stays where it is. */
    method Others(moves: seq<(Step, State)>, c: nat)
      requires Valid() && Legal(p, trusted, now, moves, c)
      modifies this
      ensures Valid() && old(states) <= states && Ends(steps, c) == Ends(old(steps), c)
      ensures c in now.calls <==> c in old(now).calls
      ensures c in now.calls ==> now.calls[c] == old(now).calls[c]
      ensures old(now).journal <= now.journal
      decreases |moves|
    {
      hide Next, Run;
      if moves != [] {
        OthersLeaveCall(p, trusted, now, moves[0].0, moves[0].1, c);
        Take(moves[0].0, moves[0].1);
        Others(moves[1..], c);
      }
    }
  }

  lemma RunGrows(p: Platform, trusted: set<Text>, states: seq<State>, steps: seq<Step>, step: Step, next: State)
    requires Run(p, trusted, states, steps) && Next(p, trusted, states[|states| - 1], step, next)
    ensures Run(p, trusted, states + [next], steps + [step])
  {
    hide Next;
    var longer, more := states + [next], steps + [step];
    forall i | 0 <= i < |more| ensures Next(p, trusted, longer[i], more[i], longer[i + 1]) {
      if i < |steps| {
        assert Next(p, trusted, states[i], steps[i], states[i + 1]);
      }
    }
  }

  // ---- The events a call appends ---------------------------------------

  function Sealed(p: Platform, body: Body, stamp: Stamp, sign: Event -> Text, journal: seq<Event>): (Event, Entry)
    requires body.CountersignatureBody? ==> body.checkpoint < |journal|
  {
    var payload := Payload(body, stamp, journal);
    (Finalize(p, payload, sign(payload)), Entry(stamp, body, sign(payload)))
  }

  lemma SealedIsWritten(p: Platform, trusted: set<Text>, body: Body, stamp: Stamp, sign: Event -> Text, journal: seq<Event>)
    requires Enabled(body, stamp, journal) && Signs(p, trusted, stamp, sign, journal)
    ensures var (e, entry) := Sealed(p, body, stamp, sign, journal);
      WrittenAs(p, trusted, journal, e, entry) && entry.body == body
  {
    hide Payload, Finalize, Fresh;
  }

  function Decision(spec: Spec, request: Request, allowed: bool, dryRun: bool, duplicateOf: Option<Json>): Body {
    DecisionBody(spec.contract, allowed, request.summary, request.inputHash, spec.key, dryRun,
                 With(request.details, DuplicateOf, duplicateOf))
  }

  /** The event is the decision of this request, naming the prior decision it duplicates. */
  predicate SaysOf(e: Event, spec: Spec, request: Request, allowed: bool, dryRun: bool, duplicateOf: Option<Json>) {
    SaysDecision(e, spec.contract, spec.key, allowed, dryRun, request.summary, request.inputHash,
                 if duplicateOf.Some? then request.details[DuplicateOf := duplicateOf.value] else request.details)
  }

  lemma DecisionSealed(p: Platform, trusted: set<Text>, spec: Spec, request: Request, allowed: bool, dryRun: bool,
                       duplicateOf: Option<Json>, stamp: Stamp, sign: Event -> Text, journal: seq<Event>)
    requires request.details.Keys <= DECISION_DETAILS && Signs(p, trusted, stamp, sign, journal)
    ensures var body := Decision(spec, request, allowed, dryRun, duplicateOf);
      var (e, entry) := Sealed(p, body, stamp, sign, journal);
      WrittenAs(p, trusted, journal, e, entry) && entry.body == body && SaysOf(e, spec, request, allowed, dryRun, duplicateOf)
  {
    hide WrittenAs, Sealed, Signs, Get;
    var body := Decision(spec, request, allowed, dryRun, duplicateOf);
    SealedIsWritten(p, trusted, body, stamp, sign, journal);
    var (e, entry) := Sealed(p, body, stamp, sign, journal);
    DecisionSpeaks(p, trusted, journal, e, entry);
  }

  /** The state after a duplicate is turned away before approval. */
  function TurnedAway(s: State, c: nat, e: Event): State
    requires c in s.calls
  {
    s.(journal := s.journal + [e], calls := s.calls[c := Decided(s.calls[c], |s.journal|, false, false)])
  }

  // ---- One step at a time ----------------------------------------------

  /** The call is where it should be. */
  predicate At(s: State, c: nat, spec: Spec, phase: Phase) {
    c in s.calls && s.calls[c].spec == spec && s.calls[c].phase == phase
  }

  /** The call has put nothing on record yet. */
  predicate Waits(s: State, c: nat, spec: Spec, phase: Phase) {
    At(s, c, spec, phase) && s.calls[c].fate == Undecided
  }

  /** Exactly one event came after `before`, and it is the decision of the call. */
  predicate Decides(before: seq<Event>, after: State, c: nat) {
    c in after.calls && after.calls[c].decision == Some(|before|) && before <= after.journal && |after.journal| == |before| + 1
  }

  /** What the pre-check finds: the process remembers the key, or the unlocked look sees a prior. */
  predicate TakenAt(s: State, around: Surroundings, spec: Spec) {
    spec.key.Some? && ((spec.contract.actionName, spec.key.value) in CompletedBy(s, spec.process) || around.view(s) != SeesNothing)
  }

  /** The event at `d` is the denial of a call that the pre-check turned away at `looked`;
      it names the prior decision unless the process knew the key from memory. */
  predicate DenialStands(journal: seq<Event>, d: nat, looked: State, around: Surroundings, spec: Spec, request: Request)
    requires TakenAt(looked, around, spec)
  {
    && d < |journal|
    && SaysOf(journal[d], spec, request, false, false,
              if (spec.contract.actionName, spec.key.value) in CompletedBy(looked, spec.process) then None
              else Some(Str(around.view(looked).prior)))
  }

  /** The event at `d` is the decision of a call that was checked under the lock at `locked`: it
      allows exactly what the provider approved and no earlier decision or memory forbids. */
  predicate DecisionStands(journal: seq<Event>, d: nat, p: Platform, locked: State, around: Surroundings, spec: Spec, request: Request) {
    && d < |journal|
    && SaysOf(journal[d], spec, request,
              around.approval == Answers(true) && !IsDuplicate(p, locked, spec),
              spec.dryRun && !IsDuplicate(p, locked, spec),
              LockedPrior(p, locked, spec))
  }

  /** The event at `o` is the outcome of the decision at `d`, with a receipt only when the callable succeeded. */
  predicate EndsOf(journal: seq<Event>, o: nat, d: nat, spec: Spec, ok: bool, around: Surroundings) {
    && d < o < |journal|
    && SaysOutcome(journal[o], spec.contract, Get(journal[d], EventId), ok, around.receipt, around.outcomeDetails)
  }

  /** What is on record stays on record. */
  lemma RecordStands(journal: seq<Event>, more: seq<Event>, p: Platform, s: State, around: Surroundings, spec: Spec, request: Request)
    requires journal <= more
    ensures forall d: nat :: TakenAt(s, around, spec) && DenialStands(journal, d, s, around, spec, request) ==>
              DenialStands(more, d, s, around, spec, request)
    ensures forall d: nat :: DecisionStands(journal, d, p, s, around, spec, request) ==> DecisionStands(more, d, p, s, around, spec, request)
  {
    hide SaysOf, IsDuplicate, LockedPrior;
  }

  lemma OutcomeStands(journal: seq<Event>, more: seq<Event>, o: nat, d: nat, spec: Spec, ok: bool, around: Surroundings)
    requires journal <= more && EndsOf(journal, o, d, spec, ok, around)
    ensures EndsOf(more, o, d, spec, ok, around)
  {
    hide SaysOutcome;
  }

  method BeginCall(w: World, c: nat, spec: Spec)
    requires w.Valid() && c !in w.now.calls && spec.key != Some(Other(""))
    modifies w
    ensures w.Valid() && old(w.states) <= w.states && Ends(w.steps, c) == Ends(old(w.steps), c)
    ensures Waits(w.now, c, spec, Preparing)
  {
    hide World.Valid;
    w.Take(Begin(c, spec), w.now.(calls := w.now.calls[c := Call(spec, Preparing, None, Undecided)]));
  }

  method LetOthers(w: World, around: Surroundings, c: nat, spec: Spec)
    requires w.Valid() && Behaves(w.p, w.trusted, around, c, spec) && c in w.now.calls
    modifies w
    ensures w.Valid() && old(w.states) <= w.states && Ends(w.steps, c) == Ends(old(w.steps), c)
    ensures c in w.now.calls && w.now.calls[c] == old(w.now).calls[c]
    ensures old(w.now).journal <= w.now.journal
  {
    hide World.Valid, Legal, Signs;
    w.Others(around.others(w.now), c);
  }

  lemma CanTurnAway(p: Platform, trusted: set<Text>, s: State, c: nat, request: Request, prior: Option<Json>,
                    stamp: Stamp, sign: Event -> Text)
    requires c in s.calls && s.calls[c].phase.Preparing? && s.calls[c].spec.key.Some?
    requires request.details.Keys <= DECISION_DETAILS && Signs(p, trusted, stamp, sign, s.journal)
    ensures var spec := s.calls[c].spec;
      var (e, entry) := Sealed(p, Decision(spec, request, false, false, prior), stamp, sign, s.journal);
      && Next(p, trusted, s, PreCheckDenies(c, e, entry), TurnedAway(s, c, e))
      && SaysOf(e, spec, request, false, false, prior)
  {
    hide WrittenAs, Sealed, Signs, IsDuplicate, Decided, SaysOf, FactsOf, CompletedIn, Marked, Resolvable, Get, CallAfter;
    DecisionSealed(p, trusted, s.calls[c].spec, request, false, false, prior, stamp, sign, s.journal);
  }

  /** Remembers a completion that the unlocked look finds. */
  method NoticeCompleted(w: World, around: Surroundings, c: nat, spec: Spec)
    requires w.Valid() && Behaves(w.p, w.trusted, around, c, spec) && spec.key.Some?
    requires Waits(w.now, c, spec, Preparing) && around.view(w.now).SeesCompleted?
    modifies w
    ensures w.Valid() && old(w.states) <= w.states && Ends(w.steps, c) == Ends(old(w.steps), c)
    ensures w.now == old(w.now).(completed := w.now.completed)
    ensures (spec.contract.actionName, spec.key.value) in CompletedBy(w.now, spec.process)
  {
    hide World.Valid, Legal, Signs, CompletedIn, FactsOf;
    w.Take(Notice(c), w.now.(completed := Marked(w.now, spec)));
  }

  /** The pre-check: a duplicate it sees is turned away before anyone is asked. A key is
      taken when this process remembers it or the unlocked look finds a prior decision. */
  method PreCheck(w: World, around: Surroundings, c: nat, spec: Spec, request: Request) returns (turnedAway: Option<Told>)
    requires w.Valid() && Behaves(w.p, w.trusted, around, c, spec) && request.details.Keys <= DECISION_DETAILS
    requires Waits(w.now, c, spec, Preparing)
    modifies w
    ensures w.Valid() && old(w.states) <= w.states && Ends(w.steps, c) == Ends(old(w.steps), c)
    ensures turnedAway.Some? <==> TakenAt(old(w.now), around, spec)
    ensures turnedAway.None? ==> w.now == old(w.now)
    ensures turnedAway.Some? ==> At(w.now, c, spec, Over)
    ensures turnedAway.Some? ==>
      match around.denial
      case Lands => turnedAway.value == WasDuplicate
      case LandsUnshipped => turnedAway.value == DecisionUnshipped
      case NeverLands => turnedAway.value == JournalFailed
    ensures turnedAway.Some? && !around.denial.NeverLands? ==>
      && w.now.calls[c].fate == WasDenied && Decides(old(w.now).journal, w.now, c)
      && DenialStands(w.now.journal, |old(w.now).journal|, old(w.now), around, spec, request)
    ensures turnedAway.Some? && around.denial.NeverLands? ==> w.now.calls[c].fate == Undecided && w.now.journal == old(w.now).journal
    ensures turnedAway.Some? && around.view(old(w.now)).SeesCompleted? ==>
      (spec.contract.actionName, spec.key.value) in CompletedBy(w.now, spec.process)
  {
    hide World.Valid, Legal, Signs, Next, CompletedIn, FactsOf, Marked, SaysOf, Ends;
    if spec.key.None? {
      return None;
    }
    var known := (spec.contract.actionName, spec.key.value) in CompletedBy(w.now, spec.process);
    var view := around.view(w.now);
    if !known && view.SeesNothing? {
      return None;
    }
    if !known && view.SeesCompleted? {
      NoticeCompleted(w, around, c, spec);
    }
    turnedAway := TurnAway(w, around, c, spec, request, if known then None else Some(Str(view.prior)));
  }

  /** Puts the denial of a duplicate on record. */
  method TurnAway(w: World, around: Surroundings, c: nat, spec: Spec, request: Request, prior: Option<Json>)
    returns (turnedAway: Option<Told>)
    requires w.Valid() && Behaves(w.p, w.trusted, around, c, spec) && request.details.Keys <= DECISION_DETAILS
    requires Waits(w.now, c, spec, Preparing) && spec.key.Some?
    modifies w
    ensures w.Valid() && old(w.states) <= w.states && Ends(w.steps, c) == Ends(old(w.steps), c)
    ensures At(w.now, c, spec, Over) && w.now.completed == old(w.now).completed
    ensures match around.denial
      case Lands => turnedAway == Some(WasDuplicate)
      case LandsUnshipped => turnedAway == Some(DecisionUnshipped)
      case NeverLands => turnedAway == Some(JournalFailed)
    ensures !around.denial.NeverLands? ==>
      && w.now.calls[c].fate == WasDenied && Decides(old(w.now).journal, w.now, c)
      && SaysOf(w.now.journal[|old(w.now).journal|], spec, request, false, false, prior)
    ensures around.denial.NeverLands? ==> w.now.calls[c].fate == Undecided && w.now.journal == old(w.now).journal
  {
    hide World.Valid, Legal, Signs, Next, Sealed, CompletedIn, FactsOf, Marked, SaysOf, Ends;
    if around.denial.NeverLands? {
      StopCall(w, c, spec);
      return Some(JournalFailed);
    }
    var stamp := around.stamp(w.now);
    var (e, entry) := Sealed(w.p, Decision(spec, request, false, false, prior), stamp, around.sign, w.now.journal);
    CanTurnAway(w.p, w.trusted, w.now, c, request, prior, stamp, around.sign);
    w.Take(PreCheckDenies(c, e, entry), TurnedAway(w.now, c, e));
    turnedAway := Some(if around.denial.Lands? then WasDuplicate else DecisionUnshipped);
  }

  method Ask(w: World, c: nat, spec: Spec, allowed: bool)
    requires w.Valid() && Waits(w.now, c, spec, Preparing)
    modifies w
    ensures w.Valid() && old(w.states) <= w.states && Ends(w.steps, c) == Ends(old(w.steps), c) && Waits(w.now, c, spec, Approved(allowed))
  {
    hide World.Valid;
    w.Take(Approve(c, allowed), w.now.(calls := w.now.calls[c := w.now.calls[c].(phase := Approved(allowed))]));
  }

  method StopCall(w: World, c: nat, spec: Spec)
    requires w.Valid() && c in w.now.calls && w.now.calls[c].spec == spec
    modifies w
    ensures w.Valid() && old(w.states) <= w.states && Ends(w.steps, c) == Ends(old(w.steps), c) && At(w.now, c, spec, Over)
    ensures w.now.calls[c].fate == old(w.now).calls[c].fate && w.now.calls[c].decision == old(w.now).calls[c].decision
    ensures w.now.journal == old(w.now).journal && w.now.completed == old(w.now).completed
  {
    hide World.Valid;
    w.Take(Stop(c), w.now.(calls := w.now.calls[c := w.now.calls[c].(phase := Over)]));
  }

  /** The id of the prior decision that the check under the lock finds. */
  function LockedPrior(p: Platform, s: State, spec: Spec): Option<Json> {
    if spec.key.None? then None
    else
      var prior := BlockingPrior(p, FactsOf(s.journal), |s.journal|, spec.contract.actionName, spec.key.value);
      if prior.Some? then Some(Get(s.journal[prior.value], EventId)) else None
  }

  /** A call is a duplicate exactly when some earlier decision blocks its key, or its own
      process saw the key complete; the prior it names is the earliest that blocks. */
  lemma DuplicateMeans(p: Platform, s: State, spec: Spec)
    ensures IsDuplicate(p, s, spec) <==>
      && spec.key.Some?
      && ((exists i: nat :: Blocks(p, FactsOf(s.journal), |s.journal|, i, spec.contract.actionName, spec.key.value))
          || (spec.contract.actionName, spec.key.value) in CompletedBy(s, spec.process))
    ensures forall id :: LockedPrior(p, s, spec) == Some(id) <==>
      && spec.key.Some?
      && exists i: nat ::
           && Blocks(p, FactsOf(s.journal), |s.journal|, i, spec.contract.actionName, spec.key.value)
           && (forall j: nat :: j < i ==> !Blocks(p, FactsOf(s.journal), |s.journal|, j, spec.contract.actionName, spec.key.value))
           && Get(s.journal[i], EventId) == id
  {
    hide Blocks;
    if spec.key.Some? {
      var fs := FactsOf(s.journal);
      BlocksIsEarlier(p, fs, spec.contract.actionName, spec.key.value);
    }
  }

  lemma BlocksIsEarlier(p: Platform, fs: seq<Fact>, action: Text, key: Text)
    ensures forall i: nat :: Blocks(p, fs, |fs|, i, action, key) ==> i < |fs|
  {
  }

  /** The verdict that goes into the event: a duplicate is denied whatever was approved. */
  function Verdicts(p: Platform, s: State, c: nat): (bool, bool)
    requires c in s.calls && s.calls[c].phase.Approved?
  {
    if IsDuplicate(p, s, s.calls[c].spec) then (false, false) else (s.calls[c].phase.allowed, s.calls[c].spec.dryRun)
  }

  lemma CanDecide(p: Platform, trusted: set<Text>, s: State, c: nat, request: Request, prior: Option<Json>,
                  stamp: Stamp, sign: Event -> Text)
    requires c in s.calls && s.calls[c].phase.Approved?
    requires request.details.Keys <= DECISION_DETAILS && Signs(p, trusted, stamp, sign, s.journal)
    ensures var (allowed, dryRun) := Verdicts(p, s, c);
      var spec := s.calls[c].spec;
      var (e, entry) := Sealed(p, Decision(spec, request, allowed, dryRun, prior), stamp, sign, s.journal);
      && Next(p, trusted, s, Decide(c, e, entry),
              s.(journal := s.journal + [e], calls := s.calls[c := Decided(s.calls[c], |s.journal|, allowed, dryRun)]))
      && SaysOf(e, spec, request, allowed, dryRun, prior)
  {
    hide WrittenAs, Sealed, Signs, IsDuplicate, Decided, SaysOf, FactsOf, CompletedIn, Marked, Resolvable, Get, Payload, Finalize;
    var (allowed, dryRun) := Verdicts(p, s, c);
    DecisionSealed(p, trusted, s.calls[c].spec, request, allowed, dryRun, prior, stamp, sign, s.journal);
  }

  /** What the locked check and append came to. */
  datatype Deciding = NotAppended | Duplicate | DecisionMade

  /** The atomic check and append; nothing happens when the append fails. */
  method DecideCall(w: World, around: Surroundings, c: nat, spec: Spec, request: Request) returns (r: Deciding)
    requires w.Valid() && Behaves(w.p, w.trusted, around, c, spec) && request.details.Keys <= DECISION_DETAILS
    requires c in w.now.calls && w.now.calls[c].spec == spec && w.now.calls[c].phase.Approved?
    modifies w
    ensures w.Valid() && old(w.states) <= w.states && Ends(w.steps, c) == Ends(old(w.steps), c)
    ensures c in w.now.calls && w.now.calls[c].spec == spec
    ensures r.NotAppended? <==> around.decision.NeverLands?
    ensures r.NotAppended? ==> w.now == old(w.now)
    ensures !r.NotAppended? ==>
      var before := old(w.now).journal;
      && (r.Duplicate? <==> IsDuplicate(w.p, old(w.now), spec))
      && var allowed := r.DecisionMade? && old(w.now).calls[c].phase.allowed;
      && w.now.calls[c].phase == (if allowed && !spec.dryRun then Executing else Over)
      && w.now.calls[c].fate == (if !allowed then WasDenied else if spec.dryRun then WasDryRun else NoOutcome)
      && Decides(before, w.now, c)
      && SaysOf(w.now.journal[|before|], spec, request, allowed, r.DecisionMade? && spec.dryRun, LockedPrior(w.p, old(w.now), spec))
  {
    hide World.Valid, Legal, Signs, Next, IsDuplicate, Sealed, SaysOf, LockedPrior;
    if around.decision.NeverLands? {
      return NotAppended;
    }
    var duplicate := IsDuplicate(w.p, w.now, spec);
    var (allowed, dryRun) := Verdicts(w.p, w.now, c);
    var prior := LockedPrior(w.p, w.now, spec);
    var stamp := around.stamp(w.now);
    var (e, entry) := Sealed(w.p, Decision(spec, request, allowed, dryRun, prior), stamp, around.sign, w.now.journal);
    CanDecide(w.p, w.trusted, w.now, c, request, prior, stamp, around.sign);
    w.Take(Decide(c, e, entry),
           w.now.(journal := w.now.journal + [e], calls := w.now.calls[c := Decided(w.now.calls[c], |w.now.journal|, allowed, dryRun)]));
    r := if duplicate then Duplicate else DecisionMade;
  }

  /** The callable ends. */
  method ReturnFrom(w: World, c: nat, spec: Spec, ok: bool)
    requires w.Valid() && At(w.now, c, spec, Executing)
    modifies w
    ensures w.Valid() && old(w.states) <= w.states && At(w.now, c, spec, Returned(ok))
    ensures Ends(w.steps, c) == Ends(old(w.steps), c) + [ok]
    ensures w.now.calls[c].fate == old(w.now).calls[c].fate && w.now.calls[c].decision == old(w.now).calls[c].decision
    ensures w.now.journal == old(w.now).journal
  {
    hide World.Valid;
    w.Take(Return(c, ok), w.now.(calls := w.now.calls[c := w.now.calls[c].(phase := Returned(ok))]));
  }

  /** The decision of a call that executes is in the journal, under a textual id. */
  lemma DecisionOnRecord(p: Platform, trusted: set<Text>, states: seq<State>, steps: seq<Step>, c: nat)
    requires Run(p, trusted, states, steps)
    requires var s := states[|states| - 1]; c in s.calls && s.calls[c].phase.Returned?
    ensures var s := states[|states| - 1];
      && s.calls[c].decision.Some? && s.calls[c].decision.value < |s.journal|
      && IsText(Get(s.journal[s.calls[c].decision.value], EventId)) && s.calls[c].fate == NoOutcome
  {
    var s := states[|states| - 1];
    InvariantOverRuns(p, trusted, states, steps, |states| - 1);
    hide Run, ReservedSafely, MemoriesTrue, DecisionsOwned, OutcomesFit, EndsRecorded, ResolutionsFit, OneOutcome, OneOwner, DecisionMatches;
    assert CallFits(FactsOf(s.journal), s.calls[c]);
  }

  function OutcomeOfCall(s: State, c: nat, around: Surroundings): Body
    requires c in s.calls && s.calls[c].phase.Returned? && s.calls[c].decision.Some? && s.calls[c].decision.value < |s.journal|
    requires IsText(Get(s.journal[s.calls[c].decision.value], EventId))
  {
    OutcomeBody(s.calls[c].spec.contract, Get(s.journal[s.calls[c].decision.value], EventId).t, s.calls[c].phase.ok,
                if s.calls[c].phase.ok then around.receipt else None, around.outcomeDetails)
  }

  /** The state after the outcome of call `c` is appended. */
  function WithOutcome(s: State, c: nat, e: Event): State
    requires c in s.calls && s.calls[c].phase.Returned?
  {
    var call := s.calls[c];
    s.(journal := s.journal + [e],
       calls := s.calls[c := call.(phase := if call.phase.ok then Recorded else Over,
                                   fate := if call.phase.ok then DidSucceed else DidFail)])
  }

  lemma OutcomeSealed(p: Platform, trusted: set<Text>, s: State, c: nat, around: Surroundings, stamp: Stamp)
    requires c in s.calls && s.calls[c].phase.Returned? && s.calls[c].decision.Some? && s.calls[c].decision.value < |s.journal|
    requires IsText(Get(s.journal[s.calls[c].decision.value], EventId))
    requires around.outcomeDetails.Keys <= OUTCOME_DETAILS && Signs(p, trusted, stamp, around.sign, s.journal)
    ensures var body := OutcomeOfCall(s, c, around);
      var (e, entry) := Sealed(p, body, stamp, around.sign, s.journal);
      && WrittenAs(p, trusted, s.journal, e, entry) && entry.body == body
      && SaysOutcome(e, s.calls[c].spec.contract, Get(s.journal[s.calls[c].decision.value], EventId), s.calls[c].phase.ok,
                     around.receipt, around.outcomeDetails)
  {
    hide WrittenAs, Sealed, Signs, Get;
    var body := OutcomeOfCall(s, c, around);
    SealedIsWritten(p, trusted, body, stamp, around.sign, s.journal);
    var (e, entry) := Sealed(p, body, stamp, around.sign, s.journal);
    OutcomeSpeaks(p, trusted, s.journal, e, entry);
  }

  lemma CanRecord(p: Platform, trusted: set<Text>, s: State, c: nat, around: Surroundings, stamp: Stamp)
    requires c in s.calls && s.calls[c].phase.Returned? && s.calls[c].decision.Some? && s.calls[c].decision.value < |s.journal|
    requires IsText(Get(s.journal[s.calls[c].decision.value], EventId))
    requires around.outcomeDetails.Keys <= OUTCOME_DETAILS && Signs(p, trusted, stamp, around.sign, s.journal)
    ensures var (e, entry) := Sealed(p, OutcomeOfCall(s, c, around), stamp, around.sign, s.journal);
      && Next(p, trusted, s, RecordOutcome(c, e, entry), WithOutcome(s, c, e))
      && var after, call := WithOutcome(s, c, e), s.calls[c];
      && after.journal == s.journal + [e] && after.completed == s.completed
      && At(after, c, call.spec, if call.phase.ok then Recorded else Over)
      && after.calls[c].fate == (if call.phase.ok then DidSucceed else DidFail) && after.calls[c].decision == call.decision
      && EndsOf(after.journal, |s.journal|, call.decision.value, call.spec, call.phase.ok, around)
  {
    hide WrittenAs, Sealed, Signs, Get, SaysOutcome, IsDuplicate, Decided, FactsOf, CompletedIn, Marked, Resolvable, CallAfter;
    OutcomeSealed(p, trusted, s, c, around, stamp);
  }

  /** Appends the outcome of the call. */
  method AppendOutcome(w: World, around: Surroundings, c: nat, spec: Spec, ok: bool)
    requires w.Valid() && Behaves(w.p, w.trusted, around, c, spec) && At(w.now, c, spec, Returned(ok))
    modifies w
    ensures w.Valid() && old(w.states) <= w.states && Ends(w.steps, c) == Ends(old(w.steps), c)
    ensures At(w.now, c, spec, if ok then Recorded else Over) && w.now.calls[c].fate == (if ok then DidSucceed else DidFail)
    ensures w.now.completed == old(w.now).completed
    ensures w.now.calls[c].decision == old(w.now).calls[c].decision && w.now.calls[c].decision.Some?
    ensures old(w.now).journal <= w.now.journal && |w.now.journal| == |old(w.now).journal| + 1
    ensures EndsOf(w.now.journal, |old(w.now).journal|, w.now.calls[c].decision.value, spec, ok, around)
  {
    hide World.Valid, Legal, Signs, Next, Sealed, EndsOf, Get, IsText, Ends, WithOutcome;
    OnRecord(w, c);
    var stamp := around.stamp(w.now);
    var (e, entry) := Sealed(w.p, OutcomeOfCall(w.now, c, around), stamp, around.sign, w.now.journal);
    CanRecord(w.p, w.trusted, w.now, c, around, stamp);
    w.Take(RecordOutcome(c, e, entry), WithOutcome(w.now, c, e));
  }

  /** Appends the outcome; when that fails the evidence is incomplete, and when only a
      witness sink fails the outcome is on record and its key is not marked. */
  method RecordOutcomeOrRaise(w: World, around: Surroundings, c: nat, spec: Spec, ok: bool) returns (raised: Option<Told>)
    requires w.Valid() && Behaves(w.p, w.trusted, around, c, spec) && At(w.now, c, spec, Returned(ok))
    modifies w
    ensures w.Valid() && old(w.states) <= w.states && Ends(w.steps, c) == Ends(old(w.steps), c)
    ensures raised ==
      match around.outcome case Lands => None case LandsUnshipped => Some(OutcomeUnshipped(ok)) case NeverLands => Some(EvidenceIncomplete)
    ensures c in w.now.calls && w.now.calls[c].spec == spec && w.now.completed == old(w.now).completed
    ensures w.now.calls[c].phase == if raised.None? && ok then Recorded else Over
    ensures w.now.calls[c].fate == if around.outcome.NeverLands? then NoOutcome else if ok then DidSucceed else DidFail
    ensures w.now.calls[c].decision == old(w.now).calls[c].decision && w.now.calls[c].decision.Some?
    ensures around.outcome.NeverLands? ==> w.now.journal == old(w.now).journal
    ensures !around.outcome.NeverLands? ==>
      var before := old(w.now).journal;
      && before <= w.now.journal && |w.now.journal| == |before| + 1
      && EndsOf(w.now.journal, |before|, w.now.calls[c].decision.value, spec, ok, around)
  {
    hide World.Valid, Behaves, EndsOf, Get, Ends;
    OnRecord(w, c);
    if around.outcome.NeverLands? {
      StopCall(w, c, spec);
      return Some(EvidenceIncomplete);
    }
    AppendOutcome(w, around, c, spec, ok);
    raised := None;
    if around.outcome.LandsUnshipped? {
      StopCall(w, c, spec);
      raised := Some(OutcomeUnshipped(ok));
    }
  }

  lemma OnRecord(w: World, c: nat)
    requires w.Valid() && c in w.now.calls && w.now.calls[c].phase.Returned?
    ensures w.now.calls[c].decision.Some? && w.now.calls[c].decision.value < |w.now.journal|
    ensures IsText(Get(w.now.journal[w.now.calls[c].decision.value], EventId)) && w.now.calls[c].fate == NoOutcome
  {
    DecisionOnRecord(w.p, w.trusted, w.states, w.steps, c);
  }

  /** The process remembers the key, and its other keys as far as the cap leaves room. */
  method MarkCompletedCall(w: World, c: nat, spec: Spec)
    requires w.Valid() && At(w.now, c, spec, Recorded)
    modifies w
    ensures w.Valid() && old(w.states) <= w.states && Ends(w.steps, c) == Ends(old(w.steps), c) && At(w.now, c, spec, Over)
    ensures w.now.calls[c].fate == old(w.now).calls[c].fate && w.now.calls[c].decision == old(w.now).calls[c].decision
    ensures w.now.journal == old(w.now).journal
    ensures forall q :: spec.key.None? || q != spec.process ==> CompletedBy(w.now, q) == CompletedBy(old(w.now), q)
    ensures spec.key.Some? ==> (spec.contract.actionName, spec.key.value) in CompletedBy(w.now, spec.process)
    ensures spec.key.Some? ==>
      CompletedBy(w.now, spec.process) == Remember(CompletedBy(old(w.now), spec.process), (spec.contract.actionName, spec.key.value))
  {
    hide World.Valid;
    w.Take(MarkCompleted(c), w.now.(calls := w.now.calls[c := w.now.calls[c].(phase := Over)],
                                    completed := if spec.key.Some? then Marked(w.now, spec) else w.now.completed));
  }

  // ---- The call --------------------------------------------------------

  /** What the caller was told, against what really happened. */
  predicate TellsFate(told: Told, fate: Fate) {
    match told
    case ReturnedResult => fate == DidSucceed
    case RaisedOwnError => fate == DidFail
    case WasDuplicate => fate == WasDenied
    case ActionDenied => fate == WasDenied
    case DryRunDone => fate == WasDryRun
    case ApprovalError => fate == Undecided
    case JournalFailed => fate == Undecided
    case DecisionUnshipped => fate == WasDenied || fate == WasDryRun || fate == NoOutcome
    case EvidenceIncomplete => fate == NoOutcome
    case OutcomeUnshipped(ok) => fate == if ok then DidSucceed else DidFail
    case Killed => fate == NoOutcome
    case ContractError => false
  }

  /** When the callable runs: the pre-check found the key free, the provider said yes, the
      decision is durable and shipped, the locked check found the key free, and it is no dry run. */
  predicate Goes(around: Surroundings, spec: Spec, taken: bool, duplicate: bool) {
    !taken && around.approval == Answers(true) && around.decision.Lands? && !duplicate && !spec.dryRun
  }

  /** The exact condition of every answer, with what the pre-check and the locked check found. */
  predicate ToldExactly(told: Told, around: Surroundings, spec: Spec, taken: bool, duplicate: bool) {
    var asked := !taken && !around.approval.ApprovalFails?;
    var runs := Goes(around, spec, taken, duplicate);
    && (told == ApprovalError <==> !taken && around.approval.ApprovalFails?)
    && (told == JournalFailed <==> (taken && around.denial.NeverLands?) || (asked && around.decision.NeverLands?))
    && (told == DecisionUnshipped <==> (taken && around.denial.LandsUnshipped?) || (asked && around.decision.LandsUnshipped?))
    && (told == WasDuplicate <==> (taken && around.denial.Lands?) || (asked && around.decision.Lands? && duplicate))
    && (told == ActionDenied <==> !taken && around.approval == Answers(false) && around.decision.Lands? && !duplicate)
    && (told == DryRunDone <==> !taken && around.approval == Answers(true) && around.decision.Lands? && !duplicate && spec.dryRun)
    && (told == Killed <==> runs && around.ending.Dies?)
    && (told == ReturnedResult <==> runs && around.ending.Succeeds? && around.outcome.Lands?)
    && (told == RaisedOwnError <==> runs && around.ending.Fails? && around.outcome.Lands?)
    && (told == EvidenceIncomplete <==> runs && !around.ending.Dies? && around.outcome.NeverLands?)
    && (told == OutcomeUnshipped(true) <==> runs && around.ending.Succeeds? && around.outcome.LandsUnshipped?)
    && (told == OutcomeUnshipped(false) <==> runs && around.ending.Fails? && around.outcome.LandsUnshipped?)
    && told != ContractError
  }

  /** The exact condition of every fate. */
  predicate FatesExactly(fate: Fate, around: Surroundings, spec: Spec, taken: bool, duplicate: bool) {
    var decided := !taken && !around.approval.ApprovalFails? && !around.decision.NeverLands?;
    var ran := Goes(around, spec, taken, duplicate) && !around.outcome.NeverLands?;
    && (fate == WasDenied <==>
          (taken && !around.denial.NeverLands?) || (decided && (duplicate || around.approval == Answers(false))))
    && (fate == WasDryRun <==> decided && !duplicate && around.approval == Answers(true) && spec.dryRun)
    && (fate == DidSucceed <==> ran && around.ending.Succeeds?)
    && (fate == DidFail <==> ran && around.ending.Fails?)
    && (fate == Undecided <==> if taken then around.denial.NeverLands? else !decided)
  }

  /** The check under the lock, the decision event, and what the caller is told of it. */
  method Settle(w: World, around: Surroundings, c: nat, spec: Spec, request: Request) returns (stopped: Option<Told>)
    requires w.Valid() && Behaves(w.p, w.trusted, around, c, spec) && request.details.Keys <= DECISION_DETAILS
    requires around.approval.Answers? && Waits(w.now, c, spec, Approved(around.approval.allowed))
    modifies w
    ensures w.Valid() && old(w.states) <= w.states && Ends(w.steps, c) == Ends(old(w.steps), c)
    ensures c in w.now.calls && w.now.calls[c].spec == spec
    ensures stopped != Some(ContractError)
    ensures stopped.None? <==> Goes(around, spec, false, IsDuplicate(w.p, old(w.now), spec))
    ensures stopped.None? ==> w.now.calls[c].phase == Executing && w.now.calls[c].fate == NoOutcome
    ensures stopped.Some? ==>
      && w.now.calls[c].phase == Over && TellsFate(stopped.value, w.now.calls[c].fate)
      && ToldExactly(stopped.value, around, spec, false, IsDuplicate(w.p, old(w.now), spec))
      && FatesExactly(w.now.calls[c].fate, around, spec, false, IsDuplicate(w.p, old(w.now), spec))
    ensures !around.decision.NeverLands? ==>
      && Decides(old(w.now).journal, w.now, c)
      && DecisionStands(w.now.journal, |old(w.now).journal|, w.p, old(w.now), around, spec, request)
  {
    hide World.Valid, Behaves, IsDuplicate, SaysOf, LockedPrior, Ends, ToldExactly, FatesExactly, TellsFate;
    ghost var duplicate := IsDuplicate(w.p, w.now, spec);
    SettledExactly(around, spec, duplicate);
    var deciding := DecideCall(w, around, c, spec, request);
    if deciding.NotAppended? || around.decision.LandsUnshipped? {
      StopCall(w, c, spec);
      return Some(if deciding.NotAppended? then JournalFailed else DecisionUnshipped);
    }
    if deciding.Duplicate? {
      return Some(WasDuplicate);
    }
    if !around.approval.allowed {
      return Some(ActionDenied);
    }
    if spec.dryRun {
      return Some(DryRunDone);
    }
    stopped := None;
  }

  /** The answer and the fate that follow from the locked check. */
  lemma SettledExactly(around: Surroundings, spec: Spec, duplicate: bool)
    requires around.approval.Answers?
    ensures var d, allowed := around.decision, around.approval.allowed;
      var fate := if d.NeverLands? then Undecided
                  else if duplicate || !allowed then WasDenied else if spec.dryRun then WasDryRun else NoOutcome;
      var told := if d.NeverLands? then JournalFailed else if d.LandsUnshipped? then DecisionUnshipped
                  else if duplicate then WasDuplicate else if !allowed then ActionDenied else DryRunDone;
      !Goes(around, spec, false, duplicate) ==>
        ToldExactly(told, around, spec, false, duplicate) && FatesExactly(fate, around, spec, false, duplicate) && TellsFate(told, fate)
  {
  }

  lemma FailedApproval(around: Surroundings, spec: Spec)
    ensures around.approval.ApprovalFails? ==> forall duplicate ::
      && ToldExactly(ApprovalError, around, spec, false, duplicate) && FatesExactly(Undecided, around, spec, false, duplicate)
    ensures forall fate, duplicate :: around.approval == Answers(false) && FatesExactly(fate, around, spec, false, duplicate) ==>
      fate == WasDenied || fate == Undecided
    ensures forall fate, duplicate :: fate != Undecided && FatesExactly(fate, around, spec, false, duplicate) ==>
      around.approval.Answers? && !around.decision.NeverLands?
  {
  }

  lemma TurnedAwayIsTold(around: Surroundings, spec: Spec)
    ensures forall told, duplicate ::
      (match around.denial
       case Lands => told == WasDuplicate
       case LandsUnshipped => told == DecisionUnshipped
       case NeverLands => told == JournalFailed) ==> ToldExactly(told, around, spec, true, duplicate)
    ensures forall fate, duplicate ::
      fate == (if around.denial.NeverLands? then Undecided else WasDenied) ==> FatesExactly(fate, around, spec, true, duplicate)
    ensures TellsFate(WasDuplicate, WasDenied) && TellsFate(DecisionUnshipped, WasDenied) && TellsFate(JournalFailed, Undecided)
  {
  }

  lemma EndIsTold(told: Told, fate: Fate, around: Surroundings, spec: Spec, taken: bool, duplicate: bool)
    requires Goes(around, spec, taken, duplicate) && ToldAtTheEnd(told, around)
    requires var ended := !around.ending.Dies? && !around.outcome.NeverLands?;
      fate == if !ended then NoOutcome else if around.ending.Succeeds? then DidSucceed else DidFail
    ensures ToldExactly(told, around, spec, taken, duplicate) && FatesExactly(fate, around, spec, taken, duplicate)
  {
  }

  lemma FatesMean(fate: Fate, around: Surroundings, spec: Spec, taken: bool, duplicate: bool)
    requires FatesExactly(fate, around, spec, taken, duplicate)
    ensures fate in {NoOutcome, DidSucceed, DidFail} ==> around.approval == Answers(true)
    ensures fate == DidSucceed || fate == DidFail ==> Goes(around, spec, taken, duplicate)
  {
  }

  /** Approval, then the decision event. `locked` is the moment of the check under the lock. */
  method Authorize(w: World, around: Surroundings, c: nat, spec: Spec, request: Request)
    returns (stopped: Option<Told>, ghost locked: nat)
    requires w.Valid() && Behaves(w.p, w.trusted, around, c, spec) && request.details.Keys <= DECISION_DETAILS
    requires Waits(w.now, c, spec, Preparing)
    modifies w
    ensures w.Valid() && old(w.states) <= w.states && Ends(w.steps, c) == Ends(old(w.steps), c)
    ensures |old(w.states)| <= locked + 1 <= |w.states|
    ensures c in w.now.calls && w.now.calls[c].spec == spec
    ensures stopped.None? ==> around.approval == Answers(true)
    ensures around.approval == Answers(false) ==> w.now.calls[c].fate == WasDenied || w.now.calls[c].fate == Undecided
    ensures w.now.calls[c].fate != Undecided ==> around.approval.Answers? && !around.decision.NeverLands?
    ensures stopped != Some(ContractError)
    ensures stopped.None? <==> Goes(around, spec, false, IsDuplicate(w.p, w.states[locked], spec))
    ensures stopped.None? ==> w.now.calls[c].phase == Executing && w.now.calls[c].fate == NoOutcome
    ensures stopped.Some? ==>
      && w.now.calls[c].phase == Over && TellsFate(stopped.value, w.now.calls[c].fate)
      && ToldExactly(stopped.value, around, spec, false, IsDuplicate(w.p, w.states[locked], spec))
      && FatesExactly(w.now.calls[c].fate, around, spec, false, IsDuplicate(w.p, w.states[locked], spec))
    ensures around.approval.Answers? && !around.decision.NeverLands? ==>
      && Decides(w.states[locked].journal, w.now, c)
      && DecisionStands(w.now.journal, |w.states[locked].journal|, w.p, w.states[locked], around, spec, request)
  {
    hide World.Valid, Behaves, IsDuplicate, DecisionStands, ToldExactly, FatesExactly, Ends;
    FailedApproval(around, spec);
    w.HistoryEnds();
    locked := |w.states| - 1;
    if around.approval.ApprovalFails? {
      StopCall(w, c, spec);
      return Some(ApprovalError), locked;
    }
    Ask(w, c, spec, around.approval.allowed);
    LetOthers(w, around, c, spec);
    w.HistoryEnds();
    locked := |w.states| - 1;
    stopped := Settle(w, around, c, spec, request);
  }

  /** Everything before the callable runs: nothing, if the call goes ahead. */
  method PrepareExecution(w: World, around: Surroundings, c: nat, spec: Spec, request: Request)
    returns (stopped: Option<Told>, ghost looked: nat, ghost locked: nat)
    requires w.Valid() && Behaves(w.p, w.trusted, around, c, spec) && request.details.Keys <= DECISION_DETAILS
    requires c !in w.now.calls && spec.key != Some(Other(""))
    modifies w
    ensures w.Valid() && old(w.states) <= w.states && Ends(w.steps, c) == Ends(old(w.steps), c)
    ensures |old(w.states)| <= looked + 1 <= locked + 1 <= |w.states|
    ensures stopped == Some(ContractError) <==> around.refuses
    ensures around.refuses ==> w.now == old(w.now)
    ensures !around.refuses ==> c in w.now.calls && w.now.calls[c].spec == spec
    ensures stopped.None? ==> w.now.calls[c].phase == Executing && w.now.calls[c].fate == NoOutcome
    ensures !around.refuses ==>
      var taken, duplicate := TakenAt(w.states[looked], around, spec), IsDuplicate(w.p, w.states[locked], spec);
      && (stopped.None? <==> Goes(around, spec, taken, duplicate))
      && (stopped.Some? ==>
            && w.now.calls[c].phase == Over && TellsFate(stopped.value, w.now.calls[c].fate)
            && ToldExactly(stopped.value, around, spec, taken, duplicate)
            && FatesExactly(w.now.calls[c].fate, around, spec, taken, duplicate))
    ensures !around.refuses && w.now.calls[c].fate != Undecided ==>
      && w.now.calls[c].decision.Some?
      && if TakenAt(w.states[looked], around, spec)
         then DenialStands(w.now.journal, w.now.calls[c].decision.value, w.states[looked], around, spec, request)
         else DecisionStands(w.now.journal, w.now.calls[c].decision.value, w.p, w.states[locked], around, spec, request)
  {
    hide World.Valid, Behaves, IsDuplicate, DenialStands, DecisionStands, TakenAt, Ends, ToldExactly, FatesExactly, TellsFate;
    TurnedAwayIsTold(around, spec);
    w.HistoryEnds();
    looked := |w.states| - 1;
    locked := looked;
    if around.refuses {
      return Some(ContractError), looked, locked;
    }
    BeginCall(w, c, spec);
    LetOthers(w, around, c, spec);
    w.HistoryEnds();
    looked := |w.states| - 1;
    locked := looked;
    var turnedAway := PreCheck(w, around, c, spec, request);
    if turnedAway.Some? {
      return turnedAway, looked, locked;
    }
    LetOthers(w, around, c, spec);
    stopped, locked := Authorize(w, around, c, spec, request);
  }

  /** The callable and its outcome, once nothing stands in the way. */
  method RunCallable(w: World, around: Surroundings, c: nat, spec: Spec) returns (told: Told)
    requires w.Valid() && Behaves(w.p, w.trusted, around, c, spec)
    requires At(w.now, c, spec, Executing) && w.now.calls[c].fate == NoOutcome && w.now.calls[c].decision.Some?
    modifies w
    ensures w.Valid() && old(w.states) <= w.states && old(w.now).journal <= w.now.journal
    ensures At(w.now, c, spec, Over) && w.now.calls[c].decision == old(w.now).calls[c].decision
    ensures TellsFate(told, w.now.calls[c].fate)
    ensures ToldAtTheEnd(told, around)
    ensures var ended := !around.ending.Dies? && !around.outcome.NeverLands?;
      w.now.calls[c].fate == if !ended then NoOutcome else if around.ending.Succeeds? then DidSucceed else DidFail
    ensures Ends(w.steps, c) == Ends(old(w.steps), c) + if around.ending.Dies? then [] else [around.ending.Succeeds?]
    ensures w.now.calls[c].fate != NoOutcome ==>
      exists o: nat :: EndsOf(w.now.journal, o, w.now.calls[c].decision.value, spec, around.ending.Succeeds?, around)
    ensures told == ReturnedResult && spec.key.Some? ==>
      (spec.contract.actionName, spec.key.value) in CompletedBy(w.now, spec.process)
  {
    hide World.Valid, Behaves, EndsOf, Ends;
    LetOthers(w, around, c, spec);
    if around.ending.Dies? {
      StopCall(w, c, spec);
      return Killed;
    }
    ReturnFrom(w, c, spec, around.ending.Succeeds?);
    told := Conclude(w, around, c, spec);
  }

  /** The outcome of a callable that ended, the mark of a completed key, and the caller's answer. */
  method Conclude(w: World, around: Surroundings, c: nat, spec: Spec) returns (told: Told)
    requires w.Valid() && Behaves(w.p, w.trusted, around, c, spec) && !around.ending.Dies?
    requires At(w.now, c, spec, Returned(around.ending.Succeeds?)) && w.now.calls[c].decision.Some?
    modifies w
    ensures w.Valid() && old(w.states) <= w.states && old(w.now).journal <= w.now.journal
    ensures At(w.now, c, spec, Over) && w.now.calls[c].decision == old(w.now).calls[c].decision
    ensures Ends(w.steps, c) == Ends(old(w.steps), c)
    ensures TellsFate(told, w.now.calls[c].fate) && ToldAtTheEnd(told, around)
    ensures w.now.calls[c].fate ==
      if around.outcome.NeverLands? then NoOutcome else if around.ending.Succeeds? then DidSucceed else DidFail
    ensures w.now.calls[c].fate != NoOutcome ==>
      exists o: nat :: EndsOf(w.now.journal, o, w.now.calls[c].decision.value, spec, around.ending.Succeeds?, around)
    ensures told == ReturnedResult && spec.key.Some? ==>
      (spec.contract.actionName, spec.key.value) in CompletedBy(w.now, spec.process)
  {
    hide World.Valid, Behaves, EndsOf, Ends;
    var ok := around.ending.Succeeds?;
    LetOthers(w, around, c, spec);
    ghost var o := |w.now.journal|;
    var raised := RecordOutcomeOrRaise(w, around, c, spec, ok);
    if raised.Some? {
      return raised.value;
    }
    if !ok {
      return RaisedOwnError;
    }
    ghost var before := w.now.journal;
    LetOthers(w, around, c, spec);
    MarkCompletedCall(w, c, spec);
    OutcomeStands(before, w.now.journal, o, w.now.calls[c].decision.value, spec, ok, around);
    told := ReturnedResult;
  }

  /** The exact condition of every answer once the callable runs. */
  predicate ToldAtTheEnd(told: Told, around: Surroundings) {
    && (told == Killed <==> around.ending.Dies?)
    && (told == ReturnedResult <==> around.ending.Succeeds? && around.outcome.Lands?)
    && (told == RaisedOwnError <==> around.ending.Fails? && around.outcome.Lands?)
    && (told == EvidenceIncomplete <==> !around.ending.Dies? && around.outcome.NeverLands?)
    && (told == OutcomeUnshipped(true) <==> around.ending.Succeeds? && around.outcome.LandsUnshipped?)
    && (told == OutcomeUnshipped(false) <==> around.ending.Fails? && around.outcome.LandsUnshipped?)
    && told in {Killed, ReturnedResult, RaisedOwnError, EvidenceIncomplete, OutcomeUnshipped(true), OutcomeUnshipped(false)}
  }

  /** One guarded call, from binding to the last record. `looked` and `locked` are the
      moments of the unlocked pre-check and of the check under the lock. */
  method ExecuteSync(w: World, around: Surroundings, c: nat, spec: Spec, request: Request)
    returns (told: Told, ghost looked: nat, ghost locked: nat)
    requires w.Valid() && Behaves(w.p, w.trusted, around, c, spec) && request.details.Keys <= DECISION_DETAILS
    requires c !in w.now.calls && spec.key != Some(Other(""))
    modifies w
    ensures w.Valid() && old(w.states) <= w.states
    ensures |old(w.states)| <= looked + 1 <= locked + 1 <= |w.states|
    ensures told == ContractError <==> around.refuses
    ensures around.refuses ==> w.now == old(w.now)
    ensures !around.refuses ==>
      && c in w.now.calls && w.now.calls[c].spec == spec && w.now.calls[c].phase == Over
      && TellsFate(told, w.now.calls[c].fate)
    // Only an approved call executes, and an approved call that nothing stops does.
    ensures !around.refuses && w.now.calls[c].fate in {NoOutcome, DidSucceed, DidFail} ==> around.approval == Answers(true)
    ensures !around.refuses ==>
      var taken, duplicate := TakenAt(w.states[looked], around, spec), IsDuplicate(w.p, w.states[locked], spec);
      && ToldExactly(told, around, spec, taken, duplicate)
      && FatesExactly(w.now.calls[c].fate, around, spec, taken, duplicate)
      && Ends(w.steps, c) == Ends(old(w.steps), c)
           + if Goes(around, spec, taken, duplicate) && !around.ending.Dies? then [around.ending.Succeeds?] else []
    // What is on record afterwards.
    ensures !around.refuses && w.now.calls[c].fate != Undecided ==>
      && w.now.calls[c].decision.Some?
      && if TakenAt(w.states[looked], around, spec)
         then DenialStands(w.now.journal, w.now.calls[c].decision.value, w.states[looked], around, spec, request)
         else DecisionStands(w.now.journal, w.now.calls[c].decision.value, w.p, w.states[locked], around, spec, request)
    ensures !around.refuses && w.now.calls[c].fate in {DidSucceed, DidFail} ==>
      && w.now.calls[c].decision.Some?
      && exists o: nat :: EndsOf(w.now.journal, o, w.now.calls[c].decision.value, spec, w.now.calls[c].fate.DidSucceed?, around)
    ensures told == ReturnedResult && spec.key.Some? ==>
      (spec.contract.actionName, spec.key.value) in CompletedBy(w.now, spec.process)
  {
    hide World.Valid, Behaves, IsDuplicate, DenialStands, DecisionStands, EndsOf, TakenAt, Ends, ToldExactly, FatesExactly, ToldAtTheEnd;
    var stopped;
    stopped, looked, locked := PrepareExecution(w, around, c, spec, request);
    ghost var taken, duplicate := TakenAt(w.states[looked], around, spec), IsDuplicate(w.p, w.states[locked], spec);
    if stopped.Some? {
      if !around.refuses {
        FatesMean(w.now.calls[c].fate, around, spec, taken, duplicate);
      }
      return stopped.value, looked, locked;
    }
    ghost var before := w.now.journal;
    told := RunCallable(w, around, c, spec);
    RecordStands(before, w.now.journal, w.p, w.states[locked], around, spec, request);
    EndIsTold(told, w.now.calls[c].fate, around, spec, taken, duplicate);
    FatesMean(w.now.calls[c].fate, around, spec, taken, duplicate);
  }
}
