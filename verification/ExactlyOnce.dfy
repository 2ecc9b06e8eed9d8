/** What the reservation protocol guarantees over whole runs. */
module ExactlyOnce {
  import opened Evidence
  import opened Writer
  import opened Facts
  import opened Recorded
  import opened Reservation

  // ---- Every reachable state -------------------------------------------

  lemma InitialHolds(p: Platform, s: State)
    requires Initial(s)
    ensures Inv(p, s)
  {
  }

  /** The invariant holds at every moment of every interleaving. */
  lemma {:induction false} InvariantOverRuns(p: Platform, trusted: set<Text>, states: seq<State>, steps: seq<Step>, n: nat)
    requires Run(p, trusted, states, steps) && n < |states|
    ensures Inv(p, states[n])
  {
    hide Inv, Next;
    if n == 0 {
      InitialHolds(p, states[0]);
    } else {
      InvariantOverRuns(p, trusted, states, steps, n - 1);
      StepKeeps(p, trusted, states[n - 1], steps[n - 1], states[n]);
    }
  }

  lemma StepAppendsHonestly(p: Platform, trusted: set<Text>, s: State, step: Step, s': State)
    requires Next(p, trusted, s, step, s') && Produced(p, trusted, s.journal)
    ensures Produced(p, trusted, s'.journal)
  {
    hide WrittenAs, Produced, IsDuplicate, CompletedIn, DecisionEntry, Decided, Marked;
    if s'.journal != s.journal {
      assert WrittenAs(p, trusted, s.journal, step.e, step.entry) && s'.journal == s.journal + [step.e];
      ProducedAppend(p, trusted, s.journal, step.e);
    }
  }

  /** The journal of every reachable state was produced by honest appends. */
  lemma {:induction false} JournalsAreProduced(p: Platform, trusted: set<Text>, states: seq<State>, steps: seq<Step>, n: nat)
    requires Run(p, trusted, states, steps) && n < |states|
    ensures Produced(p, trusted, states[n].journal)
  {
    hide Next, Written;
    if n > 0 {
      JournalsAreProduced(p, trusted, states, steps, n - 1);
      StepAppendsHonestly(p, trusted, states[n - 1], steps[n - 1], states[n]);
    }
  }

  // ---- Resolutions only on calls that have ended -----------------------

  predicate Running(call: Call) { call.phase.Executing? || call.phase.Returned? }

  predicate NotCompleted(f: Fact) { IsResolution(f) && f.resolution == W(CONFIRMED_NOT_COMPLETED) }

  /** `confirmed_not_completed` is recorded only for calls that are no longer running. */
  predicate Disciplined(s: State, step: Step) {
    step.Resolve? && step.entry.body.ResolutionBody? && !step.entry.body.completed ==>
      forall c :: c in s.calls && s.calls[c].decision == Some(step.d) ==> !Running(s.calls[c])
  }

  ghost predicate DisciplinedRun(p: Platform, trusted: set<Text>, states: seq<State>, steps: seq<Step>) {
    Run(p, trusted, states, steps) && forall i :: 0 <= i < |steps| ==> Disciplined(states[i], steps[i])
  }

  /** No running call has been declared not completed. */
  predicate RunningUnreleased(fs: seq<Fact>, calls: map<nat, Call>) {
    forall c, i | c in calls && Running(calls[c]) && calls[c].decision.Some? && calls[c].decision.value < |fs| && 0 <= i < |fs| ::
      NotCompleted(fs[i]) ==> fs[i].ref != fs[calls[c].decision.value].id
  }

  /** No outcome follows a declaration that its call did not complete. */
  predicate OutcomesUnreleased(fs: seq<Fact>) {
    forall i, j :: 0 <= i < j < |fs| && NotCompleted(fs[i]) && IsOutcome(fs[j]) ==> fs[i].ref != fs[j].ref
  }

  ghost predicate DisciplinedInv(p: Platform, s: State) {
    Inv(p, s) && RunningUnreleased(FactsOf(s.journal), s.calls) && OutcomesUnreleased(FactsOf(s.journal))
  }

  /** An append that resolves nothing: every running call ran before, or is the one just decided. */
  lemma UnreleasedMoves(fs: seq<Fact>, f: Fact, calls: map<nat, Call>, after: map<nat, Call>)
    requires CallsFit(fs, calls) && IdsDistinct(fs + [f]) && ResolutionsFit(fs)
    requires RunningUnreleased(fs, calls) && !NotCompleted(f)
    requires forall d :: d in after && Running(after[d]) ==> (d in calls && after[d] == calls[d]) || after[d].decision == Some(|fs|)
    ensures RunningUnreleased(fs + [f], after)
  {
    var all := fs + [f];
    forall d, i | d in after && Running(after[d]) && after[d].decision.Some? && after[d].decision.value < |all| && 0 <= i < |all|
      ensures NotCompleted(all[i]) ==> all[i].ref != all[after[d].decision.value].id
    {
      if NotCompleted(all[i]) {
        assert all[i] == fs[i] && ResolutionFits(fs, i);
        var j :| 0 <= j < i && Resolvable(fs[j]) && fs[i].ref == fs[j].id;
        if after[d].decision.value == |fs| {
          assert all[j].id != all[|fs|].id;
        } else {
          assert CallFits(fs, calls[d]);
        }
      }
    }
  }

  lemma OutcomesUnreleasedAppend(fs: seq<Fact>, f: Fact)
    requires OutcomesUnreleased(fs)
    requires IsOutcome(f) ==> forall i :: 0 <= i < |fs| && NotCompleted(fs[i]) ==> fs[i].ref != f.ref
    ensures OutcomesUnreleased(fs + [f])
  {
  }

  lemma PhaseFreesRunning(fs: seq<Fact>, calls: map<nat, Call>, c: nat, call: Call)
    requires RunningUnreleased(fs, calls)
    requires Running(call) ==> c in calls && Running(calls[c]) && call.decision == calls[c].decision
    ensures RunningUnreleased(fs, calls[c := call])
  {
  }

  lemma QuietKeepsDiscipline(p: Platform, trusted: set<Text>, s: State, step: Step, s': State)
    requires DisciplinedInv(p, s) && Next(p, trusted, s, step, s') && s'.journal == s.journal
    ensures RunningUnreleased(FactsOf(s'.journal), s'.calls) && OutcomesUnreleased(FactsOf(s'.journal))
  {
    hide Inv, RunningUnreleased, OutcomesUnreleased, WrittenAs, IsDuplicate, CompletedIn, DecisionEntry, Decided, Marked, FactOf;
    PhaseFreesRunning(FactsOf(s.journal), s.calls, step.c, s'.calls[step.c]);
  }

  /** What a step that appends an event does to the facts. */
  lemma AppendingStep(p: Platform, trusted: set<Text>, s: State, step: Step, s': State)
    requires Next(p, trusted, s, step, s') && s'.journal != s.journal
    ensures step.PreCheckDenies? || step.Decide? || step.RecordOutcome? || step.Resolve? || step.Maintain?
    ensures s'.journal == s.journal + [step.e]
    ensures FactsOf(s'.journal) == FactsOf(s.journal) + [FactOf(step.e)]
    ensures WrittenAs(p, trusted, s.journal, step.e, step.entry)
  {
    hide WrittenAs, FactOf, IsDuplicate, CompletedIn, DecisionEntry, Decided, Marked;
    FactsAppend(s.journal, step.e);
  }

  lemma DecisionStepEffect(p: Platform, trusted: set<Text>, s: State, step: Step, s': State)
    requires Next(p, trusted, s, step, s') && (step.PreCheckDenies? || step.Decide?)
    ensures s'.journal == s.journal + [step.e] && IsDecision(FactOf(step.e))
    ensures s'.calls == s.calls[step.c := s'.calls[step.c]] && s'.calls[step.c].decision == Some(|s.journal|)
  {
    hide WrittenAs, FactOf, IsDuplicate, CompletedIn, Marked;
    DecisionIsRecorded(p, trusted, s.journal, step.e, step.entry);
  }

  lemma DecisionKeepsDiscipline(p: Platform, trusted: set<Text>, s: State, step: Step, s': State)
    requires DisciplinedInv(p, s) && Inv(p, s') && Next(p, trusted, s, step, s')
    requires step.PreCheckDenies? || step.Decide?
    ensures RunningUnreleased(FactsOf(s'.journal), s'.calls) && OutcomesUnreleased(FactsOf(s'.journal))
  {
    hide RunningUnreleased, OutcomesUnreleased, WrittenAs, Next, FactOf, CallsFit, OneOwner, DecisionsOwned, OutcomesFit,
         EndsRecorded, ResolutionsFit, ReservedSafely, MemoriesTrue, OneOutcome, IdsDistinct;
    DecisionStepEffect(p, trusted, s, step, s');
    AppendingStep(p, trusted, s, step, s');
    UnreleasedMoves(FactsOf(s.journal), FactOf(step.e), s.calls, s'.calls);
    OutcomesUnreleasedAppend(FactsOf(s.journal), FactOf(step.e));
  }

  lemma OutcomeStepEffect(p: Platform, trusted: set<Text>, s: State, step: Step, s': State)
    requires Inv(p, s) && Next(p, trusted, s, step, s') && step.RecordOutcome?
    ensures s'.journal == s.journal + [step.e] && IsOutcome(FactOf(step.e))
    ensures s'.calls == s.calls[step.c := s'.calls[step.c]] && !Running(s'.calls[step.c])
    ensures step.c in s.calls && Running(s.calls[step.c])
    ensures s.calls[step.c].decision.Some? && s.calls[step.c].decision.value < |s.journal|
    ensures FactOf(step.e).ref == FactsOf(s.journal)[s.calls[step.c].decision.value].id
  {
    hide WrittenAs, IsDuplicate, CompletedIn, Marked, Inv;
    OutcomeIsRecorded(p, trusted, s.journal, step.e, step.entry);
  }

  lemma OutcomeKeepsDiscipline(p: Platform, trusted: set<Text>, s: State, step: Step, s': State)
    requires DisciplinedInv(p, s) && Inv(p, s') && step.RecordOutcome? && Next(p, trusted, s, step, s')
    ensures RunningUnreleased(FactsOf(s'.journal), s'.calls) && OutcomesUnreleased(FactsOf(s'.journal))
  {
    hide OutcomesUnreleased, WrittenAs, Next, FactOf, CallsFit, OneOwner, DecisionsOwned, OutcomesFit,
         EndsRecorded, ResolutionsFit, ReservedSafely, MemoriesTrue, OneOutcome, IdsDistinct;
    OutcomeStepEffect(p, trusted, s, step, s');
    AppendingStep(p, trusted, s, step, s');
    OutcomesUnreleasedAppend(FactsOf(s.journal), FactOf(step.e));
    UnreleasedMoves(FactsOf(s.journal), FactOf(step.e), s.calls, s'.calls);
  }

  lemma ResolutionKeepsRunning(fs: seq<Fact>, f: Fact, calls: map<nat, Call>, d: nat)
    requires CallsFit(fs, calls) && IdsDistinct(fs) && RunningUnreleased(fs, calls)
    requires d < |fs| && f.ref == fs[d].id
    requires NotCompleted(f) ==> forall c :: c in calls && calls[c].decision == Some(d) ==> !Running(calls[c])
    ensures RunningUnreleased(fs + [f], calls)
  {
    var all := fs + [f];
    forall c, i | c in calls && Running(calls[c]) && calls[c].decision.Some? && calls[c].decision.value < |all|
        && 0 <= i < |all| && NotCompleted(all[i])
      ensures all[i].ref != all[calls[c].decision.value].id
    {
      assert CallFits(fs, calls[c]);
      assert i < |fs| ==> all[i] == fs[i];
      if i == |fs| {
        assert calls[c].decision.value != d;
      }
    }
  }

  lemma ResolutionStepEffect(p: Platform, trusted: set<Text>, s: State, step: Step, s': State)
    requires Next(p, trusted, s, step, s') && step.Resolve?
    ensures s'.journal == s.journal + [step.e] && s'.calls == s.calls && step.d < |s.journal| && IsResolution(FactOf(step.e))
    ensures FactOf(step.e).ref == FactsOf(s.journal)[step.d].id
    ensures step.entry.body.ResolutionBody? && (NotCompleted(FactOf(step.e)) <==> !step.entry.body.completed)
  {
    hide WrittenAs, IsDuplicate, CompletedIn, Marked;
    ResolutionIsRecorded(p, trusted, s.journal, step.e, step.entry);
  }

  lemma ResolutionKeepsDiscipline(p: Platform, trusted: set<Text>, s: State, step: Step, s': State)
    requires DisciplinedInv(p, s) && step.Resolve? && Next(p, trusted, s, step, s') && Disciplined(s, step)
    ensures RunningUnreleased(FactsOf(s'.journal), s'.calls) && OutcomesUnreleased(FactsOf(s'.journal))
  {
    hide OutcomesUnreleased, RunningUnreleased, WrittenAs, Next, FactOf, CallsFit, OneOwner, DecisionsOwned, OutcomesFit,
         EndsRecorded, ResolutionsFit, ReservedSafely, MemoriesTrue, OneOutcome, IdsDistinct;
    ResolutionStepEffect(p, trusted, s, step, s');
    AppendingStep(p, trusted, s, step, s');
    ResolutionKeepsRunning(FactsOf(s.journal), FactOf(step.e), s.calls, step.d);
    OutcomesUnreleasedAppend(FactsOf(s.journal), FactOf(step.e));
  }

  lemma MaintenanceStepEffect(p: Platform, trusted: set<Text>, s: State, step: Step, s': State)
    requires Next(p, trusted, s, step, s') && step.Maintain?
    ensures s'.journal == s.journal + [step.e] && s'.calls == s.calls
    ensures !IsResolution(FactOf(step.e)) && !IsOutcome(FactOf(step.e))
  {
    hide Payload, Finalize, Enabled, Fresh;
    WrittenFacts(p, trusted, s.journal, step.e, step.entry);
    assert FactOf(step.e).kind == W(KindWord(step.entry.body));
  }

  lemma MaintenanceKeepsDiscipline(p: Platform, trusted: set<Text>, s: State, step: Step, s': State)
    requires DisciplinedInv(p, s) && Inv(p, s') && step.Maintain? && Next(p, trusted, s, step, s')
    ensures RunningUnreleased(FactsOf(s'.journal), s'.calls) && OutcomesUnreleased(FactsOf(s'.journal))
  {
    hide OutcomesUnreleased, RunningUnreleased, WrittenAs, Next, FactOf, CallsFit, OneOwner, DecisionsOwned, OutcomesFit,
         EndsRecorded, ResolutionsFit, ReservedSafely, MemoriesTrue, OneOutcome, IdsDistinct;
    MaintenanceStepEffect(p, trusted, s, step, s');
    AppendingStep(p, trusted, s, step, s');
    UnreleasedMoves(FactsOf(s.journal), FactOf(step.e), s.calls, s'.calls);
    OutcomesUnreleasedAppend(FactsOf(s.journal), FactOf(step.e));
  }

  lemma DisciplinedStepKeeps(p: Platform, trusted: set<Text>, s: State, step: Step, s': State)
    requires DisciplinedInv(p, s) && Next(p, trusted, s, step, s') && Disciplined(s, step)
    ensures DisciplinedInv(p, s')
  {
    StepKeeps(p, trusted, s, step, s');
    hide Inv, RunningUnreleased, OutcomesUnreleased, Next;
    match step {
      case PreCheckDenies(_, _, _) => DecisionKeepsDiscipline(p, trusted, s, step, s');
      case Decide(_, _, _) => DecisionKeepsDiscipline(p, trusted, s, step, s');
      case RecordOutcome(_, _, _) => OutcomeKeepsDiscipline(p, trusted, s, step, s');
      case Resolve(_, _, _) => ResolutionKeepsDiscipline(p, trusted, s, step, s');
      case Maintain(_, _) => MaintenanceKeepsDiscipline(p, trusted, s, step, s');
      case _ =>
        QuietJournal(p, trusted, s, step, s');
        QuietKeepsDiscipline(p, trusted, s, step, s');
    }
  }

  lemma QuietJournal(p: Platform, trusted: set<Text>, s: State, step: Step, s': State)
    requires Next(p, trusted, s, step, s')
    requires step.Begin? || step.Approve? || step.Return? || step.MarkCompleted? || step.Stop? || step.Notice?
    ensures s'.journal == s.journal
  {
    hide Marked;
  }

  /** Along a disciplined run, no running call is ever declared not completed. */
  lemma {:induction false} DisciplineOverRuns(p: Platform, trusted: set<Text>, states: seq<State>, steps: seq<Step>, n: nat)
    requires DisciplinedRun(p, trusted, states, steps) && n < |states|
    ensures DisciplinedInv(p, states[n])
  {
    if n == 0 {
      InitialHolds(p, states[0]);
    } else {
      hide Inv, Next, RunningUnreleased, OutcomesUnreleased, Disciplined;
      DisciplineOverRuns(p, trusted, states, steps, n - 1);
      DisciplinedStepKeeps(p, trusted, states[n - 1], steps[n - 1], states[n]);
    }
  }

  // ---- Mutual exclusion and exactly-once -------------------------------

  /** The call's key, when its allowed decision really executes. */
  predicate HoldsKey(call: Call, action: Text, key: Text) {
    Running(call) && call.spec.contract.actionName == action && call.spec.key == Some(key)
  }

  lemma RunningReserves(fs: seq<Fact>, call: Call, action: Text, key: Text)
    requires CallFits(fs, call) && HoldsKey(call, action, key)
    ensures call.decision.Some? && call.decision.value < |fs| && Reserves(fs[call.decision.value], action, key)
  {
  }

  /** Nothing has released a decision that was never declared not completed. */
  lemma UnresolvedNotReleased(p: Platform, fs: seq<Fact>, n: nat, id: Text)
    requires ShowsTexts(p) && ResolutionsFit(fs) && n <= |fs|
    requires forall i :: 0 <= i < n && NotCompleted(fs[i]) ==> fs[i].ref != Str(id)
    ensures !Released(p, fs, n, id)
  {
    assert p.show(Str(Known(CONFIRMED_COMPLETED))) == Known(CONFIRMED_COMPLETED);
  }

  lemma FirstById(fs: seq<Fact>, j: nat)
    requires IdsDistinct(fs) && j < |fs| && IsDecision(fs[j])
    ensures FirstUnderId(fs, j)
  {
  }

  /** A running call blocks its key from the moment it reserved it. */
  lemma RunningBlocks(p: Platform, s: State, c: nat, n: nat, action: Text, key: Text)
    requires ShowsTexts(p) && DisciplinedInv(p, s) && c in s.calls && HoldsKey(s.calls[c], action, key)
    requires s.calls[c].decision.Some? && s.calls[c].decision.value < n <= |s.journal|
    ensures Blocks(p, FactsOf(s.journal), n, s.calls[c].decision.value, action, key)
  {
    hide CallFits, CallsFit, FactOf, FactsOf, IdsDistinct, OneOwner, OutcomesFit, FirstUnderId, DecisionsOwned, ReservedSafely,
         MemoriesTrue, EndsRecorded, OneOutcome, ResolutionsFit, Reserves, Released;
    var fs, call, j := FactsOf(s.journal), s.calls[c], s.calls[c].decision.value;
    RunningFacts(p, s, c, action, key);
    forall i | 0 <= i < n ensures !OutcomeOf(fs[i], fs[j].id.t) {
      if OutcomeOf(fs[i], fs[j].id.t) {
        OutcomeHasEnded(fs, s.calls, c, i);
      }
    }
    UnresolvedNotReleased(p, fs, n, fs[j].id.t);
  }

  lemma RunningFacts(p: Platform, s: State, c: nat, action: Text, key: Text)
    requires DisciplinedInv(p, s) && c in s.calls && HoldsKey(s.calls[c], action, key)
    ensures s.calls[c].decision.Some? && s.calls[c].decision.value < |s.journal| && s.calls[c].fate == NoOutcome
    ensures var fs, j := FactsOf(s.journal), s.calls[c].decision.value;
      && Reserves(fs[j], action, key) && IsText(fs[j].id) && FirstUnderId(fs, j)
      && forall i :: 0 <= i < |fs| && NotCompleted(fs[i]) ==> fs[i].ref != Str(fs[j].id.t)
  {
    var fs, call := FactsOf(s.journal), s.calls[c];
    assert CallFits(fs, call);
    RunningReserves(fs, call, action, key);
    FirstById(fs, call.decision.value);
    hide FactOf, OneOwner, OutcomesFit, FirstUnderId, DecisionsOwned, ReservedSafely, MemoriesTrue, EndsRecorded, OneOutcome, ResolutionsFit;
  }

  lemma OneRunning(p: Platform, s: State, c: nat, d: nat, action: Text, key: Text)
    requires ShowsTexts(p) && DisciplinedInv(p, s) && c in s.calls && d in s.calls
    requires HoldsKey(s.calls[c], action, key) && HoldsKey(s.calls[d], action, key)
    ensures c == d
  {
    var fs := FactsOf(s.journal);
    assert CallFits(fs, s.calls[c]) && CallFits(fs, s.calls[d]);
    RunningReserves(fs, s.calls[c], action, key);
    RunningReserves(fs, s.calls[d], action, key);
    var i, j := s.calls[c].decision.value, s.calls[d].decision.value;
    assert c != d ==> i != j;
    hide CallFits, CallsFit, Blocks, FactOf, HoldsKey, OneOwner;
    if i < j {
      RunningBlocks(p, s, c, j, action, key);
    } else if j < i {
      RunningBlocks(p, s, d, i, action, key);
    }
  }

  /** Mutual exclusion: two calls with the same action and key are never both
      between their allowed decision and their end. */
  lemma NeverBothRunning(p: Platform, trusted: set<Text>, states: seq<State>, steps: seq<Step>, n: nat, c: nat, d: nat, action: Text, key: Text)
    requires ShowsTexts(p) && DisciplinedRun(p, trusted, states, steps) && n < |states|
    requires c in states[n].calls && d in states[n].calls
    requires HoldsKey(states[n].calls[c], action, key) && HoldsKey(states[n].calls[d], action, key)
    ensures c == d
  {
    hide DisciplinedInv;
    DisciplineOverRuns(p, trusted, states, steps, n);
    OneRunning(p, states[n], c, d, action, key);
  }

  /** A decision whose outcome comes later was never released before it. */
  lemma SucceededBlocks(p: Platform, s: State, i: nat, n: nat, action: Text, key: Text)
    requires ShowsTexts(p) && DisciplinedInv(p, s) && i < n <= |s.journal|
    requires Completes(FactsOf(s.journal), |s.journal|, i, action, key)
    ensures Blocks(p, FactsOf(s.journal), n, i, action, key)
  {
    var fs, id := FactsOf(s.journal), FactsOf(s.journal)[i].id.t;
    var o :| 0 <= o < |fs| && OutcomeOf(fs[o], id) && fs[o].status == W(SUCCEEDED);
    if o < n {
      assert HasSucceeded(fs, n, id);
    } else {
      assert forall k :: 0 <= k < n && IsOutcome(fs[k]) ==> fs[k].ref != fs[o].ref;
      assert forall k :: 0 <= k < n && NotCompleted(fs[k]) ==> fs[k].ref != fs[o].ref;
      hide FactOf, IdsDistinct, OneOwner, OutcomesFit, FirstUnderId, CallsFit, OutcomesUnreleased, RunningUnreleased, OneOutcome,
           DecisionsOwned, EndsRecorded, ReservedSafely, MemoriesTrue, ResolutionsFit, HasSucceeded;
      UnresolvedNotReleased(p, fs, n, id);
      assert !HasOutcome(fs, n, id);
    }
  }

  /** Exactly once: in a disciplined run two decisions with the same action and key
      never both have a succeeded outcome. */
  lemma NeverBothSucceeded(p: Platform, trusted: set<Text>, states: seq<State>, steps: seq<Step>, n: nat, i: nat, j: nat, action: Text, key: Text)
    requires ShowsTexts(p) && DisciplinedRun(p, trusted, states, steps) && n < |states|
    requires Completes(FactsOf(states[n].journal), |states[n].journal|, i, action, key)
    requires Completes(FactsOf(states[n].journal), |states[n].journal|, j, action, key)
    ensures i == j
  {
    DisciplineOverRuns(p, trusted, states, steps, n);
    hide Blocks, FirstUnderId, Reserves, HasSucceeded, FactOf, DisciplinedRun;
    CompletesReserves(FactsOf(states[n].journal), i, action, key);
    CompletesReserves(FactsOf(states[n].journal), j, action, key);
    if i < j {
      SucceededBlocks(p, states[n], i, j, action, key);
    } else if j < i {
      SucceededBlocks(p, states[n], j, i, action, key);
    }
  }

  lemma CompletesReserves(fs: seq<Fact>, i: nat, action: Text, key: Text)
    requires Completes(fs, |fs|, i, action, key)
    ensures i < |fs| && Reserves(fs[i], action, key)
  {
  }

  lemma SucceededIsNotRunning(p: Platform, s: State, i: nat, d: nat, action: Text, key: Text)
    requires ShowsTexts(p) && DisciplinedInv(p, s) && d in s.calls
    requires Completes(FactsOf(s.journal), |s.journal|, i, action, key)
    ensures !HoldsKey(s.calls[d], action, key)
  {
    hide DisciplinedInv, FactsOf, HoldsKey, Reserves, Completes, Inv, Blocks;
    CompletesReserves(FactsOf(s.journal), i, action, key);
    DisciplinedIsInv(p, s);
    if HoldsKey(s.calls[d], action, key) {
      RunningDecision(p, s, d, action, key);
      var j := s.calls[d].decision.value;
      if i < j {
        SucceededBlocks(p, s, i, j, action, key);
        ReservedUnblocked(p, s, i, j, action, key);
      } else if j < i {
        RunningBlocks(p, s, d, i, action, key);
        ReservedUnblocked(p, s, j, i, action, key);
      } else {
        SucceededHasEnded(p, s, d, action, key);
      }
    }
  }

  lemma ReservedUnblocked(p: Platform, s: State, i: nat, j: nat, action: Text, key: Text)
    requires Inv(p, s) && i < j < |FactsOf(s.journal)| && Reserves(FactsOf(s.journal)[j], action, key)
    ensures !Blocks(p, FactsOf(s.journal), j, i, action, key)
  {
    hide Blocks, Reserves, FactsOf, IdsDistinct, CallsFit, OneOwner, OutcomesFit, EndsRecorded, DecisionsOwned, ResolutionsFit, OneOutcome, MemoriesTrue;
  }

  lemma DisciplinedIsInv(p: Platform, s: State)
    requires DisciplinedInv(p, s)
    ensures Inv(p, s)
  {
    hide Inv;
  }

  lemma RunningDecision(p: Platform, s: State, d: nat, action: Text, key: Text)
    requires Inv(p, s) && d in s.calls && HoldsKey(s.calls[d], action, key)
    ensures s.calls[d].decision.Some? && s.calls[d].decision.value < |FactsOf(s.journal)|
    ensures Reserves(FactsOf(s.journal)[s.calls[d].decision.value], action, key)
  {
    var fs := FactsOf(s.journal);
    assert CallFits(fs, s.calls[d]);
    hide CallsFit, FactsOf, HoldsKey, OneOwner, Reserves, Inv;
    RunningReserves(fs, s.calls[d], action, key);
  }

  lemma {:induction false} CompletedForever(p: Platform, trusted: set<Text>, states: seq<State>, steps: seq<Step>, a: nat, b: nat, pair: Pair)
    requires Run(p, trusted, states, steps) && a <= b < |states|
    requires CompletedIn(FactsOf(states[a].journal), pair)
    ensures CompletedIn(FactsOf(states[b].journal), pair)
  {
    hide Next, CompletedIn, FactOf;
    if a < b {
      CompletedForever(p, trusted, states, steps, a, b - 1, pair);
      var s, step, s' := states[b - 1], steps[b - 1], states[b];
      assert Next(p, trusted, s, step, s');
      if s'.journal != s.journal {
        AppendingStep(p, trusted, s, step, s');
        CompletionsStay(FactsOf(s.journal), FactOf(step.e), pair);
      }
    }
  }

  /** Once a key has a succeeded outcome, no call with that key executes, then or at any later moment. */
  lemma NoneExecutesAfterSuccess(p: Platform, trusted: set<Text>, states: seq<State>, steps: seq<Step>, a: nat, b: nat, d: nat, action: Text, key: Text)
    requires ShowsTexts(p) && DisciplinedRun(p, trusted, states, steps) && a <= b < |states|
    requires CompletedIn(FactsOf(states[a].journal), (action, key))
    requires d in states[b].calls
    ensures !HoldsKey(states[b].calls[d], action, key)
  {
    hide DisciplinedInv, Completes, FactOf, HoldsKey, Next, Disciplined;
    DisciplineOverRuns(p, trusted, states, steps, b);
    CompletedForever(p, trusted, states, steps, a, b, (action, key));
    var fs := FactsOf(states[b].journal);
    var i :| 0 <= i < |fs| && Completes(fs, |fs|, i, action, key);
    SucceededIsNotRunning(p, states[b], i, d, action, key);
  }

  lemma SucceededHasEnded(p: Platform, s: State, d: nat, action: Text, key: Text)
    requires Inv(p, s) && d in s.calls && s.calls[d].decision.Some?
    requires Completes(FactsOf(s.journal), |s.journal|, s.calls[d].decision.value, action, key)
    ensures !HoldsKey(s.calls[d], action, key)
  {
    hide ReservedSafely, MemoriesTrue, DecisionsOwned, EndsRecorded, ResolutionsFit, FactsOf, Reserves, CallFits, HoldsKey,
         IdsDistinct, OneOwner, OutcomesFit, OneOutcome;
    var fs, call := FactsOf(s.journal), s.calls[d];
    var id := fs[call.decision.value].id.t;
    assert CallFits(fs, call);
    var o :| 0 <= o < |fs| && OutcomeOf(fs[o], id) && fs[o].status == W(SUCCEEDED);
    OutcomeHasEnded(fs, s.calls, d, o);
    EndedHoldsNothing(fs, call, o, action, key);
  }

  lemma EndedHoldsNothing(fs: seq<Fact>, call: Call, o: nat, action: Text, key: Text)
    requires CallFits(fs, call) && o < |fs| && OutcomeFits(fs, o, call)
    ensures !HoldsKey(call, action, key)
  {
  }
}
