/** The reservation protocol only ever meets journals on which the index is exact. */
module IndexedProtocol {
  import opened Evidence
  import opened Writer
  import opened Facts
  import opened Reservation
  import opened ExactlyOnce
  import opened Idempotency
  import opened IdempotencyIndex
  import opened IdempotencyAnswers
  import opened IdempotencyExact
  import opened Verification
  import opened JournalContent
  import opened IdempotencyCache
  import opened Tampering

  lemma ReachableIsWellFormed(p: Platform, s: State)
    requires Inv(p, s)
    ensures WellFormed(FactsOf(s.journal))
  {
    var fs := FactsOf(s.journal);
    hide ReservedSafely, MemoriesTrue, OneOwner, DecisionsOwned, EndsRecorded, DecisionMatches, FactsOf;
    forall i, j | 0 <= i <= j < |fs| && (IsOutcome(fs[i]) || IsResolution(fs[i])) ensures !About(fs[i], fs[j]) {
      LinkHasTarget(p, s, i);
    }
    forall i | 0 <= i < |fs|
      ensures (IsOutcome(fs[i]) ==> IsText(fs[i].status)) && (IsResolution(fs[i]) ==> IsText(fs[i].resolution))
    {
      if IsOutcome(fs[i]) || IsResolution(fs[i]) {
        LinkHasTarget(p, s, i);
      }
    }
  }

  /** Every outcome and resolution has its decision before it. */
  lemma LinkHasTarget(p: Platform, s: State, i: nat)
    requires Inv(p, s) && i < |s.journal|
    requires IsOutcome(FactsOf(s.journal)[i]) || IsResolution(FactsOf(s.journal)[i])
    ensures exists d :: 0 <= d < i && FactsOf(s.journal)[i].ref == FactsOf(s.journal)[d].id
    ensures IsOutcome(FactsOf(s.journal)[i]) ==> IsText(FactsOf(s.journal)[i].status)
    ensures IsResolution(FactsOf(s.journal)[i]) ==> IsText(FactsOf(s.journal)[i].resolution)
  {
    var fs := FactsOf(s.journal);
    hide ReservedSafely, MemoriesTrue, OneOwner, DecisionsOwned, EndsRecorded, DecisionMatches, FactsOf, CallFits;
    if IsOutcome(fs[i]) {
      var c :| c in s.calls && OutcomeFits(fs, i, s.calls[c]);
      assert fs[i].ref == fs[s.calls[c].decision.value].id;
    } else {
      assert ResolutionFits(fs, i);
    }
  }

  /** No call that was a dry run records an outcome. */
  lemma ReachableHasNoDryOutcomes(p: Platform, s: State)
    requires Inv(p, s)
    ensures NoDryOutcomes(FactsOf(s.journal))
  {
    var fs := FactsOf(s.journal);
    hide ReservedSafely, MemoriesTrue, OneOwner, DecisionsOwned, EndsRecorded, FactsOf, ResolutionsFit;
    forall i, j | 0 <= i < |fs| && 0 <= j < |fs| && IsOutcome(fs[i]) && fs[j].dryRun == Bool(true) ensures !About(fs[i], fs[j]) {
      var c :| c in s.calls && OutcomeFits(fs, i, s.calls[c]);
      var d := s.calls[c].decision.value;
      assert CallFits(fs, s.calls[c]) && fs[d].dryRun == Null;
      assert fs[i].ref == fs[d].id && d != j;
    }
  }

  /** At every moment of every run the file is hash-chained and well-formed, so the
      indexed check under the lock is the check the protocol makes. */
  lemma IndexServesProtocol(p: Platform, trusted: set<Text>, states: seq<State>, steps: seq<Step>, n: nat,
                            action: Text, key: Text)
    requires Run(p, trusted, states, steps) && n < |states|
    ensures var es := states[n].journal;
      && Intact(p, Lines(es)) && AllEvents(Lines(es)) == es
      && WellFormed(FactsOf(es)) && NoDryOutcomes(FactsOf(es))
      && (forall useIndex :: Answered(p, useIndex, es, action, key) == BlockingId(p, es, action, key))
  {
    hide Inv, WellFormed, NoDryOutcomes, Rebuilt, IndexedBlocking, BlockingId, Visible, Run, KeysTracked;
    var es := states[n].journal;
    InvariantOverRuns(p, trusted, states, steps, n);
    JournalsAreProduced(p, trusted, states, steps, n);
    ProducedIsChained(p, trusted, es);
    ReachableIsWellFormed(p, states[n]);
    ReachableHasNoDryOutcomes(p, states[n]);
    LinesRead(es, |es|);
    assert AllEvents(Lines(es)) == es;
    IndexEqualsScan(p, es, action, key);
    IndexAnswersKept(p, es, action, key);
  }
}
