/** What the index answers on any journal at all, and exactly when that is what the
    scan answers. */
module IdempotencyExact {
  import opened Evidence
  import opened Facts
  import opened Idempotency
  import opened IdempotencyIndex
  import opened IdempotencyAnswers

  // ---- What the index keeps --------------------------------------------

  predicate TrackedBefore(es: seq<Event>, n: nat, id: Text)
    requires n <= |es|
  {
    exists j :: 0 <= j < n && Trackable(es[j]) && Get(es[j], EventId) == Str(id)
  }

  /** The decision at `i` is the first one the index tracks under its id. */
  predicate FirstTracked(es: seq<Event>, i: nat)
    requires i < |es|
  {
    Trackable(es[i]) && !TrackedBefore(es, i, IdOf(es[i]))
  }

  /** An outcome or a resolution with a string value, after the tracked decision it refers to. */
  predicate KeptLink(es: seq<Event>, i: nat)
    requires i < |es|
  {
    && (KindOf(es[i]) == W(OUTCOME) || KindOf(es[i]) == W(RESOLUTION))
    && IsText(Get(es[i], if KindOf(es[i]) == W(OUTCOME) then Status else ResolutionValue))
    && IsText(Get(es[i], DecisionEventId)) && TrackedBefore(es, i, Get(es[i], DecisionEventId).t)
  }

  /** The journal with every event that the index ignores blanked out. */
  function Visible(es: seq<Event>): (kept: seq<Event>)
    ensures |kept| == |es|
    ensures forall i :: 0 <= i < |es| ==> kept[i] == if FirstTracked(es, i) || KeptLink(es, i) then es[i] else map[]
  {
    seq(|es|, i requires 0 <= i < |es| => if FirstTracked(es, i) || KeptLink(es, i) then es[i] else map[])
  }

  lemma TrackedGrows(es: seq<Event>, n: nat, id: Text)
    requires n < |es|
    ensures TrackedBefore(es, n + 1, id) <==> TrackedBefore(es, n, id) || (Trackable(es[n]) && Get(es[n], EventId) == Str(id))
  {
    hide Trackable;
  }

  lemma EvolvedTracks(t: Tables, e: Event, id: Text)
    ensures id in Evolved(t, e).decisions <==> id in t.decisions || (Trackable(e) && Get(e, EventId) == Str(id))
  {
  }

  lemma {:induction false} RebuiltTracks(es: seq<Event>, n: nat, id: Text)
    requires n <= |es|
    ensures id in Rebuilt(es, n).decisions <==> TrackedBefore(es, n, id)
  {
    hide Evolved, TrackedBefore, Trackable;
    if n == 0 {
      assert !TrackedBefore(es, 0, id) by { NothingTrackedYet(es, id); }
    } else {
      RebuiltTracks(es, n - 1, id);
      TrackedGrows(es, n - 1, id);
      EvolvedTracks(Rebuilt(es, n - 1), es[n - 1], id);
    }
  }

  lemma NothingTrackedYet(es: seq<Event>, id: Text)
    ensures !TrackedBefore(es, 0, id)
  {
  }

  lemma IgnoredChangesNothing(es: seq<Event>, n: nat, t: Tables)
    requires n < |es| && forall id :: id in t.decisions <==> TrackedBefore(es, n, id)
    requires !FirstTracked(es, n) && !KeptLink(es, n)
    ensures Evolved(t, es[n]) == t
  {
    hide TrackedBefore;
    if Trackable(es[n]) {
      assert IdOf(es[n]) in t.decisions;
    }
  }

  lemma BlankChangesNothing(t: Tables)
    ensures Evolved(t, map[]) == t
  {
  }

  lemma {:induction false} KeptRebuildsTheSame(es: seq<Event>, n: nat)
    requires n <= |es|
    ensures Rebuilt(Visible(es), n) == Rebuilt(es, n)
  {
    hide Evolved, FirstTracked, KeptLink, TrackedBefore;
    if n > 0 {
      KeptRebuildsTheSame(es, n - 1);
      var t := Rebuilt(es, n - 1);
      if !FirstTracked(es, n - 1) && !KeptLink(es, n - 1) {
        forall id ensures id in t.decisions <==> TrackedBefore(es, n - 1, id) {
          RebuiltTracks(es, n - 1, id);
        }
        IgnoredChangesNothing(es, n - 1, t);
        BlankChangesNothing(t);
      }
    }
  }

  lemma KeptDecision(es: seq<Event>, i: nat)
    requires i < |es|
    ensures IsDecision(FactsOf(Visible(es))[i]) <==> FirstTracked(es, i)
    ensures FirstTracked(es, i) ==> FactsOf(Visible(es))[i] == FactsOf(es)[i] && IsText(FactsOf(es)[i].id)
                                    && FactsOf(es)[i].id.t == IdOf(es[i]) && FactsOf(es)[i].dryRun != Bool(true)
  {
    hide TrackedBefore;
    var k := FactsOf(Visible(es))[i];
    assert k.kind == KindOf(Visible(es)[i]);
    if KeptLink(es, i) {
      assert !FirstTracked(es, i);
    }
  }

  lemma KeptLinked(es: seq<Event>, i: nat)
    requires i < |es|
    ensures var k := FactsOf(Visible(es))[i];
      (IsOutcome(k) || IsResolution(k) <==> KeptLink(es, i)) && (KeptLink(es, i) ==> k == FactsOf(es)[i])
  {
    hide TrackedBefore;
    assert FactsOf(Visible(es))[i].kind == KindOf(Visible(es)[i]);
  }

  lemma LinkIsTracked(es: seq<Event>, i: nat)
    requires i < |es| && KeptLink(es, i)
    ensures var f := FactsOf(es)[i];
      && (IsOutcome(f) ==> IsText(f.status)) && (IsResolution(f) ==> IsText(f.resolution))
      && IsText(f.ref) && TrackedBefore(es, i, f.ref.t)
  {
    hide TrackedBefore;
  }

  lemma NoneTrackedBetween(es: seq<Event>, i: nat, j: nat)
    requires i <= j < |es| && FirstTracked(es, j)
    ensures !TrackedBefore(es, i, IdOf(es[j]))
    ensures i < j && FirstTracked(es, i) ==> IdOf(es[i]) != IdOf(es[j])
  {
  }

  /** What the index keeps of a journal is well-formed, whatever the journal. */
  lemma KeptIsWellFormed(es: seq<Event>)
    ensures WellFormed(FactsOf(Visible(es))) && NoDryOutcomes(FactsOf(Visible(es)))
  {
    var ks := FactsOf(Visible(es));
    hide TrackedBefore, FirstTracked, KeptLink, FactsOf, Trackable, Visible;
    forall i, j | 0 <= i < j < |ks| && IsDecision(ks[i]) && IsDecision(ks[j]) ensures ks[i].id != ks[j].id {
      KeptDecision(es, i);
      KeptDecision(es, j);
      NoneTrackedBetween(es, i, j);
    }
    forall i, j | 0 <= i <= j < |ks| && (IsOutcome(ks[i]) || IsResolution(ks[i])) ensures !About(ks[i], ks[j]) {
      KeptLinked(es, i);
      LinkIsTracked(es, i);
      KeptDecision(es, j);
      if IsDecision(ks[j]) {
        NoneTrackedBetween(es, i, j);
      }
    }
    forall i | 0 <= i < |ks| && (IsOutcome(ks[i]) || IsResolution(ks[i]))
      ensures (IsOutcome(ks[i]) ==> IsText(ks[i].status)) && (IsResolution(ks[i]) ==> IsText(ks[i].resolution))
    {
      KeptLinked(es, i);
      LinkIsTracked(es, i);
    }
    forall i | 0 <= i < |ks| && IsDecision(ks[i]) ensures ks[i].dryRun != Bool(true) {
      KeptDecision(es, i);
    }
  }

  /** On every journal the index answers as a scan of what it keeps. */
  lemma IndexAnswersKept(p: Platform, es: seq<Event>, action: Text, key: Text)
    ensures KeysTracked(Rebuilt(es, |es|)) && Exact(Visible(es), |es|, Rebuilt(es, |es|))
    ensures IndexedBlocking(p, Rebuilt(es, |es|), action, key) == BlockingId(p, Visible(es), action, key)
  {
    hide WellFormed, Exact, KeysTracked, Rebuilt, IndexedBlocking, BlockingId, FactsOf, Visible;
    KeptRebuildsTheSame(es, |es|);
    KeptIsWellFormed(es);
    RebuiltIsExact(Visible(es), |es|);
    RebuiltIsTracked(es, |es|);
    BlockingIndexEqualsScan(p, Visible(es), Rebuilt(es, |es|), action, key);
  }

  /** What the check under the lock answers: with the index, what it sees decides. */
  function Answered(p: Platform, useIndex: bool, es: seq<Event>, action: Text, key: Text): Option<Text> {
    BlockingId(p, if useIndex then Visible(es) else es, action, key)
  }

  // ---- What the index makes of one decision ----------------------------

  /** An outcome the index keeps: after decision `i`, with a string status. */
  predicate LateOutcome(fs: seq<Fact>, i: nat)
    requires i < |fs| && IsText(fs[i].id)
  {
    exists j :: i < j < |fs| && OutcomeOf(fs[j], fs[i].id.t) && IsText(fs[j].status)
  }

  predicate LateSuccess(fs: seq<Fact>, i: nat)
    requires i < |fs| && IsText(fs[i].id)
  {
    exists j :: i < j < |fs| && OutcomeOf(fs[j], fs[i].id.t) && fs[j].status == W(SUCCEEDED)
  }

  predicate LateResolution(fs: seq<Fact>, i: nat, j: nat)
    requires i < |fs| && IsText(fs[i].id)
  {
    i < j < |fs| && ResolutionOf(fs[j], fs[i].id.t) && IsText(fs[j].resolution)
  }

  /** The last resolution the index keeps of decision `i` confirms that nothing happened. */
  predicate LateRelease(p: Platform, fs: seq<Fact>, i: nat)
    requires i < |fs| && IsText(fs[i].id)
  {
    exists j :: && i < j < |fs| && LateResolution(fs, i, j) && (forall k :: j < k < |fs| ==> !LateResolution(fs, i, k))
                && p.show(fs[j].resolution) == Known(CONFIRMED_NOT_COMPLETED)
  }

  /** A link to a tracked decision is kept exactly when it follows it with a string value. */
  lemma KeptAfter(es: seq<Event>, i: nat, j: nat)
    requires i < |es| && j < |es| && FirstTracked(es, i)
    requires IsText(FactsOf(es)[j].ref) && FactsOf(es)[j].ref.t == IdOf(es[i])
    requires IsOutcome(FactsOf(es)[j]) || IsResolution(FactsOf(es)[j])
    ensures KeptLink(es, j) <==>
      i < j && (IsOutcome(FactsOf(es)[j]) ==> IsText(FactsOf(es)[j].status))
            && (IsResolution(FactsOf(es)[j]) ==> IsText(FactsOf(es)[j].resolution))
  {
    var id := IdOf(es[i]);
    assert Get(es[i], EventId) == Str(id);
    assert FactsOf(es)[j].kind == KindOf(es[j]) && FactsOf(es)[j].ref == Get(es[j], DecisionEventId);
    if i == j {
      assert false;
    }
    if i < j {
      assert TrackedBefore(es, j, id);
    } else {
      NoneTrackedBetween(es, j, i);
    }
  }

  lemma KeptOutcomes(es: seq<Event>, i: nat)
    requires i < |es| && FirstTracked(es, i)
    ensures IsText(FactsOf(es)[i].id) && FactsOf(es)[i].id.t == IdOf(es[i])
    ensures HasOutcome(FactsOf(Visible(es)), |es|, IdOf(es[i])) <==> LateOutcome(FactsOf(es), i)
    ensures HasSucceeded(FactsOf(Visible(es)), |es|, IdOf(es[i])) <==> LateSuccess(FactsOf(es), i)
  {
    hide TrackedBefore, KeptLink, FactsOf, Visible, Trackable;
    var fs, ks, id := FactsOf(es), FactsOf(Visible(es)), IdOf(es[i]);
    KeptDecision(es, i);
    forall j | 0 <= j < |es|
      ensures OutcomeOf(ks[j], id) <==> i < j && OutcomeOf(fs[j], id) && IsText(fs[j].status)
      ensures OutcomeOf(ks[j], id) ==> ks[j] == fs[j]
    {
      KeptLinked(es, j);
      if OutcomeOf(fs[j], id) {
        KeptAfter(es, i, j);
      }
    }
  }

  lemma KeptResolutions(p: Platform, es: seq<Event>, i: nat)
    requires i < |es| && FirstTracked(es, i)
    ensures IsText(FactsOf(es)[i].id) && FactsOf(es)[i].id.t == IdOf(es[i])
    ensures Released(p, FactsOf(Visible(es)), |es|, IdOf(es[i])) <==> LateRelease(p, FactsOf(es), i)
  {
    hide TrackedBefore, KeptLink, FactsOf, Visible, Trackable;
    var fs, ks, id := FactsOf(es), FactsOf(Visible(es)), IdOf(es[i]);
    KeptDecision(es, i);
    forall j | 0 <= j < |es|
      ensures ResolutionOf(ks[j], id) <==> LateResolution(fs, i, j)
      ensures ResolutionOf(ks[j], id) ==> ks[j] == fs[j]
    {
      KeptLinked(es, j);
      if ResolutionOf(fs[j], id) {
        KeptAfter(es, i, j);
      }
    }
    forall j | 0 <= j < |es|
      ensures LatestResolution(ks, |es|, id, j) <==> LateResolution(fs, i, j) && forall k :: j < k < |fs| ==> !LateResolution(fs, i, k)
    {
    }
  }

  lemma ReservationIsTrackable(es: seq<Event>, i: nat, action: Text, key: Text)
    requires i < |es| && Reserves(FactsOf(es)[i], action, key) && IsText(FactsOf(es)[i].id)
    ensures Trackable(es[i]) && IdOf(es[i]) == FactsOf(es)[i].id.t
  {
  }

  lemma FirstIsTrackedFirst(es: seq<Event>, i: nat)
    requires i < |es| && Trackable(es[i]) && FirstUnderId(FactsOf(es), i)
    ensures FirstTracked(es, i)
  {
    var fs := FactsOf(es);
    forall j | 0 <= j < i && Trackable(es[j]) ensures Get(es[j], EventId) != Str(IdOf(es[i])) {
      assert IsDecision(fs[j]) && fs[j].id == Get(es[j], EventId) && fs[i].id == Get(es[i], EventId);
    }
  }

  /** What the index makes of decision `i`, on any journal. */
  lemma IndexBlocksWhen(p: Platform, es: seq<Event>, i: nat, action: Text, key: Text)
    requires i < |es|
    ensures FirstTracked(es, i) ==> IsText(FactsOf(es)[i].id)
    ensures Blocks(p, FactsOf(Visible(es)), |es|, i, action, key) <==>
      && FirstTracked(es, i) && Reserves(FactsOf(es)[i], action, key)
      && (LateSuccess(FactsOf(es), i) || (!LateOutcome(FactsOf(es), i) && !LateRelease(p, FactsOf(es), i)))
  {
    hide FirstTracked, FactsOf, Visible, LateSuccess, LateOutcome, LateRelease, HasOutcome, HasSucceeded, Released, TrackedBefore;
    KeptDecision(es, i);
    if FirstTracked(es, i) {
      KeptOutcomes(es, i);
      KeptResolutions(p, es, i);
      KeptIsFirst(es, i);
    }
  }

  lemma KeptIsFirst(es: seq<Event>, i: nat)
    requires i < |es| && FirstTracked(es, i)
    ensures FirstUnderId(FactsOf(Visible(es)), i)
  {
    hide FactsOf, Visible, FirstTracked, TrackedBefore;
    KeptDecision(es, i);
    KeptIsWellFormed(es);
    WellFormedParts(FactsOf(Visible(es)));
    DistinctMeansFirst(FactsOf(Visible(es)), i);
  }

  // ---- Exactly when both agree -----------------------------------------

  /** The index judges decision `i` otherwise than the scan does: an untracked decision
      under its id hides it from the scan; or an outcome that the index drops, being
      before the decision or without a string status, makes the difference; or a
      resolution that it drops. */
  predicate Misjudged(p: Platform, es: seq<Event>, i: nat, action: Text, key: Text)
    requires i < |es|
  {
    var fs := FactsOf(es);
    && Reserves(fs[i], action, key) && IsText(fs[i].id) && FirstTracked(es, i)
    && (if !FirstUnderId(fs, i) then LateSuccess(fs, i) || (!LateOutcome(fs, i) && !LateRelease(p, fs, i))
        else if LateOutcome(fs, i) then !LateSuccess(fs, i) && HasSucceeded(fs, |fs|, fs[i].id.t)
        else if HasOutcome(fs, |fs|, fs[i].id.t) then HasSucceeded(fs, |fs|, fs[i].id.t) == LateRelease(p, fs, i)
        else LateRelease(p, fs, i) != Released(p, fs, |fs|, fs[i].id.t))
  }

  lemma MisjudgedMeans(p: Platform, es: seq<Event>, i: nat, action: Text, key: Text)
    requires i < |es|
    ensures Misjudged(p, es, i, action, key) <==>
            !(Blocks(p, FactsOf(Visible(es)), |es|, i, action, key) <==> Blocks(p, FactsOf(es), |es|, i, action, key))
  {
    var fs := FactsOf(es);
    IndexBlocksWhen(p, es, i, action, key);
    if Reserves(fs[i], action, key) && IsText(fs[i].id) {
      ReservationIsTrackable(es, i, action, key);
      if FirstUnderId(fs, i) {
        FirstIsTrackedFirst(es, i);
      }
      LateIsSome(fs, i);
    }
    hide FirstTracked, FactsOf, Visible, LateSuccess, LateOutcome, LateRelease, HasOutcome, HasSucceeded, Released, FirstUnderId, Trackable;
  }

  lemma LateIsSome(fs: seq<Fact>, i: nat)
    requires i < |fs| && IsText(fs[i].id)
    ensures LateSuccess(fs, i) ==> LateOutcome(fs, i) && HasSucceeded(fs, |fs|, fs[i].id.t)
    ensures LateOutcome(fs, i) ==> HasOutcome(fs, |fs|, fs[i].id.t)
    ensures HasSucceeded(fs, |fs|, fs[i].id.t) ==> HasOutcome(fs, |fs|, fs[i].id.t)
  {
  }

  /** On every journal: the index and the scan name the same blocking decision exactly
      when the index misjudges none up to the one that the scan names. */
  lemma BlockingAgreesExactly(p: Platform, es: seq<Event>, action: Text, key: Text)
    ensures KeysTracked(Rebuilt(es, |es|))
    ensures var prior := BlockingPrior(p, FactsOf(es), |es|, action, key);
      IndexedBlocking(p, Rebuilt(es, |es|), action, key) == BlockingId(p, es, action, key)
      <==> forall i :: 0 <= i < (if prior.Some? then prior.value + 1 else |es|) ==> !Misjudged(p, es, i, action, key)
  {
    hide Misjudged, Blocks, FactsOf, Visible, Rebuilt, IndexedBlocking, FirstTracked, KeysTracked;
    IndexAnswersKept(p, es, action, key);
    var fs, ks := FactsOf(es), FactsOf(Visible(es));
    var prior, kept := BlockingPrior(p, fs, |es|, action, key), BlockingPrior(p, ks, |es|, action, key);
    forall i | 0 <= i < |es|
      ensures Misjudged(p, es, i, action, key) <==> !(Blocks(p, ks, |es|, i, action, key) <==> Blocks(p, fs, |es|, i, action, key))
    {
      MisjudgedMeans(p, es, i, action, key);
    }
    SameIdSamePlace(p, es, prior, kept, action, key);
    assert prior == kept <==> forall i :: 0 <= i < (if prior.Some? then prior.value + 1 else |es|) ==> !Misjudged(p, es, i, action, key);
  }

  /** So the check under the lock names the decision that the scan would name exactly then. */
  lemma AnsweredExactly(p: Platform, useIndex: bool, es: seq<Event>, action: Text, key: Text)
    ensures var prior := BlockingPrior(p, FactsOf(es), |es|, action, key);
      Answered(p, useIndex, es, action, key) == BlockingId(p, es, action, key)
      <==> !useIndex || forall i :: 0 <= i < (if prior.Some? then prior.value + 1 else |es|) ==> !Misjudged(p, es, i, action, key)
  {
    hide Misjudged, FactsOf, Visible, Rebuilt, IndexedBlocking, KeysTracked, BlockingId, BlockingPrior;
    IndexAnswersKept(p, es, action, key);
    BlockingAgreesExactly(p, es, action, key);
  }

  /** The id that is named tells the place. */
  lemma SameIdSamePlace(p: Platform, es: seq<Event>, prior: Option<nat>, kept: Option<nat>, action: Text, key: Text)
    requires prior.Some? ==> Blocks(p, FactsOf(es), |es|, prior.value, action, key)
    requires kept.Some? ==> Blocks(p, FactsOf(Visible(es)), |es|, kept.value, action, key)
    requires prior == BlockingPrior(p, FactsOf(es), |es|, action, key)
    requires kept == BlockingPrior(p, FactsOf(Visible(es)), |es|, action, key)
    ensures BlockingId(p, Visible(es), action, key) == BlockingId(p, es, action, key) <==> prior == kept
  {
    hide FactsOf, Visible, FirstTracked, HasOutcome, HasSucceeded, Released, Trackable;
    var fs, ks := FactsOf(es), FactsOf(Visible(es));
    if kept.Some? {
      KeptDecision(es, kept.value);
    }
    if prior.Some? && kept.Some? && fs[prior.value].id == ks[kept.value].id {
      ReservationIsTrackable(es, prior.value, action, key);
      FirstIsTrackedFirst(es, prior.value);
      NoneTrackedBetween(es, prior.value, kept.value);
    }
  }

  /** Reservations of one key that come first under their id, before all that refers to
      them, with string values only. Nothing is asked of any other event. */
  predicate WellFormedFor(fs: seq<Fact>, action: Text, key: Text) {
    forall i :: 0 <= i < |fs| && Reserves(fs[i], action, key) && IsText(fs[i].id) ==>
      && FirstUnderId(fs, i)
      && forall j :: 0 <= j < |fs| && (IsOutcome(fs[j]) || IsResolution(fs[j])) && fs[j].ref == fs[i].id ==>
           i < j && IsText(if IsOutcome(fs[j]) then fs[j].status else fs[j].resolution)
  }

  lemma WellFormedForIsJudgedRight(p: Platform, es: seq<Event>, i: nat, action: Text, key: Text)
    requires i < |es| && WellFormedFor(FactsOf(es), action, key)
    ensures !Misjudged(p, es, i, action, key)
  {
    hide FactsOf, FirstTracked, FirstUnderId;
    var fs := FactsOf(es);
    if Reserves(fs[i], action, key) && IsText(fs[i].id) {
      var id := fs[i].id.t;
      assert forall j :: 0 <= j < |fs| ==> (OutcomeOf(fs[j], id) ==> i < j && IsText(fs[j].status));
      assert forall j :: 0 <= j < |fs| ==> (ResolutionOf(fs[j], id) <==> LateResolution(fs, i, j));
      assert forall j :: 0 <= j < |fs| ==>
        (LatestResolution(fs, |fs|, id, j) <==> LateResolution(fs, i, j) && forall k :: j < k < |fs| ==> !LateResolution(fs, i, k));
      LateIsSome(fs, i);
    }
  }

  /** Well-formed for a key is enough for that key. */
  lemma WellFormedForAgrees(p: Platform, es: seq<Event>, action: Text, key: Text)
    requires WellFormedFor(FactsOf(es), action, key)
    ensures KeysTracked(Rebuilt(es, |es|))
    ensures IndexedBlocking(p, Rebuilt(es, |es|), action, key) == BlockingId(p, es, action, key)
  {
    hide WellFormedFor, Misjudged, FactsOf, Rebuilt, IndexedBlocking, BlockingId, KeysTracked, Blocks;
    BlockingAgreesExactly(p, es, action, key);
    forall i | 0 <= i < |es| ensures !Misjudged(p, es, i, action, key) {
      WellFormedForIsJudgedRight(p, es, i, action, key);
    }
  }

  // ---- The completed query ---------------------------------------------

  /** Decision `i` is tracked for the key, and a succeeded outcome follows it. */
  predicate LateCompletes(es: seq<Event>, i: nat, action: Text, key: Text)
    requires i < |es|
  {
    FirstTracked(es, i) && Reserves(FactsOf(es)[i], action, key) && IsText(FactsOf(es)[i].id) && LateSuccess(FactsOf(es), i)
  }

  lemma CompletesKept(es: seq<Event>, i: nat, action: Text, key: Text)
    requires i < |es|
    ensures Completes(FactsOf(Visible(es)), |es|, i, action, key) <==> LateCompletes(es, i, action, key)
  {
    hide FactsOf, Visible, LateSuccess, HasSucceeded, HasOutcome, LateOutcome, TrackedBefore, Trackable;
    KeptDecision(es, i);
    if FirstTracked(es, i) {
      KeptOutcomes(es, i);
      KeptIsFirst(es, i);
    }
  }

  /** The place of the decision that the index returns, on any journal. */
  function IndexPlace(es: seq<Event>, action: Text, key: Text): (place: Option<nat>)
    ensures place.Some? ==> place.value < |es|
  {
    CompletedPrior(FactsOf(Visible(es)), action, key)
  }

  lemma IndexPlaceMeans(es: seq<Event>, action: Text, key: Text)
    ensures var place := IndexPlace(es, action, key);
      && (place.Some? ==> LateCompletes(es, place.value, action, key))
      && forall i :: 0 <= i < (if place.Some? then place.value else |es|) ==> !LateCompletes(es, i, action, key)
  {
    hide FactsOf, Visible, Completes, LateCompletes;
    forall i | 0 <= i < |es| ensures Completes(FactsOf(Visible(es)), |es|, i, action, key) <==> LateCompletes(es, i, action, key) {
      CompletesKept(es, i, action, key);
    }
  }

  /** What the indexed completed query returns is the event at that place. */
  lemma IndexReturnsPlace(es: seq<Event>, action: Text, key: Text, prior: Option<nat>)
    requires KeysTracked(Rebuilt(es, |es|)) && FirstCompleted(KeyState(Rebuilt(es, |es|), (action, key)), prior)
    ensures var t, place := Rebuilt(es, |es|), IndexPlace(es, action, key);
      && (prior.Some? <==> place.Some?)
      && (prior.Some? ==> KeyLookup(t.byKey, (action, key))[prior.value] in t.decisions
                          && t.decisions[KeyLookup(t.byKey, (action, key))[prior.value]] == es[place.value])
  {
    hide WellFormed, Exact, KeysTracked, Rebuilt, FactsOf, KeyRows, KeyLookup, CompletesIn, Indexes, LateCompletes;
    var t, place := Rebuilt(es, |es|), IndexPlace(es, action, key);
    KeptRebuildsTheSame(es, |es|);
    KeptIsWellFormed(es);
    RebuiltIsExact(Visible(es), |es|);
    CompletedIndexIsFirst(Visible(es), t, action, key, prior);
    TrackedIndexes(t, (action, key));
    if prior.Some? {
      IndexedEventIs(Visible(es), t, (action, key), prior.value);
      IndexPlaceMeans(es, action, key);
      LateIsKept(es, place.value, action, key);
    }
  }

  lemma LateIsKept(es: seq<Event>, i: nat, action: Text, key: Text)
    requires i < |es| && LateCompletes(es, i, action, key)
    ensures Visible(es)[i] == es[i]
  {
    hide TrackedBefore, Trackable;
  }

  /** The place of the decision that the completed scan returns. */
  function ScanPlace(fs: seq<Fact>, scanned: Option<nat>): Option<nat> {
    if scanned.None? || scanned.value >= |fs| || !IsText(fs[scanned.value].id) then None
    else LastUnder(fs, |fs|, fs[scanned.value].id.t)
  }

  /** What the scan does not ask of the decision at `place`, and the index does. */
  predicate AlsoTracked(es: seq<Event>, place: nat)
    requires place < |es|
  {
    var f := FactsOf(es)[place];
    f.dryRun != Bool(true) && IsText(f.id) && !TrackedBefore(es, place, f.id.t) && LateSuccess(FactsOf(es), place)
  }

  lemma ScannedAtPlace(es: seq<Event>, action: Text, key: Text, scanned: Option<nat>)
    requires FirstScanned(FactsOf(es), action, key, scanned) && scanned.Some?
    ensures var place := ScanPlace(FactsOf(es), scanned);
      && place.Some? && place.value < |es|
      && (LateCompletes(es, place.value, action, key) <==> AlsoTracked(es, place.value))
  {
    hide LateSuccess, TrackedBefore, HasSucceeded;
    var fs := FactsOf(es);
    ScanCompletesFirst(fs, scanned.value, action, key);
    FirstIsDecision(fs, scanned.value);
    var place := LastUnder(fs, |fs|, fs[scanned.value].id.t).value;
    var e := es[place];
    assert fs[place] == FactOf(e);
    assert fs[place].dryRun != Bool(true) ==> Reserves(fs[place], action, key);
    if Reserves(fs[place], action, key) {
      ReservationIsTrackable(es, place, action, key);
    }
    hide FactsOf, LastUnder;
  }

  /** On every journal: both completed queries return the decision at the same place
      exactly when the one that the scan returns is no dry run, is the first tracked
      under its id and has a success after it, and no tracked decision of the key with a
      success after it stands before; when the scan finds none, exactly when there is
      no such decision at all. */
  lemma CompletedAgreesExactly(es: seq<Event>, action: Text, key: Text, scanned: Option<nat>)
    requires FirstScanned(FactsOf(es), action, key, scanned)
    ensures var place := ScanPlace(FactsOf(es), scanned);
      && (scanned.Some? <==> place.Some?) && (place.Some? ==> place.value < |es|)
      && (IndexPlace(es, action, key) == place
          <==> && (place.Some? ==> AlsoTracked(es, place.value))
               && forall i :: 0 <= i < (if place.Some? then place.value else |es|) ==> !LateCompletes(es, i, action, key))
  {
    hide FactsOf, LateCompletes, IndexPlace, FirstScanned, LastUnder, AlsoTracked;
    IndexPlaceMeans(es, action, key);
    if scanned.Some? {
      ScannedAtPlace(es, action, key, scanned);
    }
  }

  /** A completed query that returns the payload of the decision at the index's place. */
  predicate ReturnsPlace(es: seq<Event>, action: Text, key: Text, event: Option<Event>) {
    var place := IndexPlace(es, action, key);
    (event.Some? <==> place.Some?) && (event.Some? ==> Unsigned(event.value) == Unsigned(es[place.value]))
  }

  lemma CompletesLate(es: seq<Event>, i: nat, action: Text, key: Text)
    requires WellFormed(FactsOf(es)) && i < |es|
    ensures LateCompletes(es, i, action, key) <==> Completes(FactsOf(es), |es|, i, action, key)
  {
    var fs := FactsOf(es);
    hide FactsOf;
    if LateCompletes(es, i, action, key) {
      WellFormedParts(fs);
      DistinctMeansFirst(fs, i);
      LateIsSome(fs, i);
    }
    if Completes(fs, |es|, i, action, key) {
      ReservationIsTrackable(es, i, action, key);
      FirstIsTrackedFirst(es, i);
      var j :| 0 <= j < |fs| && OutcomeOf(fs[j], fs[i].id.t) && fs[j].status == W(SUCCEEDED);
      assert j <= i ==> !About(fs[j], fs[i]);
    }
  }

  lemma PlaceIsPrior(es: seq<Event>, action: Text, key: Text)
    requires WellFormed(FactsOf(es))
    ensures IndexPlace(es, action, key) == CompletedPrior(FactsOf(es), action, key)
  {
    hide FactsOf, Completes, LateCompletes, IndexPlace, WellFormed;
    IndexPlaceMeans(es, action, key);
    forall i | 0 <= i < |es| ensures LateCompletes(es, i, action, key) <==> Completes(FactsOf(es), |es|, i, action, key) {
      CompletesLate(es, i, action, key);
    }
  }

  /** On a well-formed journal without outcomes of dry runs the scan returns it too. */
  lemma ScanReturnsPlace(es: seq<Event>, action: Text, key: Text, event: Option<Event>)
    requires WellFormed(FactsOf(es)) && NoDryOutcomes(FactsOf(es)) && ScanReturns(es, action, key, event)
    ensures ReturnsPlace(es, action, key, event)
  {
    hide WellFormed, NoDryOutcomes, FactsOf, FirstScanned, LastUnder, IndexPlace, Unsigned;
    var scanned :| FirstScanned(FactsOf(es), action, key, scanned) && event == HeldLast(es, scanned);
    ScannedIsFirst(FactsOf(es), action, key, scanned);
    PlaceIsPrior(es, action, key);
    if scanned.Some? {
      OnlyOneUnder(FactsOf(es), scanned.value);
      FirstIsDecision(FactsOf(es), scanned.value);
    }
  }

  /** Two denied decisions under one id: not well-formed, and yet no key tells the
      index from the scan. */
  lemma SharedDeniedIdsAgree(p: Platform, a: Event, b: Event, action: Text, key: Text)
    requires KindOf(a) == KindOf(b) == W(DECISION) && IsText(Get(a, EventId)) && Get(a, EventId) == Get(b, EventId)
    requires Get(a, Verdict) == Get(b, Verdict) == W(DENIED)
    ensures !WellFormed(FactsOf([a, b])) && Answered(p, true, [a, b], action, key) == BlockingId(p, [a, b], action, key)
  {
    hide Answered, BlockingId, WellFormed, WellFormedFor, IndexedBlocking, KeysTracked, Rebuilt;
    DeniedTwins(a, b, action, key);
    WellFormedForAgrees(p, [a, b], action, key);
    AnsweredIsIndexed(p, [a, b], action, key);
  }

  lemma DeniedTwins(a: Event, b: Event, action: Text, key: Text)
    requires KindOf(a) == KindOf(b) == W(DECISION) && IsText(Get(a, EventId)) && Get(a, EventId) == Get(b, EventId)
    requires Get(a, Verdict) == Get(b, Verdict) == W(DENIED)
    ensures !WellFormed(FactsOf([a, b])) && WellFormedFor(FactsOf([a, b]), action, key)
  {
    hide FirstUnderId, LinksFollow, StringValues;
    var fs := FactsOf([a, b]);
    assert fs[0] == FactOf(a) && fs[1] == FactOf(b);
    assert !DecisionIdsDistinct(fs);
  }

  lemma AnsweredIsIndexed(p: Platform, es: seq<Event>, action: Text, key: Text)
    ensures KeysTracked(Rebuilt(es, |es|))
    ensures Answered(p, true, es, action, key) == IndexedBlocking(p, Rebuilt(es, |es|), action, key)
  {
    hide BlockingId, Visible, Rebuilt, IndexedBlocking, KeysTracked;
    IndexAnswersKept(p, es, action, key);
  }
}
