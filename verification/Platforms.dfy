/** What the theorems assume can be met: an injective hash, keys that signed one journal
    only, and runs in which calls succeed. */
module Platforms {
  import opened Evidence
  import opened Writer
  import opened Facts
  import opened Reservation
  import opened ExactlyOnce
  import opened Verification
  import opened Acceptance
  import opened Tampering
  import Engine

  // ---- An injective hash -----------------------------------------------

  /** The hash of a payload stands for the payload; every signature checks. */
  function Symbolic(): Platform {
    Platform((payload: Event) => DigestOf(payload), (key: Text, digest: Text, signature: Text) => true,
             (j: Json) => if j.Str? then j.t else Other(""))
  }

  lemma SymbolicIsInjective()
    ensures InjectiveDigest(Symbolic()) && ShowsTexts(Symbolic())
  {
  }

  // ---- Keys that signed one journal only -------------------------------

  /** The same platform, with no signature but those over the events of `journal`. */
  function Guarding(p: Platform, journal: seq<Event>): Platform {
    p.(checks := (key, digest, signature) =>
         p.checks(key, digest, signature) && exists i :: 0 <= i < |journal| && digest == p.digest(Unsigned(journal[i])))
  }

  lemma GuardedWrites(p: Platform, trusted: set<Text>, journal: seq<Event>, i: nat)
    requires Produced(p, trusted, journal) && i < |journal|
    ensures Written(Guarding(p, journal), trusted, journal[..i], journal[i])
  {
    assert Written(p, trusted, journal[..i], journal[i]);
    var entry :| WrittenAs(p, trusted, journal[..i], journal[i], entry);
    WrittenFacts(p, trusted, journal[..i], journal[i], entry);
    hide Payload, Enabled, Fresh, Unsigned;
    assert WrittenAs(Guarding(p, journal), trusted, journal[..i], journal[i], entry);
  }

  /** Every honest journal is the only thing signed on some platform: what the theorems
      on acceptance assume together can be met for each of them. */
  lemma EveryJournalCanBeGuarded(p: Platform, trusted: set<Text>, journal: seq<Event>)
    requires InjectiveDigest(p) && ShowsTexts(p) && Produced(p, trusted, journal)
    ensures var q := Guarding(p, journal);
      InjectiveDigest(q) && ShowsTexts(q) && Produced(q, trusted, journal) && OnlySigned(q, trusted, journal)
  {
    forall i | 0 <= i < |journal| ensures Written(Guarding(p, journal), trusted, journal[..i], journal[i]) {
      GuardedWrites(p, trusted, journal, i);
    }
    hide Written, Unsigned;
    var q := Guarding(p, journal);
    assert forall a: Event, b: Event :: q.digest(a) == q.digest(b) ==> a == b;
    assert forall t: Text :: q.show(Str(t)) == t;
  }

  // ---- A call can succeed ----------------------------------------------

  /** A signer for any journal: a fresh id, a trusted key, signatures that check. */
  ghost predicate SignsAlways(p: Platform, trusted: set<Text>, stamp: seq<Event> -> Stamp, sign: Event -> Text) {
    forall journal :: Engine.Signs(p, trusted, stamp(journal), sign, journal)
  }

  function Quiet(stamp: seq<Event> -> Stamp, sign: Event -> Text): Engine.Surroundings {
    Engine.Surroundings(s => [], (s: State) => stamp(s.journal), sign, false, s => Engine.SeesNothing, Engine.Lands,
                        Engine.Answers(true), Engine.Lands, Engine.Succeeds, None, map[], Engine.Lands)
  }

  const PLAIN := Engine.Request(Null, Other(""), map[])

  lemma StepOn(p: Platform, trusted: set<Text>, states: seq<State>, steps: seq<Step>, step: Step, next: State)
    returns (longer: seq<State>, more: seq<Step>)
    requires Run(p, trusted, states, steps) && Next(p, trusted, states[|states| - 1], step, next)
    ensures Run(p, trusted, longer, more) && states <= longer && longer[|longer| - 1] == next
  {
    Engine.RunGrows(p, trusted, states, steps, step, next);
    longer, more := states + [next], steps + [step];
  }

  lemma RunIsSome(p: Platform, trusted: set<Text>, states: seq<State>, steps: seq<Step>)
    requires Run(p, trusted, states, steps)
    ensures states != []
  {
  }

  /** The first steps of a call: it may begin and be approved whenever it likes. */
  lemma CanBeApproved(p: Platform, trusted: set<Text>, states: seq<State>, steps: seq<Step>, c: nat, spec: Spec)
    returns (longer: seq<State>, more: seq<Step>)
    requires Run(p, trusted, states, steps) && spec.key != Some(Other(""))
    requires var s := states[|states| - 1]; c !in s.calls
    ensures Run(p, trusted, longer, more) && states <= longer
    ensures var s := states[|states| - 1];
      longer[|longer| - 1] == s.(calls := s.calls[c := Call(spec, Approved(true), None, Undecided)])
  {
    hide Run;
    RunIsSome(p, trusted, states, steps);
    var s := states[|states| - 1];
    var begun := s.(calls := s.calls[c := Call(spec, Preparing, None, Undecided)]);
    longer, more := StepOn(p, trusted, states, steps, Begin(c, spec), begun);
    var approved := begun.(calls := begun.calls[c := begun.calls[c].(phase := Approved(true))]);
    longer, more := StepOn(p, trusted, longer, more, Approve(c, true), approved);
    assert approved == s.(calls := s.calls[c := Call(spec, Approved(true), None, Undecided)]);
  }

  /** ... and when nothing blocks its key, it executes and returns. */
  lemma CanExecute(p: Platform, trusted: set<Text>, states: seq<State>, steps: seq<Step>, c: nat, spec: Spec,
                   stamp: seq<Event> -> Stamp, sign: Event -> Text)
    returns (longer: seq<State>, more: seq<Step>)
    requires Run(p, trusted, states, steps) && SignsAlways(p, trusted, stamp, sign)
    requires spec.key != Some(Other("")) && !spec.dryRun
    requires var s := states[|states| - 1]; c !in s.calls && !IsDuplicate(p, s, spec)
    ensures Run(p, trusted, longer, more) && states <= longer
    ensures var s := longer[|longer| - 1]; c in s.calls && s.calls[c].phase == Returned(true) && s.calls[c].spec == spec
    ensures |longer[|longer| - 1].journal| == |states[|states| - 1].journal| + 1
  {
    hide Run, IsDuplicate, Engine.Signs, Engine.Sealed, Engine.SaysOf, Next;
    RunIsSome(p, trusted, states, steps);
    longer, more := CanBeApproved(p, trusted, states, steps, c, spec);
    var s := longer[|longer| - 1];
    assert !IsDuplicate(p, s, spec) by { SameDuplicate(p, states[|states| - 1], s, spec); }
    Engine.CanDecide(p, trusted, s, c, PLAIN, None, stamp(s.journal), sign);
    var (e, entry) := Engine.Sealed(p, Engine.Decision(spec, PLAIN, true, false, None), stamp(s.journal), sign, s.journal);
    var decided := s.(journal := s.journal + [e], calls := s.calls[c := Decided(s.calls[c], |s.journal|, true, false)]);
    longer, more := StepOn(p, trusted, longer, more, Decide(c, e, entry), decided);
    var returned := decided.(calls := decided.calls[c := decided.calls[c].(phase := Returned(true))]);
    assert Next(p, trusted, decided, Return(c, true), returned) by { CanReturn(p, trusted, decided, c); }
    longer, more := StepOn(p, trusted, longer, more, Return(c, true), returned);
  }

  lemma CanReturn(p: Platform, trusted: set<Text>, s: State, c: nat)
    requires c in s.calls && s.calls[c].phase.Executing?
    ensures Next(p, trusted, s, Return(c, true), s.(calls := s.calls[c := s.calls[c].(phase := Returned(true))]))
  {
  }

  lemma SameDuplicate(p: Platform, s: State, s': State, spec: Spec)
    requires s'.journal == s.journal && s'.completed == s.completed
    ensures IsDuplicate(p, s', spec) <==> IsDuplicate(p, s, spec)
  {
    hide BlockingPrior;
  }

  /** From every reachable state: a call that nothing blocks can run to success. */
  lemma UnblockedCallCanSucceed(p: Platform, trusted: set<Text>, states: seq<State>, steps: seq<Step>, c: nat, spec: Spec,
                                stamp: seq<Event> -> Stamp, sign: Event -> Text)
    returns (longer: seq<State>, more: seq<Step>)
    requires Run(p, trusted, states, steps) && SignsAlways(p, trusted, stamp, sign)
    requires spec.key != Some(Other("")) && !spec.dryRun
    requires var s := states[|states| - 1]; c !in s.calls && !IsDuplicate(p, s, spec)
    ensures Run(p, trusted, longer, more) && states <= longer
    ensures var s := longer[|longer| - 1]; c in s.calls && s.calls[c].fate == DidSucceed && s.calls[c].spec == spec
    ensures |longer[|longer| - 1].journal| == |states[|states| - 1].journal| + 2
  {
    hide Run, IsDuplicate, Engine.Signs, Engine.Sealed, Engine.SaysOf, Next;
    longer, more := CanExecute(p, trusted, states, steps, c, spec, stamp, sign);
    var s := longer[|longer| - 1];
    Engine.DecisionOnRecord(p, trusted, longer, more, c);
    var around := Quiet(stamp, sign);
    Engine.CanRecord(p, trusted, s, c, around, stamp(s.journal));
    var (e, entry) := Engine.Sealed(p, Engine.OutcomeOfCall(s, c, around), stamp(s.journal), sign, s.journal);
    var recorded := Engine.WithOutcome(s, c, e);
    longer, more := StepOn(p, trusted, longer, more, RecordOutcome(c, e, entry), recorded);
  }

  // ---- All of it at once -----------------------------------------------

  function Chars(j: Json): nat {
    if j.Str? && j.t.Other? then |j.t.chars| else 0
  }

  function Widest(journal: seq<Event>): (n: nat)
    ensures forall i :: 0 <= i < |journal| ==> Chars(Get(journal[i], EventId)) <= n
  {
    if journal == [] then 0
    else
      var before, last := Widest(journal[..|journal| - 1]), Chars(Get(journal[|journal| - 1], EventId));
      if last > before then last else before
  }

  const KEY := Other("ed25519:0")

  function FreshStamp(journal: seq<Event>): Stamp {
    Stamp(Other(seq(Widest(journal) + 1, i => 'x')), Other(""), KEY)
  }

  function NoSignature(payload: Event): Text { Other("") }

  lemma SymbolicSigns()
    ensures SignsAlways(Symbolic(), {KEY}, FreshStamp, NoSignature)
  {
    forall journal ensures Engine.Signs(Symbolic(), {KEY}, FreshStamp(journal), NoSignature, journal) {
      WidestIsFresh(journal);
    }
  }

  lemma WidestIsFresh(journal: seq<Event>)
    ensures Fresh(FreshStamp(journal).id, journal)
  {
    var id := FreshStamp(journal).id;
    forall i | 0 <= i < |journal| ensures Get(journal[i], EventId) != Str(id) {
      assert Chars(Str(id)) == Widest(journal) + 1;
    }
  }

  /** A journal with a call that succeeded and a checkpoint after it, whose keys signed
      nothing else: everything the acceptance theorems assume holds of it at once. */
  lemma WitnessedJournal(spec: Spec)
    returns (p: Platform, trusted: set<Text>, journal: seq<Event>, c: nat)
    requires spec.key != Some(Other("")) && !spec.dryRun
    ensures InjectiveDigest(p) && ShowsTexts(p) && Produced(p, trusted, journal) && OnlySigned(p, trusted, journal)
    ensures 2 <= c == |journal| - 1 && KindOf(journal[c]) == W(CHECKPOINT)
    ensures Verify(p, trusted, Lines(journal), Witness(journal[c])).valid
    ensures !Verify(p, trusted, Lines(journal[..c]), Witness(journal[c])).valid
  {
    hide Run, Produced, OnlySigned, Verify, SignsAlways, InjectiveDigest, ShowsTexts, Fresh, Engine.Signs;
    var platform := Symbolic();
    trusted := {KEY};
    SymbolicIsInjective();
    SymbolicSigns();
    var states, steps := [State([], map[], map[])], [];
    StartsSomewhere(platform, trusted, states, steps, spec);
    states, steps := UnblockedCallCanSucceed(platform, trusted, states, steps, 0, spec, FreshStamp, NoSignature);
    RunIsSome(platform, trusted, states, steps);
    var before := states[|states| - 1].journal;
    JournalsAreProduced(platform, trusted, states, steps, |states| - 1);
    var e := CheckpointFollows(platform, trusted, before);
    journal, c := before + [e], |before|;
    ProducedAppend(platform, trusted, before, e);
    EveryJournalCanBeGuarded(platform, trusted, journal);
    p := Guarding(platform, journal);
    ProducedCopiesItself(p, trusted, journal, c);
    AcceptedFrom(p, trusted, journal, c);
  }

  lemma StartsSomewhere(p: Platform, trusted: set<Text>, states: seq<State>, steps: seq<Step>, spec: Spec)
    requires states == [State([], map[], map[])] && steps == []
    ensures Run(p, trusted, states, steps) && !IsDuplicate(p, states[0], spec) && 0 !in states[0].calls
  {
  }

  lemma CheckpointFollows(p: Platform, trusted: set<Text>, journal: seq<Event>) returns (e: Event)
    requires SignsAlways(p, trusted, FreshStamp, NoSignature)
    ensures Written(p, trusted, journal, e) && KindOf(e) == W(CHECKPOINT)
  {
    hide Engine.Signs;
    var stamp := FreshStamp(journal);
    assert Engine.Signs(p, trusted, stamp, NoSignature, journal);
    Engine.SealedIsWritten(p, trusted, CheckpointBody, stamp, NoSignature, journal);
    var (event, entry) := Engine.Sealed(p, CheckpointBody, stamp, NoSignature, journal);
    WrittenFacts(p, trusted, journal, event, entry);
    e := event;
  }

  lemma AcceptedFrom(p: Platform, trusted: set<Text>, journal: seq<Event>, c: nat)
    requires InjectiveDigest(p) && ShowsTexts(p) && Produced(p, trusted, journal) && OnlySigned(p, trusted, journal)
    requires c == |journal| - 1 && KindOf(journal[c]) == W(CHECKPOINT)
    ensures Verify(p, trusted, Lines(journal), Witness(journal[c])).valid
    ensures !Verify(p, trusted, Lines(journal[..c]), Witness(journal[c])).valid
  {
    hide Produced, OnlySigned, Verify, InjectiveDigest, ShowsTexts, Copies;
    forall i | 0 <= i < |journal| ensures Copies(p, journal[i], journal[i]) {
      ProducedCopiesItself(p, trusted, journal, i);
    }
    ReadAll(journal);
    ReadAll(journal[..c]);
    ReadableWhile(Lines(journal), |journal|);
    AcceptsExactlyPrefixesPast(p, trusted, journal, Lines(journal), journal[c]);
    AcceptsExactlyPrefixesPast(p, trusted, journal, Lines(journal[..c]), journal[c]);
    forall d | 0 <= d < |journal| && d < c ensures !Copies(p, journal[c], journal[d]) {
      if Copies(p, journal[c], journal[d]) {
        WitnessFixesCheckpoint(p, trusted, journal, journal[c], c, d);
      }
    }
  }
}
