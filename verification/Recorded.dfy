/** What the events the engine and the operator append say, field by field. */
module Recorded {
  import opened Evidence
  import opened Writer
  import opened Facts

  lemma ReadsCore(b: Body, f: Field)
    requires b.DecisionBody? && b.details.Keys <= DECISION_DETAILS
    requires f in DecisionCore(b) && f !in DECISION_DETAILS && f != IdempotencyKey && f != DryRun
    ensures Get(DecisionFields(b), f) == DecisionCore(b)[f]
  {
    hide DecisionCore;
    assert f !in b.details;
  }

  lemma CoreSays(b: Body)
    requires b.DecisionBody?
    ensures var core := DecisionCore(b);
      && core.Keys == {ActionId, ActionName, ContractHash, Verdict, Risk, ApprovalMode, RedactedInputSummary, InputHash}
      && core[Verdict] == W(if b.allowed then ALLOWED else DENIED)
      && core[ActionName] == Str(b.contract.actionName) && core[ActionId] == Str(b.contract.actionId)
      && core[ContractHash] == Str(b.contract.contractHash)
      && core[Risk] == Str(b.contract.risk) && core[ApprovalMode] == Str(b.contract.approvalMode)
      && core[RedactedInputSummary] == b.summary && core[InputHash] == Str(b.inputHash)
  {
  }

  lemma KeyAndDryRunRead(b: Body)
    requires b.DecisionBody? && b.details.Keys <= DECISION_DETAILS
    ensures Get(DecisionFields(b), IdempotencyKey) == (if b.key.Some? then Str(b.key.value) else Null)
    ensures Get(DecisionFields(b), DryRun) == (if b.dryRun then Bool(true) else Null)
    ensures forall f :: f in DECISION_DETAILS ==> Get(DecisionFields(b), f) == Get(b.details, f)
  {
    hide DecisionCore, Get, With, DECISION_DETAILS;
    CoreIsPlain(b);
    DetailsArePlain(b.details);
    LayersRead(DecisionCore(b), if b.key.Some? then Some(Str(b.key.value)) else None, if b.dryRun then Some(Bool(true)) else None, b.details);
  }

  lemma DetailsArePlain(details: Event)
    requires details.Keys <= DECISION_DETAILS
    ensures IdempotencyKey !in details && DryRun !in details
    ensures IdempotencyKey !in DECISION_DETAILS && DryRun !in DECISION_DETAILS
  {
  }

  lemma CoreIsPlain(b: Body)
    requires b.DecisionBody?
    ensures IdempotencyKey !in DecisionCore(b) && DryRun !in DecisionCore(b)
    ensures forall f :: f in DECISION_DETAILS ==> f !in DecisionCore(b)
  {
  }

  lemma LayersRead(core: Event, key: Option<Json>, dryRun: Option<Json>, details: Event)
    requires IdempotencyKey !in core && DryRun !in core && IdempotencyKey !in details && DryRun !in details
    ensures var all := details + With(With(core, IdempotencyKey, key), DryRun, dryRun);
      && Get(all, IdempotencyKey) == (if key.Some? then key.value else Null)
      && Get(all, DryRun) == (if dryRun.Some? then dryRun.value else Null)
      && forall f :: f !in core && f != IdempotencyKey && f != DryRun ==> Get(all, f) == Get(details, f)
  {
  }

  lemma NoneIsDetail()
    ensures DECISION_DETAILS !! {Verdict, ActionName, ActionId, ContractHash, Risk, ApprovalMode, RedactedInputSummary, InputHash}
  {
  }

  /** Everything a decision records of its call. */
  lemma DecisionFieldsRead(b: Body)
    requires b.DecisionBody? && b.details.Keys <= DECISION_DETAILS
    ensures var fields := DecisionFields(b);
      && Get(fields, Verdict) == W(if b.allowed then ALLOWED else DENIED)
      && Get(fields, ActionName) == Str(b.contract.actionName)
      && Get(fields, ActionId) == Str(b.contract.actionId)
      && Get(fields, ContractHash) == Str(b.contract.contractHash)
      && Get(fields, Risk) == Str(b.contract.risk) && Get(fields, ApprovalMode) == Str(b.contract.approvalMode)
      && Get(fields, RedactedInputSummary) == b.summary && Get(fields, InputHash) == Str(b.inputHash)
      && Get(fields, IdempotencyKey) == (if b.key.Some? then Str(b.key.value) else Null)
      && Get(fields, DryRun) == (if b.dryRun then Bool(true) else Null)
      && forall f :: f in DECISION_DETAILS ==> Get(fields, f) == Get(b.details, f)
  {
    hide DecisionCore, DecisionFields, Get;
    CoreSays(b);
    KeyAndDryRunRead(b);
    NoneIsDetail();
    hide DECISION_DETAILS;
    ReadsCore(b, Verdict);
    ReadsCore(b, ActionName);
    ReadsCore(b, ActionId);
    ReadsCore(b, ContractHash);
    ReadsCore(b, Risk);
    ReadsCore(b, ApprovalMode);
    ReadsCore(b, RedactedInputSummary);
    ReadsCore(b, InputHash);
  }

  lemma OutcomeDetailsRead(b: Body, f: Field)
    requires b.OutcomeBody? && b.details.Keys <= OUTCOME_DETAILS && f in OUTCOME_DETAILS
    ensures Get(OutcomeFields(b), f) == Get(b.details, f)
  {
  }

  lemma OutcomeIdentityRead(b: Body)
    requires b.OutcomeBody? && b.details.Keys <= OUTCOME_DETAILS
    ensures var fields := OutcomeFields(b);
      && Get(fields, ActionName) == Str(b.contract.actionName)
      && Get(fields, ActionId) == Str(b.contract.actionId)
      && Get(fields, ContractHash) == Str(b.contract.contractHash)
  {
  }

  /** Everything an outcome records of its call. */
  lemma OutcomeFieldsRead(b: Body)
    requires b.OutcomeBody? && b.details.Keys <= OUTCOME_DETAILS
    ensures var fields := OutcomeFields(b);
      && Get(fields, Status) == W(if b.succeeded then SUCCEEDED else FAILED)
      && Get(fields, DecisionEventId) == Str(b.decisionId)
      && Get(fields, ActionName) == Str(b.contract.actionName)
      && Get(fields, ActionId) == Str(b.contract.actionId)
      && Get(fields, ContractHash) == Str(b.contract.contractHash)
      && Get(fields, Receipt) == (if b.receipt.Some? then Compound(true, b.receipt.value) else Null)
      && forall f :: f in OUTCOME_DETAILS ==> Get(fields, f) == Get(b.details, f)
  {
    OutcomeIdentityRead(b);
    OutcomeLinkRead(b);
    hide OutcomeFields, Get;
    forall f | f in OUTCOME_DETAILS ensures Get(OutcomeFields(b), f) == Get(b.details, f) {
      OutcomeDetailsRead(b, f);
    }
  }

  lemma OutcomeLinkRead(b: Body)
    requires b.OutcomeBody? && b.details.Keys <= OUTCOME_DETAILS
    ensures var fields := OutcomeFields(b);
      && Get(fields, Status) == W(if b.succeeded then SUCCEEDED else FAILED)
      && Get(fields, DecisionEventId) == Str(b.decisionId)
      && Get(fields, Receipt) == (if b.receipt.Some? then Compound(true, b.receipt.value) else Null)
  {
  }

  /** The event is this decision: which action, what was decided, and on what. */
  predicate SaysDecision(e: Event, contract: Contract, key: Option<Text>, allowed: bool, dryRun: bool,
                         summary: Json, inputHash: Text, details: Event) {
    && Get(e, EventType) == W(DECISION)
    && Get(e, Verdict) == W(if allowed then ALLOWED else DENIED)
    && Get(e, ActionName) == Str(contract.actionName) && Get(e, ActionId) == Str(contract.actionId)
    && Get(e, ContractHash) == Str(contract.contractHash)
    && Get(e, Risk) == Str(contract.risk) && Get(e, ApprovalMode) == Str(contract.approvalMode)
    && Get(e, RedactedInputSummary) == summary && Get(e, InputHash) == Str(inputHash)
    && Get(e, IdempotencyKey) == (if key.Some? then Str(key.value) else Null)
    && Get(e, DryRun) == (if dryRun then Bool(true) else Null)
    && forall f :: f in DECISION_DETAILS ==> Get(e, f) == Get(details, f)
  }

  /** The event is this outcome of the decision under `decisionId`. */
  predicate SaysOutcome(e: Event, contract: Contract, decisionId: Json, succeeded: bool, receipt: Option<string>, details: Event) {
    && Get(e, EventType) == W(OUTCOME)
    && Get(e, Status) == W(if succeeded then SUCCEEDED else FAILED)
    && Get(e, DecisionEventId) == decisionId
    && Get(e, ActionName) == Str(contract.actionName) && Get(e, ActionId) == Str(contract.actionId)
    && Get(e, ContractHash) == Str(contract.contractHash)
    && Get(e, Receipt) == (if succeeded && receipt.Some? then Compound(true, receipt.value) else Null)
    && forall f :: f in OUTCOME_DETAILS ==> Get(e, f) == Get(details, f)
  }

  lemma EntryBody(p: Platform, trusted: set<Text>, journal: seq<Event>, e: Event, entry: Entry)
    requires WrittenAs(p, trusted, journal, e, entry)
    ensures entry.body.CountersignatureBody? ==> entry.body.checkpoint < |journal|
    ensures entry.body.DecisionBody? ==> entry.body.details.Keys <= DECISION_DETAILS
    ensures entry.body.OutcomeBody? ==> entry.body.details.Keys <= OUTCOME_DETAILS
  {
    hide Payload, Finalize, Fresh;
  }

  lemma BodyFieldsAre(b: Body, stamp: Stamp, journal: seq<Event>)
    ensures b.DecisionBody? ==> BodyFields(b, stamp, journal) == DecisionFields(b)
    ensures b.OutcomeBody? ==> BodyFields(b, stamp, journal) == OutcomeFields(b)
    ensures b.ResolutionBody? ==> BodyFields(b, stamp, journal) == ResolutionFields(b)
  {
    hide DecisionFields, OutcomeFields, ResolutionFields;
  }

  lemma DecisionReads(p: Platform, trusted: set<Text>, journal: seq<Event>, e: Event, entry: Entry)
    requires WrittenAs(p, trusted, journal, e, entry) && entry.body.DecisionBody?
    ensures var b := entry.body;
      && Get(e, Verdict) == W(if b.allowed then ALLOWED else DENIED)
      && Get(e, ActionName) == Str(b.contract.actionName) && Get(e, ActionId) == Str(b.contract.actionId)
      && Get(e, ContractHash) == Str(b.contract.contractHash)
      && Get(e, Risk) == Str(b.contract.risk) && Get(e, ApprovalMode) == Str(b.contract.approvalMode)
      && Get(e, RedactedInputSummary) == b.summary && Get(e, InputHash) == Str(b.inputHash)
      && Get(e, IdempotencyKey) == (if b.key.Some? then Str(b.key.value) else Null)
      && Get(e, DryRun) == (if b.dryRun then Bool(true) else Null)
  {
    hide WrittenAs, DecisionFields, Get, KeyIdOf, Carries, DECISION_DETAILS, BASE;
    NoneIsBase();
    DecisionSays(p, trusted, journal, e, entry);
    DecisionFieldsRead(entry.body);
    var said := DecisionFields(entry.body);
    SaysAt(e, said, Verdict);
    SaysAt(e, said, ActionName);
    SaysAt(e, said, ActionId);
    SaysAt(e, said, ContractHash);
    SaysAt(e, said, Risk);
    SaysAt(e, said, ApprovalMode);
    SaysAt(e, said, RedactedInputSummary);
    SaysAt(e, said, InputHash);
    SaysAt(e, said, IdempotencyKey);
    SaysAt(e, said, DryRun);
  }

  lemma DetailsRead(p: Platform, trusted: set<Text>, journal: seq<Event>, e: Event, entry: Entry, f: Field)
    requires WrittenAs(p, trusted, journal, e, entry) && entry.body.DecisionBody? && f in DECISION_DETAILS
    ensures Get(e, f) == Get(entry.body.details, f)
  {
    hide WrittenAs, DecisionFields, Get, KeyIdOf, Carries;
    DecisionSays(p, trusted, journal, e, entry);
    DecisionFieldsRead(entry.body);
    SaysAt(e, DecisionFields(entry.body), f);
  }

  /** The recorded fact of a decision. */
  lemma DecisionIsRecorded(p: Platform, trusted: set<Text>, journal: seq<Event>, e: Event, entry: Entry)
    requires WrittenAs(p, trusted, journal, e, entry) && entry.body.DecisionBody?
    ensures var b, f := entry.body, FactOf(e);
      && f.id == Str(entry.stamp.id) && f.kind == W(DECISION)
      && f.verdict == W(if b.allowed then ALLOWED else DENIED)
      && f.actionName == Str(b.contract.actionName) && f.actionId == Str(b.contract.actionId)
      && f.contractHash == Str(b.contract.contractHash)
      && f.risk == Str(b.contract.risk) && f.mode == Str(b.contract.approvalMode)
      && f.inputHash == Str(b.inputHash) && f.time == Str(entry.stamp.time)
      && f.key == (if b.key.Some? then Str(b.key.value) else Null)
      && f.dryRun == (if b.dryRun then Bool(true) else Null)
  {
    hide WrittenAs, Get;
    DecisionReads(p, trusted, journal, e, entry);
    SealedFacts(p, trusted, journal, e, entry);
  }

  lemma SealedFacts(p: Platform, trusted: set<Text>, journal: seq<Event>, e: Event, entry: Entry)
    requires WrittenAs(p, trusted, journal, e, entry)
    ensures Get(e, EventId) == Str(entry.stamp.id) && Get(e, EventType) == W(KindWord(entry.body))
    ensures Get(e, TimestampUtc) == Str(entry.stamp.time)
  {
    hide WrittenAs;
    WrittenFacts(p, trusted, journal, e, entry);
  }

  /** The event carries every field that its command recorded. */
  ghost predicate Carries(e: Event, fields: Event) {
    forall f :: f !in BASE && f != EventHash && f != Signature ==> Get(e, f) == Get(fields, f)
  }

  lemma NoneIsBase()
    ensures BASE !! {Verdict, ActionName, ActionId, ContractHash, Risk, ApprovalMode, RedactedInputSummary, InputHash, IdempotencyKey, DryRun}
    ensures BASE !! {DecisionEventId, Status, Receipt} && BASE !! OUTCOME_DETAILS && EventHash !in OUTCOME_DETAILS && Signature !in OUTCOME_DETAILS
  {
  }

  lemma SaysAt(e: Event, fields: Event, f: Field)
    requires Carries(e, fields) && f !in BASE && f != EventHash && f != Signature
    ensures Get(e, f) == Get(fields, f)
  {
    hide Get;
  }

  /** An event says what its command recorded. */
  lemma BodyIsTold(p: Platform, trusted: set<Text>, journal: seq<Event>, e: Event, entry: Entry)
    requires WrittenAs(p, trusted, journal, e, entry)
    ensures entry.body.CountersignatureBody? ==> entry.body.checkpoint < |journal|
    ensures Carries(e, BodyFields(entry.body, entry.stamp, journal))
  {
    hide WrittenAs, Payload, BodyFields, Get, Unsigned, KeyIdOf;
    EntryBody(p, trusted, journal, e, entry);
    WrittenFacts(p, trusted, journal, e, entry);
    forall f | f !in BASE && f != EventHash && f != Signature
      ensures Get(e, f) == Get(BodyFields(entry.body, entry.stamp, journal), f)
    {
      ReadsBody(entry.body, entry.stamp, journal, e, f);
    }
  }

  lemma OutcomeSays(p: Platform, trusted: set<Text>, journal: seq<Event>, e: Event, entry: Entry)
    requires WrittenAs(p, trusted, journal, e, entry) && entry.body.OutcomeBody?
    ensures entry.body.details.Keys <= OUTCOME_DETAILS
    ensures Carries(e, OutcomeFields(entry.body))
  {
    hide WrittenAs, BodyFields, OutcomeFields, Carries;
    EntryBody(p, trusted, journal, e, entry);
    BodyIsTold(p, trusted, journal, e, entry);
    BodyFieldsAre(entry.body, entry.stamp, journal);
  }

  lemma ResolutionSays(p: Platform, trusted: set<Text>, journal: seq<Event>, e: Event, entry: Entry)
    requires WrittenAs(p, trusted, journal, e, entry) && entry.body.ResolutionBody?
    ensures Carries(e, ResolutionFields(entry.body))
  {
    hide WrittenAs, BodyFields, ResolutionFields, Carries;
    BodyIsTold(p, trusted, journal, e, entry);
    BodyFieldsAre(entry.body, entry.stamp, journal);
  }

  /** A decision event says what its command recorded. */
  lemma DecisionSays(p: Platform, trusted: set<Text>, journal: seq<Event>, e: Event, entry: Entry)
    requires WrittenAs(p, trusted, journal, e, entry) && entry.body.DecisionBody?
    ensures entry.body.details.Keys <= DECISION_DETAILS
    ensures Carries(e, DecisionFields(entry.body))
  {
    hide WrittenAs, BodyFields, DecisionFields, Carries;
    EntryBody(p, trusted, journal, e, entry);
    BodyIsTold(p, trusted, journal, e, entry);
    BodyFieldsAre(entry.body, entry.stamp, journal);
  }

  /** An honestly written decision says what its command decided. */
  lemma DecisionSpeaks(p: Platform, trusted: set<Text>, journal: seq<Event>, e: Event, entry: Entry)
    requires WrittenAs(p, trusted, journal, e, entry) && entry.body.DecisionBody?
    ensures var b := entry.body;
      SaysDecision(e, b.contract, b.key, b.allowed, b.dryRun, b.summary, b.inputHash, b.details)
  {
    hide WrittenAs, Get;
    DecisionReads(p, trusted, journal, e, entry);
    SealedFacts(p, trusted, journal, e, entry);
    forall f | f in DECISION_DETAILS ensures Get(e, f) == Get(entry.body.details, f) {
      DetailsRead(p, trusted, journal, e, entry, f);
    }
  }

  lemma OutcomeReads(p: Platform, trusted: set<Text>, journal: seq<Event>, e: Event, entry: Entry)
    requires WrittenAs(p, trusted, journal, e, entry) && entry.body.OutcomeBody?
    ensures var b := entry.body;
      && Get(e, DecisionEventId) == Str(b.decisionId) && Get(e, Status) == W(if b.succeeded then SUCCEEDED else FAILED)
      && Get(e, ActionName) == Str(b.contract.actionName) && Get(e, ActionId) == Str(b.contract.actionId)
      && Get(e, ContractHash) == Str(b.contract.contractHash)
      && Get(e, Receipt) == (if b.receipt.Some? then Compound(true, b.receipt.value) else Null)
      && forall f :: f in OUTCOME_DETAILS ==> Get(e, f) == Get(b.details, f)
  {
    hide WrittenAs, OutcomeFields, Get, KeyIdOf, Carries, BASE;
    NoneIsBase();
    OutcomeSays(p, trusted, journal, e, entry);
    OutcomeFieldsRead(entry.body);
    var said := OutcomeFields(entry.body);
    SaysAt(e, said, DecisionEventId);
    SaysAt(e, said, Status);
    SaysAt(e, said, ActionName);
    SaysAt(e, said, ActionId);
    SaysAt(e, said, ContractHash);
    SaysAt(e, said, Receipt);
    forall f | f in OUTCOME_DETAILS ensures Get(e, f) == Get(entry.body.details, f) {
      SaysAt(e, said, f);
    }
  }

  /** An honestly written outcome says how its call ended. */
  lemma OutcomeSpeaks(p: Platform, trusted: set<Text>, journal: seq<Event>, e: Event, entry: Entry)
    requires WrittenAs(p, trusted, journal, e, entry) && entry.body.OutcomeBody?
    requires !entry.body.succeeded ==> entry.body.receipt.None?
    ensures var b := entry.body;
      SaysOutcome(e, b.contract, Str(b.decisionId), b.succeeded, b.receipt, b.details)
  {
    hide WrittenAs, Get;
    OutcomeReads(p, trusted, journal, e, entry);
    SealedFacts(p, trusted, journal, e, entry);
  }

  /** The recorded fact of an outcome. */
  lemma OutcomeIsRecorded(p: Platform, trusted: set<Text>, journal: seq<Event>, e: Event, entry: Entry)
    requires WrittenAs(p, trusted, journal, e, entry) && entry.body.OutcomeBody?
    ensures var b, f := entry.body, FactOf(e);
      && f.id == Str(entry.stamp.id) && f.kind == W(OUTCOME) && f.time == Str(entry.stamp.time)
      && f.ref == Str(b.decisionId) && f.status == W(if b.succeeded then SUCCEEDED else FAILED)
      && f.actionName == Str(b.contract.actionName) && f.actionId == Str(b.contract.actionId)
      && f.contractHash == Str(b.contract.contractHash)
  {
    hide WrittenAs, Get;
    OutcomeReads(p, trusted, journal, e, entry);
    SealedFacts(p, trusted, journal, e, entry);
  }

  lemma ResolutionFieldsRead(b: Body)
    requires b.ResolutionBody?
    ensures var fields := ResolutionFields(b);
      && Get(fields, DecisionEventId) == Str(b.decisionId)
      && Get(fields, ResolutionValue) == W(if b.completed then CONFIRMED_COMPLETED else CONFIRMED_NOT_COMPLETED)
      && Get(fields, ActionName) == b.actionName && Get(fields, ActionId) == b.actionId
      && Get(fields, ContractHash) == b.contractHash && Get(fields, Note) == Str(b.note)
  {
  }

  /** The recorded fact of an operator resolution, and its note. */
  lemma ResolutionIsRecorded(p: Platform, trusted: set<Text>, journal: seq<Event>, e: Event, entry: Entry)
    requires WrittenAs(p, trusted, journal, e, entry) && entry.body.ResolutionBody?
    ensures var b, f := entry.body, FactOf(e);
      && f.id == Str(entry.stamp.id) && f.kind == W(RESOLUTION) && f.ref == Str(b.decisionId)
      && f.resolution == W(if b.completed then CONFIRMED_COMPLETED else CONFIRMED_NOT_COMPLETED)
      && f.actionName == b.actionName && f.actionId == b.actionId && f.contractHash == b.contractHash
      && Get(e, Note) == Str(b.note)
  {
    hide WrittenAs, Get, ResolutionFields, Carries;
    ResolutionSays(p, trusted, journal, e, entry);
    ResolutionFieldsRead(entry.body);
    SealedFacts(p, trusted, journal, e, entry);
    var said := ResolutionFields(entry.body);
    SaysAt(e, said, DecisionEventId);
    SaysAt(e, said, ResolutionValue);
    SaysAt(e, said, ActionName);
    SaysAt(e, said, ActionId);
    SaysAt(e, said, ContractHash);
    SaysAt(e, said, Note);
  }
}
