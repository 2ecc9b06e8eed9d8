/** The honest writer: how each command builds, seals and appends its event. */
module Writer {
  import opened Evidence

  /** The guarded action an event is about. */
  datatype Contract = Contract(actionId: Text, actionName: Text, contractHash: Text, risk: Text, approvalMode: Text)

  /** What every event gets when it is built under the journal lock. */
  datatype Stamp = Stamp(id: Text, time: Text, keyId: Text)

  /** The fields that may accompany a decision or an outcome; nothing reads them back. */
  const DECISION_DETAILS: set<Field> := {ApprovalReason, ApprovedBy, SpendCents, DuplicateOf, Metadata, ParameterRetention}
  const OUTCOME_DETAILS: set<Field> := {ObservedResultType, RedactedOutputHash, ExceptionType, SanitizedErrorSummary}

  datatype Body =
    | DecisionBody(contract: Contract, allowed: bool, summary: Json, inputHash: Text,
                   key: Option<Text>, dryRun: bool, details: Event)
    | OutcomeBody(contract: Contract, decisionId: Text, succeeded: bool, receipt: Option<string>, details: Event)
    | ResolutionBody(actionId: Json, actionName: Json, contractHash: Json, decisionId: Text, completed: bool, note: Text)
    | CheckpointBody
    | CountersignatureBody(checkpoint: nat)
    | ArchiveBody(priorCount: nat, priorHead: Json, archivedName: string)
    | RotationBody(fingerprint: string)

  /** One appended event: who signed what, and the signature the key produced. */
  datatype Entry = Entry(stamp: Stamp, body: Body, signature: Text)

  function KindWord(b: Body): Word {
    match b
    case DecisionBody(_, _, _, _, _, _, _) => DECISION
    case OutcomeBody(_, _, _, _, _) => OUTCOME
    case ResolutionBody(_, _, _, _, _, _) => RESOLUTION
    case CheckpointBody => CHECKPOINT
    case CountersignatureBody(_) => COUNTERSIGNATURE
    case ArchiveBody(_, _, _) => ARCHIVE
    case RotationBody(_) => ROTATION
  }

  function With(e: Event, f: Field, o: Option<Json>): Event {
    if o.Some? then e[f := o.value] else e
  }

  function Base(b: Body, stamp: Stamp, previous: Json): Event {
    map[SchemaVersion := W(VERSION_1),
        EventType := W(KindWord(b)),
        EventId := Str(stamp.id),
        TimestampUtc := Str(stamp.time),
        KeyId := Str(stamp.keyId),
        PreviousEventHash := previous]
  }

  function DecisionCore(b: Body): Event
    requires b.DecisionBody?
  {
    map[
      ActionId := Str(b.contract.actionId),
      ActionName := Str(b.contract.actionName),
      ContractHash := Str(b.contract.contractHash),
      Verdict := W(if b.allowed then ALLOWED else DENIED),
      Risk := Str(b.contract.risk),
      ApprovalMode := Str(b.contract.approvalMode),
      RedactedInputSummary := b.summary,
      InputHash := Str(b.inputHash)]
  }

  function DecisionFields(b: Body): Event
    requires b.DecisionBody?
  {
    var core := With(DecisionCore(b), IdempotencyKey, if b.key.Some? then Some(Str(b.key.value)) else None);
    b.details + With(core, DryRun, if b.dryRun then Some(Bool(true)) else None)
  }

  function OutcomeFields(b: Body): Event
    requires b.OutcomeBody?
  {
    var core := map[
      ActionId := Str(b.contract.actionId),
      ActionName := Str(b.contract.actionName),
      ContractHash := Str(b.contract.contractHash),
      Status := W(if b.succeeded then SUCCEEDED else FAILED),
      DecisionEventId := Str(b.decisionId)];
    b.details + With(core, Receipt, if b.receipt.Some? then Some(Compound(true, b.receipt.value)) else None)
  }

  function ResolutionFields(b: Body): Event
    requires b.ResolutionBody?
  {
    map[ActionId := b.actionId, ActionName := b.actionName, ContractHash := b.contractHash,
        DecisionEventId := Str(b.decisionId),
        ResolutionValue := W(if b.completed then CONFIRMED_COMPLETED else CONFIRMED_NOT_COMPLETED),
        Note := Str(b.note)]
  }

  /** A key's id: the tag and the first 16 digits of its fingerprint. */
  function KeyIdOf(fingerprint: string): Text {
    Other("ed25519:" + if |fingerprint| <= 16 then fingerprint else fingerprint[..16])
  }

  function BodyFields(b: Body, stamp: Stamp, journal: seq<Event>): Event
    requires b.CountersignatureBody? ==> b.checkpoint < |journal|
  {
    match b
    case DecisionBody(_, _, _, _, _, _, _) => DecisionFields(b)
    case OutcomeBody(_, _, _, _, _) => OutcomeFields(b)
    case ResolutionBody(_, _, _, _, _, _) => ResolutionFields(b)
    case CheckpointBody => map[CheckpointCount := Num(|journal|), HeadSha256 := Head(journal)]
    case CountersignatureBody(c) =>
      map[CheckpointEventId := Get(journal[c], EventId),
          CheckpointCount := Get(journal[c], CheckpointCount),
          HeadSha256 := Get(journal[c], HeadSha256)]
    case ArchiveBody(count, head, name) =>
      map[PriorCount := Num(count), PriorHead := head, ArchivedPath := Str(Other(name))]
    case RotationBody(fingerprint) =>
      map[PriorKeyId := Str(stamp.keyId),
          SuccessorKeyId := Str(KeyIdOf(fingerprint)),
          SuccessorFingerprint := Str(Other(fingerprint))]
  }

  /** The unsigned payload of the next event of `journal`. */
  function Payload(b: Body, stamp: Stamp, journal: seq<Event>): Event
    requires b.CountersignatureBody? ==> b.checkpoint < |journal|
  {
    BodyFields(b, stamp, journal) + Base(b, stamp, Head(journal))
  }

  /** Attaches the hash of the payload and the signature over it. */
  function Finalize(p: Platform, payload: Event, signature: Text): Event {
    payload[EventHash := Str(p.digest(payload))][Signature := Str(signature)]
  }

  predicate HexDigit(c: char) { '0' <= c <= '9' || 'a' <= c <= 'f' }

  predicate Fingerprint(s: string) {
    |s| == 64 && forall i :: 0 <= i < |s| ==> HexDigit(s[i])
  }

  predicate BareName(s: string) {
    '/' !in s && '\\' !in s && s != "." && s != ".."
  }

  /** When a command may append its event at the end of `journal`. */
  predicate Enabled(b: Body, stamp: Stamp, journal: seq<Event>) {
    match b
    case DecisionBody(_, _, _, _, _, _, details) => details.Keys <= DECISION_DETAILS
    case OutcomeBody(_, _, _, _, details) => details.Keys <= OUTCOME_DETAILS
    case CountersignatureBody(c) => c < |journal| && KindOf(journal[c]) == W(CHECKPOINT)
    case ArchiveBody(count, _, name) => journal == [] && count >= 1 && BareName(name)
    case RotationBody(fingerprint) => Fingerprint(fingerprint) && KeyIdOf(fingerprint) != stamp.keyId
    case _ => true
  }

  predicate Fresh(id: Text, journal: seq<Event>) {
    forall i :: 0 <= i < |journal| ==> Get(journal[i], EventId) != Str(id)
  }

  /** `entry` is a legal way for `e` to be the next event of `journal`. */
  predicate WrittenAs(p: Platform, trusted: set<Text>, journal: seq<Event>, e: Event, entry: Entry) {
    && Enabled(entry.body, entry.stamp, journal)
    && Fresh(entry.stamp.id, journal)
    && entry.stamp.keyId in trusted
    && e == Finalize(p, Payload(entry.body, entry.stamp, journal), entry.signature)
    && p.checks(entry.stamp.keyId, p.digest(Payload(entry.body, entry.stamp, journal)), entry.signature)
  }

  ghost predicate Written(p: Platform, trusted: set<Text>, journal: seq<Event>, e: Event) {
    exists entry :: WrittenAs(p, trusted, journal, e, entry)
  }

  /** A journal every event of which was appended by an honest command to the
      events before it. The file is append-only, so it is its own history. */
  ghost predicate Produced(p: Platform, trusted: set<Text>, journal: seq<Event>) {
    forall i :: 0 <= i < |journal| ==> Written(p, trusted, journal[..i], journal[i])
  }

  lemma BodyLeavesSealAlone(b: Body, stamp: Stamp, journal: seq<Event>, f: Field)
    requires Enabled(b, stamp, journal)
    requires f == EventHash || f == Signature
    ensures f !in BodyFields(b, stamp, journal)
  {
    if b.DecisionBody? {
      assert f !in b.details;
    } else if b.OutcomeBody? {
      assert f !in b.details;
    }
  }

  /** Sealing loses nothing: the payload can be read back from the event. */
  lemma FinalizeSeals(p: Platform, payload: Event, signature: Text)
    requires EventHash !in payload && Signature !in payload
    ensures Unsigned(Finalize(p, payload, signature)) == payload
    ensures HashMatches(p, Finalize(p, payload, signature))
    ensures Get(Finalize(p, payload, signature), Signature) == Str(signature)
  {
    assert Unsigned(Finalize(p, payload, signature)) == payload;
  }

  lemma PayloadBase(b: Body, stamp: Stamp, journal: seq<Event>)
    requires b.CountersignatureBody? ==> b.checkpoint < |journal|
    ensures var payload := Payload(b, stamp, journal);
      && PreviousEventHash in payload && payload[PreviousEventHash] == Head(journal)
      && Get(payload, SchemaVersion) == W(VERSION_1)
      && Get(payload, EventId) == Str(stamp.id)
      && Get(payload, EventType) == W(KindWord(b))
      && Get(payload, TimestampUtc) == Str(stamp.time)
      && Get(payload, KeyId) == Str(stamp.keyId)
  {
    assert PreviousEventHash in Base(b, stamp, Head(journal));
  }

  const BASE: set<Field> := {SchemaVersion, EventType, EventId, TimestampUtc, KeyId, PreviousEventHash}

  /** Reading any other field of a sealed event reads the command's own field. */
  lemma ReadsBody(b: Body, stamp: Stamp, journal: seq<Event>, e: Event, f: Field)
    requires b.CountersignatureBody? ==> b.checkpoint < |journal|
    requires Unsigned(e) == Payload(b, stamp, journal)
    requires f !in BASE && f != EventHash && f != Signature
    ensures Get(e, f) == Get(BodyFields(b, stamp, journal), f)
    ensures f in e <==> f in BodyFields(b, stamp, journal)
  {
    hide BodyFields;
    UnsignedKeeps(e, f);
    assert Base(b, stamp, Head(journal)).Keys == BASE;
  }

  lemma ReadsBase(b: Body, stamp: Stamp, journal: seq<Event>, e: Event, f: Field)
    requires b.CountersignatureBody? ==> b.checkpoint < |journal|
    requires Unsigned(e) == Payload(b, stamp, journal)
    requires f in BASE
    ensures f in e && e[f] == Base(b, stamp, Head(journal))[f]
  {
    hide BodyFields;
    UnsignedKeeps(e, f);
    assert f in Base(b, stamp, Head(journal));
  }

  /** What a sealed event says about its place in the journal. */
  lemma WrittenFacts(p: Platform, trusted: set<Text>, journal: seq<Event>, e: Event, entry: Entry)
    requires WrittenAs(p, trusted, journal, e, entry)
    ensures Unsigned(e) == Payload(entry.body, entry.stamp, journal)
    ensures HashMatches(p, e) && Stored(e) == Str(p.digest(Unsigned(e)))
    ensures PreviousEventHash in e && e[PreviousEventHash] == Head(journal)
    ensures Get(e, EventId) == Str(entry.stamp.id)
    ensures Get(e, EventType) == W(KindWord(entry.body))
    ensures Get(e, SchemaVersion) == W(VERSION_1) && Get(e, TimestampUtc) == Str(entry.stamp.time)
    ensures Get(e, KeyId) == Str(entry.stamp.keyId)
    ensures Get(e, Signature) == Str(entry.signature)
  {
    BodyLeavesSealAlone(entry.body, entry.stamp, journal, EventHash);
    BodyLeavesSealAlone(entry.body, entry.stamp, journal, Signature);
    FinalizeSeals(p, Payload(entry.body, entry.stamp, journal), entry.signature);
    PayloadBase(entry.body, entry.stamp, journal);
  }

  /** Honest appends keep the file hash-chained. */
  lemma ProducedIsChained(p: Platform, trusted: set<Text>, journal: seq<Event>)
    requires Produced(p, trusted, journal)
    ensures Chained(p, journal)
  {
    forall i | 0 <= i < |journal|
      ensures HashMatches(p, journal[i]) && PreviousEventHash in journal[i]
      ensures journal[i][PreviousEventHash] == Head(journal[..i])
    {
      assert Written(p, trusted, journal[..i], journal[i]);
      var entry :| WrittenAs(p, trusted, journal[..i], journal[i], entry);
      WrittenFacts(p, trusted, journal[..i], journal[i], entry);
    }
  }

  /** No two events of one journal share an id. */
  lemma ProducedIdsDistinct(p: Platform, trusted: set<Text>, journal: seq<Event>, i: nat, j: nat)
    requires Produced(p, trusted, journal)
    requires i < j < |journal|
    ensures Get(journal[i], EventId) != Get(journal[j], EventId)
  {
    assert Written(p, trusted, journal[..j], journal[j]);
    var entry :| WrittenAs(p, trusted, journal[..j], journal[j], entry);
    WrittenFacts(p, trusted, journal[..j], journal[j], entry);
    assert journal[..j][i] == journal[i];
  }

  lemma ProducedPrefix(p: Platform, trusted: set<Text>, journal: seq<Event>, n: nat)
    requires Produced(p, trusted, journal) && n <= |journal|
    ensures Produced(p, trusted, journal[..n])
  {
    forall i | 0 <= i < n ensures Written(p, trusted, journal[..n][..i], journal[..n][i]) {
      assert journal[..n][..i] == journal[..i];
    }
  }

  lemma ProducedAppend(p: Platform, trusted: set<Text>, journal: seq<Event>, e: Event)
    requires Produced(p, trusted, journal) && Written(p, trusted, journal, e)
    ensures Produced(p, trusted, journal + [e])
  {
    var all := journal + [e];
    forall i | 0 <= i < |all| ensures Written(p, trusted, all[..i], all[i]) {
      if i < |journal| {
        assert Written(p, trusted, journal[..i], journal[i]);
        assert all[..i] == journal[..i];
      } else {
        assert all[..i] == journal;
      }
    }
  }
}
