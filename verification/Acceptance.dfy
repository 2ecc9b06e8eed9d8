/** What verification accepts: exactly the prefixes of what the honest writer wrote. */
module Acceptance {
  import opened Evidence
  import opened Writer
  import opened Verification

  /** Unforgeability: the trusted keys signed nothing but the events of `journal`. */
  ghost predicate OnlySigned(p: Platform, trusted: Keyring, journal: seq<Event>) {
    forall key: Text, digest: Text, signature: Text :: key in trusted && p.checks(key, digest, signature) ==>
      exists i :: 0 <= i < |journal| && digest == p.digest(Unsigned(journal[i]))
  }

  /** `e` has the payload and hash of `f` and a signature that verifies. (Ed25519
      signatures can be re-encoded, so the signature text itself may differ.) */
  predicate Copies(p: Platform, e: Event, f: Event) {
    && Unsigned(e) == Unsigned(f)
    && Get(e, EventHash) == Get(f, EventHash)
    && Signature in e && IsText(Get(f, KeyId))
    && p.checks(Get(f, KeyId).t, p.digest(Unsigned(f)), p.show(e[Signature]))
  }

  predicate CopiesPrefix(p: Platform, es: seq<Event>, journal: seq<Event>) {
    |es| <= |journal| && forall i :: 0 <= i < |es| ==> Copies(p, es[i], journal[i])
  }

  ghost predicate AllClean(p: Platform, trusted: Keyring, es: seq<Event>) {
    forall k :: 0 <= k < |es| ==> CodesAt(p, trusted, es, k) == []
  }

  lemma {:induction false} NoEventIssues(p: Platform, trusted: Keyring, es: seq<Event>, ns: seq<nat>, k: nat)
    requires k <= |es| == |ns|
    ensures EventIssues(p, trusted, es, ns, k) == [] <==> forall i :: 0 <= i < k ==> CodesAt(p, trusted, es, i) == []
  {
    hide CodesAt;
    if k > 0 {
      NoEventIssues(p, trusted, es, ns, k - 1);
      assert |OnLine(ns[k - 1], CodesAt(p, trusted, es, k - 1))| == |CodesAt(p, trusted, es, k - 1)|;
    }
  }

  function CoverageOf(p: Platform, es: seq<Event>, commitment: Option<Event>): seq<Code> {
    Coverage(NewestBefore(es, |es|), commitment, FoundBefore(p, es, commitment, |es|), |es|)
  }

  /** A verdict is favourable when nothing at all was reported. */
  lemma ValidMeans(p: Platform, trusted: Keyring, lines: seq<Line>, w: WitnessFile)
    ensures Verify(p, trusted, lines, w).valid <==>
      && LoadWitness(p, trusted, w).1 == []
      && AllClean(p, trusted, Read(lines))
      && Readable(lines) == |lines|
      && CoverageOf(p, Read(lines), LoadWitness(p, trusted, w).0) == []
  {
    hide CodesAt, LoadWitness, Coverage, FoundBefore, NewestBefore;
    var es := Read(lines);
    NoEventIssues(p, trusted, es, Numbers(lines, Readable(lines)), |es|);
  }

  // ---- Accepted events are the writer's --------------------------------

  lemma CleanEventFacts(p: Platform, trusted: Keyring, e: Event, expected: Json, checkpoints: Checkpoints)
    requires VerifyEvent(p, trusted, e, expected, checkpoints) == []
    ensures CHAINED <= e.Keys && KnownKind(KindOf(e))
    ensures PyEq(e[PreviousEventHash], expected)
    ensures HashMatches(p, e)
    ensures IsText(e[KeyId]) && e[KeyId].t in trusted
    ensures p.checks(e[KeyId].t, p.digest(Unsigned(e)), p.show(e[Signature]))
  {
    hide Shape;
    assert CHAINED <= Required(KindOf(e));
    assert Integrity(p, trusted, e, expected) == [];
  }

  lemma RequiredIfClean(p: Platform, trusted: Keyring, e: Event, expected: Json, checkpoints: Checkpoints)
    requires VerifyEvent(p, trusted, e, expected, checkpoints) == []
    ensures Get(e, SchemaVersion) == W(VERSION_1) && KnownKind(KindOf(e)) && Required(KindOf(e)) <= e.Keys
  {
    hide Shape, Integrity;
  }

  /** A well-signed event is a copy of some event of the journal. */
  lemma SignedIsCopy(p: Platform, trusted: Keyring, journal: seq<Event>, e: Event) returns (i: nat)
    requires InjectiveDigest(p) && OnlySigned(p, trusted, journal) && Chained(p, journal)
    requires KeyId in e && EventHash in e && Signature in e
    requires HashMatches(p, e) && IsText(e[KeyId]) && e[KeyId].t in trusted
    requires p.checks(e[KeyId].t, p.digest(Unsigned(e)), p.show(e[Signature]))
    ensures i < |journal| && Copies(p, e, journal[i])
  {
    i :| 0 <= i < |journal| && p.digest(Unsigned(e)) == p.digest(Unsigned(journal[i]));
    assert HashMatches(p, journal[i]);
    UnsignedAgree(e, journal[i], KeyId);
  }

  /** What the chain says about event `i`, and about what the next one must name. */
  lemma ChainedAt(p: Platform, journal: seq<Event>, i: nat)
    requires Chained(p, journal) && i < |journal|
    ensures HashMatches(p, journal[i]) && Stored(journal[i]) == journal[i][EventHash] && Stored(journal[i]) != Null
    ensures Get(journal[i], PreviousEventHash) == if i == 0 then Null else Stored(journal[i - 1])
  {
    if i > 0 {
      assert journal[..i][i - 1] == journal[i - 1];
    }
  }

  /** The predecessor named by an event of the journal fixes its position. */
  lemma PredecessorFixesPosition(p: Platform, trusted: Keyring, journal: seq<Event>, i: nat, k: nat)
    requires InjectiveDigest(p) && Produced(p, trusted, journal)
    requires i < |journal| && k <= |journal|
    requires Get(journal[i], PreviousEventHash) == Expected(journal, k)
    ensures i == k
  {
    hide Produced, Chained, HashMatches, InjectiveDigest;
    ProducedIsChained(p, trusted, journal);
    ChainedAt(p, journal, i);
    if k > 0 {
      ChainedAt(p, journal, k - 1);
    }
    if i > 0 {
      ChainedAt(p, journal, i - 1);
    }
    if i > 0 && k > 0 {
      StoredHashFixesPosition(p, trusted, journal, i - 1, k - 1);
    }
  }

  lemma StoredHashFixesPosition(p: Platform, trusted: Keyring, journal: seq<Event>, i: nat, k: nat)
    requires InjectiveDigest(p) && Produced(p, trusted, journal)
    requires i < |journal| && k < |journal| && Stored(journal[i]) == Stored(journal[k])
    ensures i == k
  {
    hide Produced, Chained, HashMatches, InjectiveDigest;
    ProducedIsChained(p, trusted, journal);
    ChainedAt(p, journal, i);
    ChainedAt(p, journal, k);
    DigestsEqual(p, journal[i], journal[k]);
    UnsignedAgree(journal[i], journal[k], EventId);
    if i < k {
      ProducedIdsDistinct(p, trusted, journal, i, k);
    } else if k < i {
      ProducedIdsDistinct(p, trusted, journal, k, i);
    }
  }

  lemma CopiesStore(p: Platform, e: Event, f: Event)
    requires Copies(p, e, f)
    ensures Stored(e) == Stored(f)
  {
  }

  lemma {:induction false} AcceptedUpTo(p: Platform, trusted: Keyring, journal: seq<Event>, es: seq<Event>, k: nat)
    requires InjectiveDigest(p) && Produced(p, trusted, journal) && OnlySigned(p, trusted, journal)
    requires AllClean(p, trusted, es) && k <= |es|
    ensures k <= |journal| && forall i :: 0 <= i < k ==> Copies(p, es[i], journal[i])
  {
    hide VerifyEvent, Produced, OnlySigned, Copies, InjectiveDigest;
    if k > 0 {
      AcceptedUpTo(p, trusted, journal, es, k - 1);
      assert CodesAt(p, trusted, es, k - 1) == [];
      CleanEventFacts(p, trusted, es[k - 1], Expected(es, k - 1), CheckpointsBefore(es, k - 1));
      ProducedIsChained(p, trusted, journal);
      var i := SignedIsCopy(p, trusted, journal, es[k - 1]);
      if k > 1 {
        CopiesStore(p, es[k - 2], journal[k - 2]);
      }
      SamePredecessor(p, es[k - 1], journal[i], Expected(es, k - 1));
      PredecessorFixesPosition(p, trusted, journal, i, k - 1);
    }
  }

  lemma SamePredecessor(p: Platform, e: Event, f: Event, expected: Json)
    requires Copies(p, e, f) && PreviousEventHash in e && PyEq(e[PreviousEventHash], expected)
    requires expected.Null? || expected.Str?
    ensures Get(f, PreviousEventHash) == expected
  {
    UnsignedAgree(e, f, PreviousEventHash);
  }

  // ---- The writer's events are accepted --------------------------------

  /** Each checkpoint of the journal is found under its id with its count and head. */
  ghost predicate Holds(checkpoints: Checkpoints, journal: seq<Event>) {
    forall c :: 0 <= c < |journal| && KindOf(journal[c]) == W(CHECKPOINT) ==>
      && IsText(Get(journal[c], EventId))
      && Get(journal[c], EventId).t in checkpoints
      && var found := checkpoints[Get(journal[c], EventId).t];
         Get(found, CheckpointCount) == Get(journal[c], CheckpointCount) && Get(found, HeadSha256) == Get(journal[c], HeadSha256)
  }

  /** A produced checkpoint counts the events before it and names their head. */
  lemma CheckpointCounts(p: Platform, trusted: Keyring, journal: seq<Event>, c: nat)
    requires Produced(p, trusted, journal) && c < |journal| && KindOf(journal[c]) == W(CHECKPOINT)
    ensures Get(journal[c], CheckpointCount) == Num(c)
    ensures Get(journal[c], HeadSha256) == Head(journal[..c]) == Get(journal[c], PreviousEventHash)
  {
    assert Written(p, trusted, journal[..c], journal[c]);
    var entry :| WrittenAs(p, trusted, journal[..c], journal[c], entry);
    hide Payload, Enabled, WrittenAs, Produced;
    WrittenCheckpoint(p, trusted, journal[..c], journal[c], entry);
  }

  lemma WrittenCheckpoint(p: Platform, trusted: Keyring, before: seq<Event>, e: Event, entry: Entry)
    requires WrittenAs(p, trusted, before, e, entry) && KindOf(e) == W(CHECKPOINT)
    ensures Get(e, CheckpointCount) == Num(|before|)
    ensures Get(e, HeadSha256) == Head(before) == Get(e, PreviousEventHash)
  {
    hide Payload, Enabled, WrittenAs;
    WrittenFacts(p, trusted, before, e, entry);
    assert entry.body == CheckpointBody;
    ReadsBody(entry.body, entry.stamp, before, e, CheckpointCount);
    ReadsBody(entry.body, entry.stamp, before, e, HeadSha256);
  }

  lemma DecisionFieldsComplete(b: Body, stamp: Stamp, journal: seq<Event>)
    requires b.DecisionBody?
    ensures Required(W(DECISION)) <= BASE + {EventHash, Signature} + BodyFields(b, stamp, journal).Keys
  {
    assert DecisionCore(b).Keys <= DecisionFields(b).Keys;
  }

  lemma OutcomeFieldsComplete(b: Body, stamp: Stamp, journal: seq<Event>)
    requires b.OutcomeBody?
    ensures Required(W(OUTCOME)) <= BASE + {EventHash, Signature} + BodyFields(b, stamp, journal).Keys
  {
  }

  lemma ResolutionFieldsComplete(b: Body, stamp: Stamp, journal: seq<Event>)
    requires b.ResolutionBody?
    ensures Required(W(RESOLUTION)) <= BASE + {EventHash, Signature} + BodyFields(b, stamp, journal).Keys
  {
  }

  lemma FieldsComplete(b: Body, stamp: Stamp, journal: seq<Event>)
    requires Enabled(b, stamp, journal)
    ensures Required(W(KindWord(b))) <= BASE + {EventHash, Signature} + BodyFields(b, stamp, journal).Keys
  {
    hide Enabled;
    if b.DecisionBody? {
      DecisionFieldsComplete(b, stamp, journal);
    } else if b.OutcomeBody? {
      OutcomeFieldsComplete(b, stamp, journal);
    } else if b.ResolutionBody? {
      ResolutionFieldsComplete(b, stamp, journal);
    }
  }

  lemma PayloadComplete(b: Body, stamp: Stamp, journal: seq<Event>, e: Event)
    requires Enabled(b, stamp, journal)
    requires Unsigned(e) == Payload(b, stamp, journal) && EventHash in e && Signature in e
    ensures Get(e, SchemaVersion) == W(VERSION_1) && KindOf(e) == W(KindWord(b))
    ensures Required(W(KindWord(b))) <= e.Keys
  {
    hide BodyFields, Payload, Required;
    ReadsBase(b, stamp, journal, e, SchemaVersion);
    ReadsBase(b, stamp, journal, e, EventType);
    FieldsComplete(b, stamp, journal);
    forall f | f in Required(W(KindWord(b))) ensures f in e {
      if f in BASE {
        ReadsBase(b, stamp, journal, e, f);
      } else if f != EventHash && f != Signature {
        ReadsBody(b, stamp, journal, e, f);
      }
    }
  }

  lemma DecisionOrOutcomeShape(b: Body, stamp: Stamp, journal: seq<Event>, e: Event, checkpoints: Checkpoints)
    requires b.DecisionBody? || b.OutcomeBody?
    requires Enabled(b, stamp, journal) && Unsigned(e) == Payload(b, stamp, journal) && KindOf(e) == W(KindWord(b))
    ensures Shape(e, checkpoints) == []
  {
    hide Payload;
    if b.OutcomeBody? {
      ReadsBody(b, stamp, journal, e, Receipt);
      assert Receipt !in b.details;
    }
  }

  lemma ResolutionIsSound(b: Body, stamp: Stamp, journal: seq<Event>, e: Event)
    requires b.ResolutionBody? && Unsigned(e) == Payload(b, stamp, journal)
    ensures ResolutionShape(e) == []
  {
    hide Payload;
    ReadsBody(b, stamp, journal, e, ResolutionValue);
    ReadsBody(b, stamp, journal, e, DecisionEventId);
    ReadsBody(b, stamp, journal, e, Note);
  }

  lemma CheckpointIsSound(b: Body, stamp: Stamp, journal: seq<Event>, e: Event)
    requires b.CheckpointBody? && Unsigned(e) == Payload(b, stamp, journal)
    ensures CheckpointShape(e) == []
  {
    hide Payload;
    ReadsBase(b, stamp, journal, e, PreviousEventHash);
    ReadsBody(b, stamp, journal, e, CheckpointCount);
    ReadsBody(b, stamp, journal, e, HeadSha256);
  }

  lemma CountersignatureIsSound(p: Platform, trusted: Keyring, b: Body, stamp: Stamp, journal: seq<Event>, e: Event, checkpoints: Checkpoints)
    requires b.CountersignatureBody? && Enabled(b, stamp, journal)
    requires Produced(p, trusted, journal) && Holds(checkpoints, journal)
    requires Unsigned(e) == Payload(b, stamp, journal)
    ensures CountersignatureShape(e, checkpoints) == []
  {
    hide Payload, Produced;
    CheckpointCounts(p, trusted, journal, b.checkpoint);
    ReadsBody(b, stamp, journal, e, CheckpointEventId);
    ReadsBody(b, stamp, journal, e, CheckpointCount);
    ReadsBody(b, stamp, journal, e, HeadSha256);
    assert Get(e, CheckpointEventId) == Get(journal[b.checkpoint], EventId);
  }

  lemma ArchiveIsSound(b: Body, stamp: Stamp, journal: seq<Event>, e: Event)
    requires b.ArchiveBody? && Enabled(b, stamp, journal)
    requires Unsigned(e) == Payload(b, stamp, journal)
    ensures ArchiveShape(e) == []
  {
    hide Payload;
    ReadsBase(b, stamp, journal, e, PreviousEventHash);
    ReadsBody(b, stamp, journal, e, PriorCount);
    ReadsBody(b, stamp, journal, e, ArchivedPath);
  }

  lemma KeyIdIsWellFormed(fingerprint: string)
    requires Fingerprint(fingerprint)
    ensures KeyIdText(Str(KeyIdOf(fingerprint))) && HexText(Str(Other(fingerprint)))
    ensures KeyIdOf(fingerprint) == Other("ed25519:" + fingerprint[..16])
  {
  }

  lemma RotationFieldsAreSound(e: Event, keyId: Text, fingerprint: string)
    requires Fingerprint(fingerprint) && KeyIdOf(fingerprint) != keyId
    requires Get(e, KeyId) == Get(e, PriorKeyId) == Str(keyId)
    requires Get(e, SuccessorKeyId) == Str(KeyIdOf(fingerprint)) && Get(e, SuccessorFingerprint) == Str(Other(fingerprint))
    ensures RotationShape(e) == []
  {
    KeyIdIsWellFormed(fingerprint);
    hide KeyIdText, HexText, KeyIdOf, Fingerprint;
  }

  lemma RotationIsSound(b: Body, stamp: Stamp, journal: seq<Event>, e: Event)
    requires b.RotationBody? && Fingerprint(b.fingerprint) && KeyIdOf(b.fingerprint) != stamp.keyId
    requires Unsigned(e) == Payload(b, stamp, journal)
    ensures RotationShape(e) == []
  {
    hide Payload, KeyIdOf, Fingerprint, RotationShape, Unsigned, BodyFields, Base, Get;
    ReadsBase(b, stamp, journal, e, KeyId);
    KeyIdIsRead(b, stamp, journal, e);
    ReadsBody(b, stamp, journal, e, PriorKeyId);
    ReadsBody(b, stamp, journal, e, SuccessorKeyId);
    ReadsBody(b, stamp, journal, e, SuccessorFingerprint);
    RotationFieldsAre(b, stamp, journal);
    RotationFieldsAreSound(e, stamp.keyId, b.fingerprint);
  }

  lemma KeyIdIsRead(b: Body, stamp: Stamp, journal: seq<Event>, e: Event)
    requires KeyId in e && e[KeyId] == Base(b, stamp, Head(journal))[KeyId]
    ensures Get(e, KeyId) == Str(stamp.keyId)
  {
  }

  lemma RotationFieldsAre(b: Body, stamp: Stamp, journal: seq<Event>)
    requires b.RotationBody?
    ensures var fields := BodyFields(b, stamp, journal);
      && Get(fields, PriorKeyId) == Str(stamp.keyId) && Get(fields, SuccessorKeyId) == Str(KeyIdOf(b.fingerprint))
      && Get(fields, SuccessorFingerprint) == Str(Other(b.fingerprint))
  {
    hide KeyIdOf;
  }

  lemma EnabledRotation(b: Body, stamp: Stamp, journal: seq<Event>)
    requires b.RotationBody? && Enabled(b, stamp, journal)
    ensures Fingerprint(b.fingerprint) && KeyIdOf(b.fingerprint) != stamp.keyId
  {
  }

  lemma ShapeIsSound(p: Platform, trusted: Keyring, b: Body, stamp: Stamp, journal: seq<Event>, e: Event, checkpoints: Checkpoints)
    requires Enabled(b, stamp, journal) && Unsigned(e) == Payload(b, stamp, journal) && KindOf(e) == W(KindWord(b))
    requires Produced(p, trusted, journal) && Holds(checkpoints, journal)
    ensures Shape(e, checkpoints) == []
  {
    hide Enabled, Payload, Produced, Holds, ResolutionShape, CheckpointShape, CountersignatureShape, OutcomeShape, ArchiveShape, RotationShape;
    match b {
      case ResolutionBody(_, _, _, _, _, _) => ResolutionIsSound(b, stamp, journal, e);
      case CheckpointBody => CheckpointIsSound(b, stamp, journal, e);
      case CountersignatureBody(_) => CountersignatureIsSound(p, trusted, b, stamp, journal, e, checkpoints);
      case ArchiveBody(_, _, _) => ArchiveIsSound(b, stamp, journal, e);
      case RotationBody(_) =>
        assert Fingerprint(b.fingerprint) && KeyIdOf(b.fingerprint) != stamp.keyId by { EnabledRotation(b, stamp, journal); }
        RotationIsSound(b, stamp, journal, e);
      case _ => DecisionOrOutcomeShape(b, stamp, journal, e, checkpoints);
    }
  }

  /** An honestly written event passes every check where it stands, and so does any copy of it. */
  lemma WrittenPasses(p: Platform, trusted: Keyring, journal: seq<Event>, f: Event, e: Event, checkpoints: Checkpoints)
    requires Produced(p, trusted, journal) && Written(p, trusted, journal, f)
    requires Copies(p, e, f) && Holds(checkpoints, journal)
    ensures VerifyEvent(p, trusted, e, Head(journal), checkpoints) == []
  {
    hide Shape, Enabled, Payload, Produced, Holds;
    var entry :| WrittenAs(p, trusted, journal, f, entry);
    WrittenFacts(p, trusted, journal, f, entry);
    PayloadComplete(entry.body, entry.stamp, journal, e);
    ShapeIsSound(p, trusted, entry.body, entry.stamp, journal, e, checkpoints);
    CopyIntact(p, trusted, journal, f, e);
  }

  lemma CopyIntact(p: Platform, trusted: Keyring, journal: seq<Event>, f: Event, e: Event)
    requires Copies(p, e, f) && CHAINED <= e.Keys
    requires HashMatches(p, f) && PreviousEventHash in f && f[PreviousEventHash] == Head(journal)
    requires Get(f, KeyId).Str? && Get(f, KeyId).t in trusted
    ensures Integrity(p, trusted, e, Head(journal)) == []
  {
    UnsignedAgree(e, f, PreviousEventHash);
    UnsignedAgree(e, f, KeyId);
  }

  // ---- Theorems --------------------------------------------------------

  lemma CopiesRead(p: Platform, e: Event, f: Event, field: Field)
    requires Copies(p, e, f) && field != Signature
    ensures Get(e, field) == Get(f, field)
  {
    if field != EventHash {
      UnsignedAgree(e, f, field);
    }
  }

  lemma {:induction false} CheckpointsHeld(p: Platform, trusted: Keyring, journal: seq<Event>, es: seq<Event>, k: nat)
    requires Produced(p, trusted, journal) && CopiesPrefix(p, es, journal) && k <= |es|
    ensures Holds(CheckpointsBefore(es, k), journal[..k])
  {
    hide Copies, Written;
    if k > 0 {
      CheckpointsHeld(p, trusted, journal, es, k - 1);
      forall c | 0 <= c < k && KindOf(journal[c]) == W(CHECKPOINT)
        ensures IsText(Get(journal[c], EventId))
        ensures Get(journal[c], EventId).t in CheckpointsBefore(es, k)
        ensures Get(CheckpointsBefore(es, k)[Get(journal[c], EventId).t], CheckpointCount) == Get(journal[c], CheckpointCount)
        ensures Get(CheckpointsBefore(es, k)[Get(journal[c], EventId).t], HeadSha256) == Get(journal[c], HeadSha256)
      {
        ProducedIdIsText(p, trusted, journal, c);
        if c == k - 1 {
          CopiesRead(p, es[c], journal[c], EventType);
          CopiesRead(p, es[c], journal[c], EventId);
          CopiesRead(p, es[c], journal[c], CheckpointCount);
          CopiesRead(p, es[c], journal[c], HeadSha256);
        } else {
          assert journal[..k - 1][c] == journal[c];
          ProducedIdsDistinct(p, trusted, journal, c, k - 1);
          CopiesRead(p, es[k - 1], journal[k - 1], EventId);
        }
      }
      assert forall c :: 0 <= c < k ==> journal[..k][c] == journal[c];
    }
  }

  lemma ProducedIdIsText(p: Platform, trusted: Keyring, journal: seq<Event>, c: nat)
    requires Produced(p, trusted, journal) && c < |journal|
    ensures IsText(Get(journal[c], EventId))
  {
    assert Written(p, trusted, journal[..c], journal[c]);
    var entry :| WrittenAs(p, trusted, journal[..c], journal[c], entry);
    WrittenFacts(p, trusted, journal[..c], journal[c], entry);
  }

  lemma CopiesAreClean(p: Platform, trusted: Keyring, journal: seq<Event>, es: seq<Event>, k: nat)
    requires Produced(p, trusted, journal) && CopiesPrefix(p, es, journal) && k < |es|
    ensures CodesAt(p, trusted, es, k) == []
  {
    hide VerifyEvent, Holds, Written;
    assert Written(p, trusted, journal[..k], journal[k]);
    ProducedPrefix(p, trusted, journal, k);
    CheckpointsHeld(p, trusted, journal, es, k);
    WrittenPasses(p, trusted, journal[..k], journal[k], es[k], CheckpointsBefore(es, k));
    if k > 0 {
      CopiesStore(p, es[k - 1], journal[k - 1]);
    }
    assert Expected(es, k) == Head(journal[..k]);
  }

  lemma {:induction false} NewestIsCovered(p: Platform, trusted: Keyring, journal: seq<Event>, es: seq<Event>, k: nat)
    requires Produced(p, trusted, journal) && CopiesPrefix(p, es, journal) && k <= |es|
    ensures NewestBefore(es, k).Some? ==>
      IsInt(Get(NewestBefore(es, k).value, CheckpointCount)) && IntValue(Get(NewestBefore(es, k).value, CheckpointCount)) <= k
  {
    hide Copies, Produced;
    if k > 0 {
      NewestIsCovered(p, trusted, journal, es, k - 1);
      CopiesRead(p, es[k - 1], journal[k - 1], EventType);
      CopiesRead(p, es[k - 1], journal[k - 1], CheckpointCount);
      if KindOf(journal[k - 1]) == W(CHECKPOINT) {
        CheckpointCounts(p, trusted, journal, k - 1);
      }
    }
  }

  /** Event by event, the checks pass on copies of a prefix of the journal and on nothing else. */
  lemma CleanExactlyCopies(p: Platform, trusted: Keyring, journal: seq<Event>, es: seq<Event>)
    requires InjectiveDigest(p) && Produced(p, trusted, journal) && OnlySigned(p, trusted, journal)
    ensures AllClean(p, trusted, es) <==> CopiesPrefix(p, es, journal)
  {
    hide Produced, OnlySigned, InjectiveDigest, Copies, CodesAt;
    if AllClean(p, trusted, es) {
      AcceptedUpTo(p, trusted, journal, es, |es|);
    }
    if CopiesPrefix(p, es, journal) {
      forall k | 0 <= k < |es| ensures CodesAt(p, trusted, es, k) == [] {
        CopiesAreClean(p, trusted, journal, es, k);
      }
    }
  }

  /** Without a checkpoint witness: a file is accepted exactly when every line
      parses and its events copy a prefix of the writer's journal. */
  lemma AcceptsExactlyPrefixes(p: Platform, trusted: Keyring, journal: seq<Event>, lines: seq<Line>)
    requires InjectiveDigest(p) && Produced(p, trusted, journal) && OnlySigned(p, trusted, journal)
    ensures Verify(p, trusted, lines, NoWitness).valid
      <==> Readable(lines) == |lines| && CopiesPrefix(p, Read(lines), journal)
  {
    hide Produced, OnlySigned, InjectiveDigest, Copies, Verify, CodesAt, FoundBefore, AllClean;
    var es := Read(lines);
    ValidMeans(p, trusted, lines, NoWitness);
    CleanExactlyCopies(p, trusted, journal, es);
    if CopiesPrefix(p, es, journal) {
      NewestIsCovered(p, trusted, journal, es, |es|);
    }
  }

  /** The writer's own file is always accepted. */
  lemma ProducedVerifies(p: Platform, trusted: Keyring, journal: seq<Event>, lines: seq<Line>)
    requires ShowsTexts(p) && Produced(p, trusted, journal)
    requires Readable(lines) == |lines| && Read(lines) == journal
    ensures Verify(p, trusted, lines, NoWitness).valid
  {
    hide Produced, Copies, Verify, CodesAt, FoundBefore, NewestBefore;
    ValidMeans(p, trusted, lines, NoWitness);
    forall i | 0 <= i < |journal| ensures Copies(p, journal[i], journal[i]) {
      ProducedCopiesItself(p, trusted, journal, i);
    }
    forall k | 0 <= k < |journal| ensures CodesAt(p, trusted, journal, k) == [] {
      CopiesAreClean(p, trusted, journal, journal, k);
    }
    NewestIsCovered(p, trusted, journal, journal, |journal|);
  }

  // ---- With a witness --------------------------------------------------

  lemma CleanCheckpointIsWitness(p: Platform, trusted: Keyring, e: Event, expected: Json, checkpoints: Checkpoints)
    requires VerifyEvent(p, trusted, e, expected, checkpoints) == [] && KindOf(e) == W(CHECKPOINT)
    ensures WitnessOk(p, trusted, e)
  {
    CleanEventFacts(p, trusted, e, expected, checkpoints);
    hide Integrity, HashMatches;
    assert CheckpointShape(e) == [];
  }

  lemma CopyIsWitness(p: Platform, trusted: Keyring, journal: seq<Event>, c: nat, w: Event)
    requires ShowsTexts(p) && Produced(p, trusted, journal) && c < |journal|
    requires KindOf(journal[c]) == W(CHECKPOINT) && Copies(p, w, journal[c])
    ensures WitnessOk(p, trusted, w)
    ensures IsInt(Get(w, CheckpointCount)) && IntValue(Get(w, CheckpointCount)) == c
  {
    hide VerifyEvent, Copies, Written, Produced, WitnessOk;
    var es := journal[..c];
    forall i | 0 <= i < c ensures Copies(p, es[i], journal[i]) { ProducedCopiesItself(p, trusted, journal, i); }
    CopiesRead(p, w, journal[c], EventType);
    CopiesRead(p, w, journal[c], CheckpointCount);
    CheckpointCounts(p, trusted, journal, c);
    CopiesAreClean(p, trusted, journal, es + [w], c);
    CleanCheckpointIsWitness(p, trusted, w, Expected(es + [w], c), CheckpointsBefore(es + [w], c));
  }

  lemma ProducedCopiesItself(p: Platform, trusted: Keyring, journal: seq<Event>, i: nat)
    requires Produced(p, trusted, journal) && i < |journal| && ShowsTexts(p)
    ensures Copies(p, journal[i], journal[i])
  {
    assert Written(p, trusted, journal[..i], journal[i]);
    var entry :| WrittenAs(p, trusted, journal[..i], journal[i], entry);
    WrittenFacts(p, trusted, journal[..i], journal[i], entry);
    hide Payload, Enabled;
  }

  lemma WitnessIsCopy(p: Platform, trusted: Keyring, journal: seq<Event>, w: Event) returns (c: nat)
    requires InjectiveDigest(p) && Produced(p, trusted, journal) && OnlySigned(p, trusted, journal)
    requires WitnessOk(p, trusted, w)
    ensures c < |journal| && Copies(p, w, journal[c]) && KindOf(journal[c]) == W(CHECKPOINT)
  {
    hide Produced;
    ProducedIsChained(p, trusted, journal);
    c := SignedIsCopy(p, trusted, journal, w);
    CopiesRead(p, w, journal[c], EventType);
  }

  /** The witness is found exactly when the file reaches its checkpoint. */
  lemma FoundMeans(p: Platform, trusted: Keyring, journal: seq<Event>, es: seq<Event>, w: Event, c: nat)
    requires ShowsTexts(p) && Produced(p, trusted, journal) && CopiesPrefix(p, es, journal)
    requires c < |journal| && Copies(p, w, journal[c])
    ensures FoundBefore(p, es, Some(w), |es|) <==> c < |es|
  {
    hide Copies, Produced;
    CopiesRead(p, w, journal[c], EventId);
    ProducedIdIsText(p, trusted, journal, c);
    if c < |es| {
      CopiesRead(p, es[c], journal[c], EventId);
      assert Names(p, es[c], w);
    }
    if FoundBefore(p, es, Some(w), |es|) {
      var i :| 0 <= i < |es| && Names(p, es[i], w);
      CopiesRead(p, es[i], journal[i], EventId);
      if i < c {
        ProducedIdsDistinct(p, trusted, journal, i, c);
      } else if c < i {
        ProducedIdsDistinct(p, trusted, journal, c, i);
      }
    }
  }

  /** The events reach past the checkpoint that `w` witnesses. */
  predicate ReachesPast(p: Platform, journal: seq<Event>, w: Event, length: nat) {
    exists c :: 0 <= c < |journal| && c < length && KindOf(journal[c]) == W(CHECKPOINT) && Copies(p, w, journal[c])
  }

  lemma CoverageMeans(p: Platform, trusted: Keyring, journal: seq<Event>, es: seq<Event>, w: Event, c: nat)
    requires ShowsTexts(p) && Produced(p, trusted, journal) && CopiesPrefix(p, es, journal)
    requires c < |journal| && KindOf(journal[c]) == W(CHECKPOINT) && Copies(p, w, journal[c])
    ensures CoverageOf(p, es, Some(w)) == [] <==> c < |es|
  {
    hide Copies, Produced, FoundBefore, NewestBefore;
    FoundMeans(p, trusted, journal, es, w, c);
    NewestIsCovered(p, trusted, journal, es, |es|);
    CopyIsWitness(p, trusted, journal, c, w);
  }

  lemma WitnessFixesCheckpoint(p: Platform, trusted: Keyring, journal: seq<Event>, w: Event, c: nat, d: nat)
    requires Produced(p, trusted, journal) && c < |journal| && d < |journal|
    requires Copies(p, w, journal[c]) && Copies(p, w, journal[d])
    ensures c == d
  {
    hide Copies, Produced;
    CopiesRead(p, w, journal[c], EventId);
    CopiesRead(p, w, journal[d], EventId);
    if c < d {
      ProducedIdsDistinct(p, trusted, journal, c, d);
    } else if d < c {
      ProducedIdsDistinct(p, trusted, journal, d, c);
    }
  }

  /** With a witness: accepted exactly when the witness is a genuine checkpoint of
      the journal and the file is a prefix reaching past it. */
  lemma AcceptsExactlyPrefixesPast(p: Platform, trusted: Keyring, journal: seq<Event>, lines: seq<Line>, w: Event)
    requires InjectiveDigest(p) && ShowsTexts(p) && Produced(p, trusted, journal) && OnlySigned(p, trusted, journal)
    ensures Verify(p, trusted, lines, Witness(w)).valid
      <==> Readable(lines) == |lines| && CopiesPrefix(p, Read(lines), journal) && ReachesPast(p, journal, w, |Read(lines)|)
  {
    hide Produced, OnlySigned, InjectiveDigest, ShowsTexts, Copies, Verify, AllClean, CoverageOf, WitnessOk;
    var es := Read(lines);
    ValidMeans(p, trusted, lines, Witness(w));
    CleanExactlyCopies(p, trusted, journal, es);
    if WitnessOk(p, trusted, w) && CopiesPrefix(p, es, journal) {
      var c := WitnessIsCopy(p, trusted, journal, w);
      CoverageMeans(p, trusted, journal, es, w, c);
      forall d | 0 <= d < |journal| && Copies(p, w, journal[d]) ensures d == c {
        WitnessFixesCheckpoint(p, trusted, journal, w, c, d);
      }
    }
    forall c | 0 <= c < |journal| && KindOf(journal[c]) == W(CHECKPOINT) && Copies(p, w, journal[c]) ensures WitnessOk(p, trusted, w) {
      CopyIsWitness(p, trusted, journal, c, w);
    }
  }
}
