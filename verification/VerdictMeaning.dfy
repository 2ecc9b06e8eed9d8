/** What a verdict says, with no assumption on who signed what: when each code is
    reported, told from the events alone, and what a favourable verdict guarantees. */
module VerdictMeaning {
  import opened Evidence
  import opened Verification
  import opened Acceptance

  // ---- One event among the others --------------------------------------

  predicate Is(e: Event, kind: Word) { KindOf(e) == W(kind) }

  predicate Supported(e: Event) { Get(e, SchemaVersion) == W(VERSION_1) }

  predicate OfSomeKind(e: Event) {
    || Is(e, DECISION) || Is(e, OUTCOME) || Is(e, CHECKPOINT) || Is(e, RESOLUTION)
    || Is(e, COUNTERSIGNATURE) || Is(e, ARCHIVE) || Is(e, ROTATION)
  }

  predicate AboutAnAction(e: Event) { Is(e, DECISION) || Is(e, OUTCOME) || Is(e, RESOLUTION) }

  /** Which events need a field, field by field. */
  predicate Needs(e: Event, f: Field) {
    match f
    case SchemaVersion => true
    case EventType => true
    case EventId => true
    case TimestampUtc => true
    case KeyId => true
    case PreviousEventHash => true
    case EventHash => true
    case Signature => true
    case ActionId => AboutAnAction(e)
    case ActionName => AboutAnAction(e)
    case ContractHash => AboutAnAction(e)
    case Verdict => Is(e, DECISION)
    case Risk => Is(e, DECISION)
    case ApprovalMode => Is(e, DECISION)
    case RedactedInputSummary => Is(e, DECISION)
    case InputHash => Is(e, DECISION)
    case Status => Is(e, OUTCOME)
    case DecisionEventId => Is(e, OUTCOME) || Is(e, RESOLUTION)
    case ResolutionValue => Is(e, RESOLUTION)
    case Note => Is(e, RESOLUTION)
    case CheckpointCount => Is(e, CHECKPOINT) || Is(e, COUNTERSIGNATURE)
    case HeadSha256 => Is(e, CHECKPOINT) || Is(e, COUNTERSIGNATURE)
    case CheckpointEventId => Is(e, COUNTERSIGNATURE)
    case PriorCount => Is(e, ARCHIVE)
    case PriorHead => Is(e, ARCHIVE)
    case ArchivedPath => Is(e, ARCHIVE)
    case PriorKeyId => Is(e, ROTATION)
    case SuccessorKeyId => Is(e, ROTATION)
    case SuccessorFingerprint => Is(e, ROTATION)
    case _ => false
  }

  ghost predicate Complete(e: Event) {
    Supported(e) && OfSomeKind(e) && forall f :: Needs(e, f) ==> f in e
  }

  /** A boolean counts as 0 or 1. */
  predicate Counts(j: Json, low: int) {
    match j
    case Num(n) => n >= low
    case Bool(b) => (if b then 1 else 0) >= low
    case _ => false
  }

  /** The last checkpoint before `k` under an id. */
  predicate CheckpointUnder(es: seq<Event>, k: nat, c: nat, id: Json)
    requires k <= |es|
  {
    && c < k && Is(es[c], CHECKPOINT) && Get(es[c], EventId) == id
    && forall d :: c < d < k ==> !(Is(es[d], CHECKPOINT) && Get(es[d], EventId) == id)
  }

  predicate Referenced(es: seq<Event>, k: nat, c: nat)
    requires k < |es|
  {
    IsText(Get(es[k], CheckpointEventId)) && CheckpointUnder(es, k, c, Get(es[k], CheckpointEventId))
  }

  predicate BareFileName(j: Json) {
    j.Str? && (j.t.Other? ==> '/' !in j.t.chars && '\\' !in j.t.chars && j.t.chars != "." && j.t.chars != "..")
  }

  predicate Hex64(j: Json) {
    j.Str? && j.t.Other? && |j.t.chars| == 64
    && forall c :: c in j.t.chars ==> '0' <= c <= '9' || 'a' <= c <= 'f'
  }

  predicate KeyIdOfFingerprint(successor: Json, fingerprint: Json) {
    Hex64(fingerprint) && successor == Str(Other("ed25519:" + fingerprint.t.chars[..16]))
  }

  predicate Trusts(trusted: Keyring, e: Event) {
    IsText(Get(e, KeyId)) && Get(e, KeyId).t in trusted
  }

  predicate Signed(p: Platform, e: Event) {
    IsText(Get(e, KeyId)) && p.checks(Get(e, KeyId).t, p.digest(Unsigned(e)), p.show(Get(e, Signature)))
  }

  /** When a code applies to event `k`, told from the events alone. */
  ghost predicate Applies(p: Platform, trusted: Keyring, es: seq<Event>, k: nat, code: Code)
    requires k < |es|
  {
    var e := es[k];
    match code
    case UnknownSchema => !Supported(e)
    case UnknownEventType => Supported(e) && !OfSomeKind(e)
    case MissingFields => Supported(e) && OfSomeKind(e) && !Complete(e)
    case CheckpointHeadMismatch => Complete(e) && Is(e, CHECKPOINT) && !PyEq(Get(e, HeadSha256), Get(e, PreviousEventHash))
    case CheckpointBadCount => Complete(e) && Is(e, CHECKPOINT) && !Counts(Get(e, CheckpointCount), 0)
    case ResolutionBadValue =>
      && Complete(e) && Is(e, RESOLUTION)
      && Get(e, ResolutionValue) != W(CONFIRMED_COMPLETED) && Get(e, ResolutionValue) != W(CONFIRMED_NOT_COMPLETED)
    case ResolutionBadReference => Complete(e) && Is(e, RESOLUTION) && !IsText(Get(e, DecisionEventId))
    case ResolutionBadNote => Complete(e) && Is(e, RESOLUTION) && !IsText(Get(e, Note))
    case CountersignatureOrphan => Complete(e) && Is(e, COUNTERSIGNATURE) && !exists c: nat :: Referenced(es, k, c)
    case CountersignatureCountMismatch =>
      && Complete(e) && Is(e, COUNTERSIGNATURE)
      && exists c: nat :: Referenced(es, k, c) && !PyEq(Get(e, CheckpointCount), Get(es[c], CheckpointCount))
    case CountersignatureHeadMismatch =>
      && Complete(e) && Is(e, COUNTERSIGNATURE)
      && exists c: nat :: Referenced(es, k, c) && !PyEq(Get(e, HeadSha256), Get(es[c], HeadSha256))
    case CountersignatureBadCount => Complete(e) && Is(e, COUNTERSIGNATURE) && !Counts(Get(e, CheckpointCount), 0)
    case OutcomeBadReceipt =>
      Complete(e) && Is(e, OUTCOME) && Receipt in e && !(e[Receipt].Compound? && e[Receipt].isObject)
    case ArchiveNotFirst => Complete(e) && Is(e, ARCHIVE) && Get(e, PreviousEventHash) != Null
    case ArchiveBadCount => Complete(e) && Is(e, ARCHIVE) && !Counts(Get(e, PriorCount), 1)
    case ArchiveBadPath => Complete(e) && Is(e, ARCHIVE) && !BareFileName(Get(e, ArchivedPath))
    case RotationSignerMismatch => Complete(e) && Is(e, ROTATION) && !PyEq(Get(e, PriorKeyId), Get(e, KeyId))
    case RotationBadSuccessor =>
      && Complete(e) && Is(e, ROTATION)
      && !exists rest :: Get(e, SuccessorKeyId) == Str(Other("ed25519:" + rest))
    case RotationBadFingerprint => Complete(e) && Is(e, ROTATION) && !Hex64(Get(e, SuccessorFingerprint))
    case RotationFingerprintMismatch =>
      && Complete(e) && Is(e, ROTATION) && Hex64(Get(e, SuccessorFingerprint)) && IsText(Get(e, SuccessorKeyId))
      && !KeyIdOfFingerprint(Get(e, SuccessorKeyId), Get(e, SuccessorFingerprint))
    case RotationSelfSuccessor =>
      Complete(e) && Is(e, ROTATION) && IsText(Get(e, PriorKeyId)) && Get(e, PriorKeyId) == Get(e, SuccessorKeyId)
    case ChainBreak =>
      Complete(e) && !PyEq(Get(e, PreviousEventHash), if k == 0 then Null else Stored(es[k - 1]))
    case HashMismatch => Complete(e) && Get(e, EventHash) != Str(p.digest(Unsigned(e)))
    case UnknownKey => Complete(e) && !Trusts(trusted, e)
    case BadSignature => Complete(e) && Trusts(trusted, e) && !Signed(p, e)
    case _ => false
  }

  // ---- The codes of one event ------------------------------------------

  lemma WhenHas(condition: bool, code: Code, x: Code)
    ensures x in When(condition, code) <==> condition && x == code
  {
  }

  lemma CountsMeans(j: Json, low: int)
    ensures CountAtLeast(j, low) <==> Counts(j, low)
  {
  }

  lemma NamesMean(j: Json)
    ensures j.Str? && BareText(j.t) <==> BareFileName(j)
    ensures HexText(j) <==> Hex64(j)
  {
    if j.Str? && j.t.Other? {
      assert forall i :: 0 <= i < |j.t.chars| ==> j.t.chars[i] in j.t.chars;
    }
  }

  lemma KeyIdMeans(j: Json)
    ensures KeyIdText(j) <==> exists rest :: j == Str(Other("ed25519:" + rest))
  {
    if KeyIdText(j) {
      assert j.t.chars == "ed25519:" + j.t.chars[8..];
    }
  }

  lemma CompleteMeans(e: Event)
    ensures KnownKind(KindOf(e)) <==> OfSomeKind(e)
    ensures Supported(e) && KnownKind(KindOf(e)) ==> (Required(KindOf(e)) <= e.Keys <==> Complete(e))
    ensures Complete(e) ==> CHAINED <= e.Keys
  {
    if KnownKind(KindOf(e)) {
      RequiredMeans(e);
      assert Needs(e, SchemaVersion) && Needs(e, EventType) && Needs(e, EventId) && Needs(e, TimestampUtc) && Needs(e, KeyId)
        && Needs(e, PreviousEventHash) && Needs(e, EventHash) && Needs(e, Signature);
    }
    hide Needs, Required;
  }

  lemma RequiredMeans(e: Event)
    requires KnownKind(KindOf(e))
    ensures forall f :: f in Required(KindOf(e)) <==> Needs(e, f)
  {
    hide Required, Needs;
    if AboutAnAction(e) {
      ActionRequires(e);
    } else {
      CountRequires(e);
      LinkRequires(e);
    }
  }

  lemma ActionRequires(e: Event)
    requires AboutAnAction(e)
    ensures forall f :: f in Required(KindOf(e)) <==> Needs(e, f)
  {
    hide KindOf;
  }

  lemma CountRequires(e: Event)
    ensures Is(e, CHECKPOINT) || Is(e, COUNTERSIGNATURE) ==> forall f :: f in Required(KindOf(e)) <==> Needs(e, f)
  {
    hide KindOf;
  }

  lemma LinkRequires(e: Event)
    ensures Is(e, ARCHIVE) || Is(e, ROTATION) ==> forall f :: f in Required(KindOf(e)) <==> Needs(e, f)
  {
    hide KindOf;
  }

  /** The checkpoints remembered are the last ones under their ids. */
  lemma {:induction false} RememberedMeans(es: seq<Event>, k: nat, id: Text)
    requires k <= |es|
    ensures id in CheckpointsBefore(es, k) <==> exists c: nat :: CheckpointUnder(es, k, c, Str(id))
    ensures forall c: nat :: CheckpointUnder(es, k, c, Str(id)) ==>
      id in CheckpointsBefore(es, k) && CheckpointsBefore(es, k)[id] == es[c]
  {
    hide CheckpointUnder;
    if k == 0 {
      NoneUnderYet(es, id);
    } else {
      RememberedMeans(es, k - 1, id);
      UnderGrows(es, k, id);
      if NamedCheckpoint(es[k - 1], id) {
        assert CheckpointUnder(es, k, k - 1, Str(id));
      } else if id in CheckpointsBefore(es, k - 1) {
        var c: nat :| CheckpointUnder(es, k - 1, c, Str(id));
        assert CheckpointUnder(es, k, c, Str(id));
      }
    }
  }

  lemma NoneUnderYet(es: seq<Event>, id: Text)
    ensures !exists c: nat :: CheckpointUnder(es, 0, c, Str(id))
  {
  }

  predicate NamedCheckpoint(e: Event, id: Text) { Is(e, CHECKPOINT) && Get(e, EventId) == Str(id) }

  lemma UnderGrows(es: seq<Event>, k: nat, id: Text)
    requires 0 < k <= |es|
    ensures forall c: nat :: CheckpointUnder(es, k, c, Str(id)) <==>
      if NamedCheckpoint(es[k - 1], id) then c == k - 1 else CheckpointUnder(es, k - 1, c, Str(id))
  {
    forall c: nat
      ensures CheckpointUnder(es, k, c, Str(id)) <==>
        if NamedCheckpoint(es[k - 1], id) then c == k - 1 else CheckpointUnder(es, k - 1, c, Str(id))
    {
      if NamedCheckpoint(es[k - 1], id) && c < k - 1 {
        assert c < k - 1 < k && Is(es[k - 1], CHECKPOINT);
      }
    }
  }

  lemma IntegrityMeans(p: Platform, trusted: Keyring, es: seq<Event>, k: nat, code: Code)
    requires k < |es| && Complete(es[k]) && CHAINED <= es[k].Keys
    ensures code in Integrity(p, trusted, es[k], Expected(es, k)) <==>
      code in {ChainBreak, HashMismatch, UnknownKey, BadSignature} && Applies(p, trusted, es, k, code)
  {
    hide PyEq, Complete, Supported, OfSomeKind;
    var e := es[k];
    assert EventHash in e && KeyId in e && PreviousEventHash in e && Signature in e;
    var digest := p.digest(Unsigned(e));
    WhenHas(!PyEq(e[PreviousEventHash], Expected(es, k)), ChainBreak, code);
    WhenHas(e[EventHash] != Str(digest), HashMismatch, code);
    if Trusts(trusted, e) {
      WhenHas(!p.checks(e[KeyId].t, digest, p.show(e[Signature])), BadSignature, code);
    }
    hide When, Unsigned;
  }

  /** The codes that only one kind of event can get. */
  predicate CodeOf(kind: Word, code: Code) {
    match code
    case CheckpointHeadMismatch => kind == CHECKPOINT
    case CheckpointBadCount => kind == CHECKPOINT
    case ResolutionBadValue => kind == RESOLUTION
    case ResolutionBadReference => kind == RESOLUTION
    case ResolutionBadNote => kind == RESOLUTION
    case CountersignatureOrphan => kind == COUNTERSIGNATURE
    case CountersignatureCountMismatch => kind == COUNTERSIGNATURE
    case CountersignatureHeadMismatch => kind == COUNTERSIGNATURE
    case CountersignatureBadCount => kind == COUNTERSIGNATURE
    case OutcomeBadReceipt => kind == OUTCOME
    case ArchiveNotFirst => kind == ARCHIVE
    case ArchiveBadCount => kind == ARCHIVE
    case ArchiveBadPath => kind == ARCHIVE
    case RotationSignerMismatch => kind == ROTATION
    case RotationBadSuccessor => kind == ROTATION
    case RotationBadFingerprint => kind == ROTATION
    case RotationFingerprintMismatch => kind == ROTATION
    case RotationSelfSuccessor => kind == ROTATION
    case _ => false
  }

  lemma CheckpointApplies(p: Platform, trusted: Keyring, es: seq<Event>, k: nat, code: Code)
    requires k < |es| && Complete(es[k]) && Is(es[k], CHECKPOINT)
    ensures CodeOf(CHECKPOINT, code) && Applies(p, trusted, es, k, code) <==>
      var e := es[k];
      || (code == CheckpointHeadMismatch && !PyEq(Get(e, HeadSha256), Get(e, PreviousEventHash)))
      || (code == CheckpointBadCount && !Counts(Get(e, CheckpointCount), 0))
  {
    hide PyEq, Complete, Get, Counts, CheckpointUnder, BareFileName, Is;
  }

  lemma CheckpointCodes(p: Platform, trusted: Keyring, es: seq<Event>, k: nat, code: Code)
    requires k < |es| && Complete(es[k]) && Is(es[k], CHECKPOINT)
    ensures code in CheckpointShape(es[k]) <==> CodeOf(CHECKPOINT, code) && Applies(p, trusted, es, k, code)
  {
    hide PyEq, Complete, Get, Counts, CountAtLeast, When, Applies, CodeOf, Is;
    var e := es[k];
    CheckpointApplies(p, trusted, es, k, code);
    CountsMeans(Get(e, CheckpointCount), 0);
    WhenHas(!PyEq(Get(e, HeadSha256), Get(e, PreviousEventHash)), CheckpointHeadMismatch, code);
    WhenHas(!CountAtLeast(Get(e, CheckpointCount), 0), CheckpointBadCount, code);
  }

  lemma ResolutionApplies(p: Platform, trusted: Keyring, es: seq<Event>, k: nat, code: Code)
    requires k < |es| && Complete(es[k]) && Is(es[k], RESOLUTION)
    ensures CodeOf(RESOLUTION, code) && Applies(p, trusted, es, k, code) <==>
      var e := es[k];
      || (code == ResolutionBadValue
          && Get(e, ResolutionValue) != W(CONFIRMED_COMPLETED) && Get(e, ResolutionValue) != W(CONFIRMED_NOT_COMPLETED))
      || (code == ResolutionBadReference && !IsText(Get(e, DecisionEventId)))
      || (code == ResolutionBadNote && !IsText(Get(e, Note)))
  {
    hide PyEq, Complete, Get, Counts, CheckpointUnder, BareFileName, Is;
  }

  lemma ResolutionCodes(p: Platform, trusted: Keyring, es: seq<Event>, k: nat, code: Code)
    requires k < |es| && Complete(es[k]) && Is(es[k], RESOLUTION)
    ensures code in ResolutionShape(es[k]) <==> CodeOf(RESOLUTION, code) && Applies(p, trusted, es, k, code)
  {
    hide Complete, Get, When, Applies, CodeOf, Is;
    var e := es[k];
    ResolutionApplies(p, trusted, es, k, code);
    WhenHas(Get(e, ResolutionValue) != W(CONFIRMED_COMPLETED) && Get(e, ResolutionValue) != W(CONFIRMED_NOT_COMPLETED), ResolutionBadValue, code);
    WhenHas(!IsText(Get(e, DecisionEventId)), ResolutionBadReference, code);
    WhenHas(!IsText(Get(e, Note)), ResolutionBadNote, code);
  }

  lemma CountersignatureApplies(p: Platform, trusted: Keyring, es: seq<Event>, k: nat, code: Code)
    requires k < |es| && Complete(es[k]) && Is(es[k], COUNTERSIGNATURE)
    ensures CodeOf(COUNTERSIGNATURE, code) && Applies(p, trusted, es, k, code) <==>
      var e := es[k];
      || (code == CountersignatureOrphan && !exists c: nat :: Referenced(es, k, c))
      || (code == CountersignatureCountMismatch
          && exists c: nat :: Referenced(es, k, c) && !PyEq(Get(e, CheckpointCount), Get(es[c], CheckpointCount)))
      || (code == CountersignatureHeadMismatch
          && exists c: nat :: Referenced(es, k, c) && !PyEq(Get(e, HeadSha256), Get(es[c], HeadSha256)))
      || (code == CountersignatureBadCount && !Counts(Get(e, CheckpointCount), 0))
  {
    hide PyEq, Complete, Get, Counts, CheckpointUnder, BareFileName, Is;
  }

  lemma CountersignatureCodes(p: Platform, trusted: Keyring, es: seq<Event>, k: nat, code: Code)
    requires k < |es| && Complete(es[k]) && Is(es[k], COUNTERSIGNATURE)
    ensures code in CountersignatureShape(es[k], CheckpointsBefore(es, k)) <==> CodeOf(COUNTERSIGNATURE, code) && Applies(p, trusted, es, k, code)
  {
    hide PyEq, Complete, Get, Counts, CountAtLeast, When, CheckpointUnder, CheckpointsBefore, Applies, CodeOf, Is;
    var e, checkpoints := es[k], CheckpointsBefore(es, k);
    var ref := Get(e, CheckpointEventId);
    CountersignatureApplies(p, trusted, es, k, code);
    CountsMeans(Get(e, CheckpointCount), 0);
    WhenHas(!CountAtLeast(Get(e, CheckpointCount), 0), CountersignatureBadCount, code);
    if IsText(ref) {
      RememberedMeans(es, k, ref.t);
      if ref.t in checkpoints {
        WhenHas(!PyEq(Get(e, CheckpointCount), Get(checkpoints[ref.t], CheckpointCount)), CountersignatureCountMismatch, code);
        WhenHas(!PyEq(Get(e, HeadSha256), Get(checkpoints[ref.t], HeadSha256)), CountersignatureHeadMismatch, code);
        var c: nat :| CheckpointUnder(es, k, c, Str(ref.t));
        assert Referenced(es, k, c);
      }
    }
  }

  lemma OutcomeCodes(p: Platform, trusted: Keyring, es: seq<Event>, k: nat, code: Code)
    requires k < |es| && Complete(es[k]) && Is(es[k], OUTCOME)
    ensures code in OutcomeShape(es[k]) <==> CodeOf(OUTCOME, code) && Applies(p, trusted, es, k, code)
  {
    var e := es[k];
    hide Complete, Get, When;
    WhenHas(Receipt in e && !(e[Receipt].Compound? && e[Receipt].isObject), OutcomeBadReceipt, code);
  }

  lemma ArchiveApplies(p: Platform, trusted: Keyring, es: seq<Event>, k: nat, code: Code)
    requires k < |es| && Complete(es[k]) && Is(es[k], ARCHIVE)
    ensures CodeOf(ARCHIVE, code) && Applies(p, trusted, es, k, code) <==>
      var e := es[k];
      || (code == ArchiveNotFirst && Get(e, PreviousEventHash) != Null)
      || (code == ArchiveBadCount && !Counts(Get(e, PriorCount), 1))
      || (code == ArchiveBadPath && !BareFileName(Get(e, ArchivedPath)))
  {
    hide PyEq, Complete, Get, Counts, CheckpointUnder, BareFileName, Is;
  }

  lemma ArchiveCodes(p: Platform, trusted: Keyring, es: seq<Event>, k: nat, code: Code)
    requires k < |es| && Complete(es[k]) && Is(es[k], ARCHIVE)
    ensures code in ArchiveShape(es[k]) <==> CodeOf(ARCHIVE, code) && Applies(p, trusted, es, k, code)
  {
    hide Complete, Get, When, Counts, CountAtLeast, BareFileName, BareText, Applies, CodeOf, Is;
    var e := es[k];
    ArchiveApplies(p, trusted, es, k, code);
    CountsMeans(Get(e, PriorCount), 1);
    NamesMean(Get(e, ArchivedPath));
    WhenHas(Get(e, PreviousEventHash) != Null, ArchiveNotFirst, code);
    WhenHas(!CountAtLeast(Get(e, PriorCount), 1), ArchiveBadCount, code);
    WhenHas(!IsText(Get(e, ArchivedPath)) || !BareText(Get(e, ArchivedPath).t), ArchiveBadPath, code);
  }

  lemma RotationCodes(p: Platform, trusted: Keyring, es: seq<Event>, k: nat, code: Code)
    requires k < |es| && Complete(es[k]) && Is(es[k], ROTATION)
    ensures code in RotationShape(es[k]) <==> CodeOf(ROTATION, code) && Applies(p, trusted, es, k, code)
  {
    hide PyEq, Complete, Get, When, HexText, KeyIdText, Hex64, KeyIdOfFingerprint, Applies, Is, CodeOf;
    var e := es[k];
    var prior, successor, fingerprint := Get(e, PriorKeyId), Get(e, SuccessorKeyId), Get(e, SuccessorFingerprint);
    RotationApplies(p, trusted, es, k, code);
    KeyIdMeans(successor);
    NamesMean(fingerprint);
    if Hex64(fingerprint) && IsText(successor) {
      FingerprintMeans(successor, fingerprint);
    }
    WhenHas(!PyEq(prior, Get(e, KeyId)), RotationSignerMismatch, code);
    WhenHas(!KeyIdText(successor), RotationBadSuccessor, code);
    if HexText(fingerprint) {
      HexIsLong(fingerprint);
      WhenHas(IsText(successor) && successor.t != Other("ed25519:" + fingerprint.t.chars[..16]), RotationFingerprintMismatch, code);
    }
    WhenHas(IsText(prior) && prior == successor, RotationSelfSuccessor, code);
  }

  lemma HexIsLong(j: Json)
    requires HexText(j)
    ensures j.Str? && j.t.Other? && |j.t.chars| >= 16
  {
  }

  lemma FingerprintMeans(successor: Json, fingerprint: Json)
    requires Hex64(fingerprint) && IsText(successor)
    ensures KeyIdOfFingerprint(successor, fingerprint) <==> successor.t == Other("ed25519:" + fingerprint.t.chars[..16])
  {
  }

  lemma RotationApplies(p: Platform, trusted: Keyring, es: seq<Event>, k: nat, code: Code)
    requires k < |es| && Complete(es[k]) && Is(es[k], ROTATION)
    ensures CodeOf(ROTATION, code) && Applies(p, trusted, es, k, code) <==>
      var e := es[k];
      match code
      case RotationSignerMismatch => !PyEq(Get(e, PriorKeyId), Get(e, KeyId))
      case RotationBadSuccessor => !exists rest :: Get(e, SuccessorKeyId) == Str(Other("ed25519:" + rest))
      case RotationBadFingerprint => !Hex64(Get(e, SuccessorFingerprint))
      case RotationFingerprintMismatch =>
        && Hex64(Get(e, SuccessorFingerprint)) && IsText(Get(e, SuccessorKeyId))
        && !KeyIdOfFingerprint(Get(e, SuccessorKeyId), Get(e, SuccessorFingerprint))
      case RotationSelfSuccessor => IsText(Get(e, PriorKeyId)) && Get(e, PriorKeyId) == Get(e, SuccessorKeyId)
      case _ => false
  {
    hide PyEq, Complete, Get, Hex64, KeyIdOfFingerprint;
  }

  lemma ShapeMeans(p: Platform, trusted: Keyring, es: seq<Event>, k: nat, code: Code)
    requires k < |es| && Complete(es[k]) && KnownKind(KindOf(es[k]))
    ensures code in Shape(es[k], CheckpointsBefore(es, k)) <==> CodeOf(KindOf(es[k]).t.word, code) && Applies(p, trusted, es, k, code)
  {
    hide Complete, Applies, CheckpointShape, ResolutionShape, CountersignatureShape, OutcomeShape, ArchiveShape, RotationShape, CodeOf;
    var e := es[k];
    match KindOf(e).t.word
    case CHECKPOINT => CheckpointCodes(p, trusted, es, k, code);
    case RESOLUTION => ResolutionCodes(p, trusted, es, k, code);
    case COUNTERSIGNATURE => CountersignatureCodes(p, trusted, es, k, code);
    case OUTCOME => OutcomeCodes(p, trusted, es, k, code);
    case ARCHIVE => ArchiveCodes(p, trusted, es, k, code);
    case ROTATION => RotationCodes(p, trusted, es, k, code);
    case _ => DecisionHasNone(code);
  }

  lemma DecisionHasNone(code: Code)
    ensures !CodeOf(DECISION, code)
  {
  }

  lemma AppliesToKind(p: Platform, trusted: Keyring, es: seq<Event>, k: nat, code: Code)
    requires k < |es| && Complete(es[k]) && KnownKind(KindOf(es[k]))
    ensures Applies(p, trusted, es, k, code) ==>
      CodeOf(KindOf(es[k]).t.word, code) || code in {ChainBreak, HashMismatch, UnknownKey, BadSignature}
  {
    hide Referenced, PyEq, Counts, BareFileName, Hex64, KeyIdOfFingerprint, Trusts, Signed;
  }

  /** A code is reported of an event exactly when it applies to it. */
  lemma CodesExactly(p: Platform, trusted: Keyring, es: seq<Event>, k: nat, code: Code)
    requires k < |es|
    ensures code in CodesAt(p, trusted, es, k) <==> Applies(p, trusted, es, k, code)
  {
    hide Shape, Integrity, Complete, CheckpointsBefore, Expected, Applies, Required;
    var e := es[k];
    CompleteMeans(e);
    if !Complete(e) {
      EarlyCodes(p, trusted, es, k, code);
    } else {
      assert Supported(e) && KnownKind(KindOf(e)) by { CompleteIsKnown(e); }
      ShapeMeans(p, trusted, es, k, code);
      IntegrityMeans(p, trusted, es, k, code);
      AppliesToKind(p, trusted, es, k, code);
    }
  }

  lemma CompleteIsKnown(e: Event)
    requires Complete(e)
    ensures Supported(e) && OfSomeKind(e)
  {
    hide Needs;
  }

  lemma EarlyCodes(p: Platform, trusted: Keyring, es: seq<Event>, k: nat, code: Code)
    requires k < |es| && !Complete(es[k])
    ensures Applies(p, trusted, es, k, code) <==>
      code == if !Supported(es[k]) then UnknownSchema else if !OfSomeKind(es[k]) then UnknownEventType else MissingFields
  {
    hide Complete, Supported, OfSomeKind, Referenced;
  }

  // ---- Their order -----------------------------------------------------

  /** The order in which codes are reported of one event. */
  function Rank(code: Code): nat {
    match code
    case CheckpointHeadMismatch => 1
    case CheckpointBadCount => 2
    case ResolutionBadValue => 1
    case ResolutionBadReference => 2
    case ResolutionBadNote => 3
    case CountersignatureOrphan => 1
    case CountersignatureCountMismatch => 1
    case CountersignatureHeadMismatch => 2
    case CountersignatureBadCount => 3
    case ArchiveNotFirst => 1
    case ArchiveBadCount => 2
    case ArchiveBadPath => 3
    case RotationSignerMismatch => 1
    case RotationBadSuccessor => 2
    case RotationBadFingerprint => 3
    case RotationFingerprintMismatch => 3
    case RotationSelfSuccessor => 4
    case ChainBreak => 5
    case HashMismatch => 6
    case UnknownKey => 7
    case BadSignature => 7
    case _ => 0
  }

  predicate Between(codes: seq<Code>, low: nat, high: nat) {
    && (forall i :: 0 <= i < |codes| ==> low <= Rank(codes[i]) < high)
    && forall i, j :: 0 <= i < j < |codes| ==> Rank(codes[i]) < Rank(codes[j])
  }

  lemma Joined(a: seq<Code>, b: seq<Code>, low: nat, mid: nat, high: nat)
    requires Between(a, low, mid) && Between(b, mid, high) && low <= mid <= high
    ensures Between(a + b, low, high)
  {
  }

  lemma OneBetween(condition: bool, code: Code)
    ensures Between(When(condition, code), Rank(code), Rank(code) + 1)
  {
  }

  lemma ThreeBetween(a: bool, x: Code, b: bool, y: Code, c: bool, z: Code)
    requires Rank(x) < Rank(y) < Rank(z)
    ensures Between(When(a, x) + When(b, y) + When(c, z), Rank(x), Rank(z) + 1)
  {
    hide Between, When, Rank;
    OneBetween(a, x);
    OneBetween(b, y);
    OneBetween(c, z);
    Wider(When(a, x), Rank(x), Rank(x) + 1, Rank(y));
    Wider(When(b, y), Rank(y), Rank(y) + 1, Rank(z));
    Joined(When(a, x), When(b, y), Rank(x), Rank(y), Rank(z));
    Joined(When(a, x) + When(b, y), When(c, z), Rank(x), Rank(z), Rank(z) + 1);
  }

  lemma Wider(codes: seq<Code>, low: nat, high: nat, higher: nat)
    requires Between(codes, low, high) && high <= higher
    ensures Between(codes, low, higher)
  {
  }

  lemma Lower(codes: seq<Code>, low: nat, high: nat)
    requires Between(codes, low, high)
    ensures Between(codes, 0, high)
  {
  }

  lemma IntegrityInOrder(p: Platform, trusted: Keyring, e: Event, expected: Json)
    requires CHAINED <= e.Keys
    ensures Between(Integrity(p, trusted, e, expected), 5, 8)
  {
    var digest := p.digest(Unsigned(e));
    if !IsText(e[KeyId]) || e[KeyId].t !in trusted {
      ThreeBetween(!PyEq(e[PreviousEventHash], expected), ChainBreak, e[EventHash] != Str(digest), HashMismatch, true, UnknownKey);
    } else {
      ThreeBetween(!PyEq(e[PreviousEventHash], expected), ChainBreak, e[EventHash] != Str(digest), HashMismatch,
                   !p.checks(e[KeyId].t, digest, p.show(e[Signature])), BadSignature);
    }
    hide Between, PyEq;
  }

  lemma CountersignatureInOrder(e: Event, checkpoints: Checkpoints)
    ensures Between(CountersignatureShape(e, checkpoints), 0, 5)
  {
    hide Between, PyEq, CountAtLeast, Get;
    var ref := Get(e, CheckpointEventId);
    if IsText(ref) && ref.t in checkpoints {
      ThreeBetween(!PyEq(Get(e, CheckpointCount), Get(checkpoints[ref.t], CheckpointCount)), CountersignatureCountMismatch,
                   !PyEq(Get(e, HeadSha256), Get(checkpoints[ref.t], HeadSha256)), CountersignatureHeadMismatch,
                   !CountAtLeast(Get(e, CheckpointCount), 0), CountersignatureBadCount);
    } else {
      ThreeBetween(true, CountersignatureOrphan, false, CountersignatureHeadMismatch,
                   !CountAtLeast(Get(e, CheckpointCount), 0), CountersignatureBadCount);
      assert When(true, CountersignatureOrphan) + When(false, CountersignatureHeadMismatch) == [CountersignatureOrphan];
    }
    Loosen(CountersignatureShape(e, checkpoints), 1, 4);
  }

  lemma Loosen(codes: seq<Code>, low: nat, high: nat)
    requires Between(codes, low, high) && high <= 5
    ensures Between(codes, 0, 5)
  {
  }

  lemma FourBetween(a: bool, x: Code, b: bool, y: Code, c: bool, z: Code, d: bool, w: Code)
    requires Rank(x) < Rank(y) < Rank(z) < Rank(w)
    ensures Between(When(a, x) + When(b, y) + When(c, z) + When(d, w), Rank(x), Rank(w) + 1)
  {
    hide Between, When, Rank;
    ThreeBetween(a, x, b, y, c, z);
    OneBetween(d, w);
    Wider(When(a, x) + When(b, y) + When(c, z), Rank(x), Rank(z) + 1, Rank(w));
    Joined(When(a, x) + When(b, y) + When(c, z), When(d, w), Rank(x), Rank(w), Rank(w) + 1);
  }

  lemma RotationInOrder(e: Event)
    ensures Between(RotationShape(e), 0, 5)
  {
    hide Between, PyEq, Get, KeyIdText, HexText, When;
    var prior, successor, fingerprint := Get(e, PriorKeyId), Get(e, SuccessorKeyId), Get(e, SuccessorFingerprint);
    var signer, bad, self := !PyEq(prior, Get(e, KeyId)), !KeyIdText(successor), IsText(prior) && prior == successor;
    if !HexText(fingerprint) {
      FourBetween(signer, RotationSignerMismatch, bad, RotationBadSuccessor, true, RotationBadFingerprint, self, RotationSelfSuccessor);
      assert When(true, RotationBadFingerprint) == [RotationBadFingerprint] by { Whens(RotationBadFingerprint); }
    } else {
      HexIsLong(fingerprint);
      var differs := IsText(successor) && successor.t != Other("ed25519:" + fingerprint.t.chars[..16]);
      FourBetween(signer, RotationSignerMismatch, bad, RotationBadSuccessor, differs, RotationFingerprintMismatch, self, RotationSelfSuccessor);
    }
    Loosen(RotationShape(e), 1, 5);
  }

  lemma Whens(code: Code)
    ensures When(true, code) == [code]
  {
  }

  lemma ShapeInOrder(e: Event, checkpoints: Checkpoints)
    requires KnownKind(KindOf(e))
    ensures Between(Shape(e, checkpoints), 0, 5)
  {
    hide PyEq, CountAtLeast, BareText, CountersignatureShape, RotationShape, Between;
    match KindOf(e).t.word
    case CHECKPOINT => CheckpointInOrder(e);
    case RESOLUTION => ResolutionInOrder(e);
    case COUNTERSIGNATURE => CountersignatureInOrder(e, checkpoints);
    case OUTCOME => OutcomeInOrder(e);
    case ARCHIVE => ArchiveInOrder(e);
    case ROTATION => RotationInOrder(e);
    case _ => NoneInOrder();
  }

  lemma NoneInOrder()
    ensures Between([], 0, 5)
  {
  }

  lemma OutcomeInOrder(e: Event)
    ensures Between(OutcomeShape(e), 0, 5)
  {
  }

  lemma CheckpointInOrder(e: Event)
    ensures Between(CheckpointShape(e), 0, 5)
  {
    hide PyEq, CountAtLeast;
  }

  lemma ResolutionInOrder(e: Event)
    ensures Between(ResolutionShape(e), 0, 5)
  {
    hide Between;
    ThreeBetween(
      Get(e, ResolutionValue) != W(CONFIRMED_COMPLETED) && Get(e, ResolutionValue) != W(CONFIRMED_NOT_COMPLETED), ResolutionBadValue,
      !IsText(Get(e, DecisionEventId)), ResolutionBadReference, !IsText(Get(e, Note)), ResolutionBadNote);
    Loosen(ResolutionShape(e), 1, 4);
  }

  lemma ArchiveInOrder(e: Event)
    ensures Between(ArchiveShape(e), 0, 5)
  {
    hide Between;
    ThreeBetween(Get(e, PreviousEventHash) != Null, ArchiveNotFirst, !CountAtLeast(Get(e, PriorCount), 1), ArchiveBadCount,
                 !IsText(Get(e, ArchivedPath)) || !BareText(Get(e, ArchivedPath).t), ArchiveBadPath);
    Loosen(ArchiveShape(e), 1, 4);
  }

  /** Codes are reported in this order, each once: with `CodesExactly` that is the whole list. */
  lemma CodesInOrder(p: Platform, trusted: Keyring, es: seq<Event>, k: nat)
    requires k < |es|
    ensures var codes := CodesAt(p, trusted, es, k); forall i, j :: 0 <= i < j < |codes| ==> Rank(codes[i]) < Rank(codes[j])
  {
    hide Shape, Integrity, CheckpointsBefore, Expected, Required;
    var e := es[k];
    if Get(e, SchemaVersion) == W(VERSION_1) && KnownKind(KindOf(e)) && Required(KindOf(e)) <= e.Keys {
      CompleteMeans(e);
      hide Complete;
      ShapeInOrder(e, CheckpointsBefore(es, k));
      IntegrityInOrder(p, trusted, e, Expected(es, k));
      Joined(Shape(e, CheckpointsBefore(es, k)), Integrity(p, trusted, e, Expected(es, k)), 0, 5, 8);
    }
  }
}
