/** The verdict on a whole file: exactly which issues it lists, what it counts, and what
    a favourable one guarantees, whoever signed. */
module VerdictOfFile {
  import opened Evidence
  import opened Verification
  import opened Acceptance
  import opened VerdictMeaning

  // ---- A sound event ---------------------------------------------------

  /** It names its predecessor's hash, carries its own, and a trusted key signed it. */
  predicate SoundSeal(p: Platform, trusted: Keyring, es: seq<Event>, k: nat)
    requires k < |es|
  {
    var e := es[k];
    && PyEq(Get(e, PreviousEventHash), if k == 0 then Null else Stored(es[k - 1]))
    && Get(e, EventHash) == Str(p.digest(Unsigned(e))) && Trusts(trusted, e) && Signed(p, e)
  }

  predicate SoundCheckpoint(e: Event) {
    PyEq(Get(e, HeadSha256), Get(e, PreviousEventHash)) && Counts(Get(e, CheckpointCount), 0)
  }

  predicate SoundOutcome(e: Event) {
    Receipt in e ==> e[Receipt].Compound? && e[Receipt].isObject
  }

  predicate SoundArchive(e: Event) {
    Get(e, PreviousEventHash) == Null && Counts(Get(e, PriorCount), 1) && BareFileName(Get(e, ArchivedPath))
  }

  predicate SoundResolution(e: Event) {
    && (Get(e, ResolutionValue) == W(CONFIRMED_COMPLETED) || Get(e, ResolutionValue) == W(CONFIRMED_NOT_COMPLETED))
    && IsText(Get(e, DecisionEventId)) && IsText(Get(e, Note))
  }

  /** It names an earlier checkpoint, the last one under its id, with the same count and head. */
  ghost predicate SoundCountersignature(es: seq<Event>, k: nat)
    requires k < |es|
  {
    && Counts(Get(es[k], CheckpointCount), 0)
    && exists c: nat :: Referenced(es, k, c)
         && PyEq(Get(es[k], CheckpointCount), Get(es[c], CheckpointCount)) && PyEq(Get(es[k], HeadSha256), Get(es[c], HeadSha256))
  }

  predicate SoundRotation(e: Event) {
    && PyEq(Get(e, PriorKeyId), Get(e, KeyId))
    && KeyIdOfFingerprint(Get(e, SuccessorKeyId), Get(e, SuccessorFingerprint))
    && Get(e, PriorKeyId) != Get(e, SuccessorKeyId)
  }

  ghost predicate SoundKind(es: seq<Event>, k: nat)
    requires k < |es|
  {
    var e := es[k];
    && (Is(e, CHECKPOINT) ==> SoundCheckpoint(e))
    && (Is(e, RESOLUTION) ==> SoundResolution(e))
    && (Is(e, COUNTERSIGNATURE) ==> SoundCountersignature(es, k))
    && (Is(e, OUTCOME) ==> SoundOutcome(e))
    && (Is(e, ARCHIVE) ==> SoundArchive(e))
    && (Is(e, ROTATION) ==> SoundRotation(e))
  }

  /** All that can be said of a good event where it stands. */
  ghost predicate Sound(p: Platform, trusted: Keyring, es: seq<Event>, k: nat)
    requires k < |es|
  {
    var e := es[k];
    && Complete(e) && SoundSeal(p, trusted, es, k)
    && SoundKind(es, k)
  }

  lemma OneReference(es: seq<Event>, k: nat, c: nat, d: nat)
    requires k < |es| && Referenced(es, k, c) && Referenced(es, k, d)
    ensures c == d
  {
  }

  lemma CountersignatureSound(p: Platform, trusted: Keyring, es: seq<Event>, k: nat)
    requires k < |es| && Complete(es[k]) && Is(es[k], COUNTERSIGNATURE)
    ensures SoundCountersignature(es, k) <==>
      && !Applies(p, trusted, es, k, CountersignatureOrphan) && !Applies(p, trusted, es, k, CountersignatureCountMismatch)
      && !Applies(p, trusted, es, k, CountersignatureHeadMismatch) && !Applies(p, trusted, es, k, CountersignatureBadCount)
  {
    hide PyEq, Complete, Counts, Referenced, Get;
    if exists c: nat :: Referenced(es, k, c) {
      var c: nat :| Referenced(es, k, c);
      forall d: nat | Referenced(es, k, d) ensures d == c {
        OneReference(es, k, d, c);
      }
    }
  }

  lemma RotationSound(p: Platform, trusted: Keyring, es: seq<Event>, k: nat)
    requires k < |es| && Complete(es[k]) && Is(es[k], ROTATION)
    ensures SoundRotation(es[k]) <==>
      && !Applies(p, trusted, es, k, RotationSignerMismatch) && !Applies(p, trusted, es, k, RotationBadSuccessor)
      && !Applies(p, trusted, es, k, RotationBadFingerprint) && !Applies(p, trusted, es, k, RotationFingerprintMismatch)
      && !Applies(p, trusted, es, k, RotationSelfSuccessor)
  {
    hide PyEq, Complete, Get;
    var successor, fingerprint := Get(es[k], SuccessorKeyId), Get(es[k], SuccessorFingerprint);
    if KeyIdOfFingerprint(successor, fingerprint) {
      assert successor == Str(Other("ed25519:" + fingerprint.t.chars[..16]));
    }
    hide Hex64, KeyIdOfFingerprint;
  }

  lemma SealSound(p: Platform, trusted: Keyring, es: seq<Event>, k: nat)
    requires k < |es| && Complete(es[k])
    ensures SoundSeal(p, trusted, es, k) <==>
      && !Applies(p, trusted, es, k, ChainBreak) && !Applies(p, trusted, es, k, HashMismatch)
      && !Applies(p, trusted, es, k, UnknownKey) && !Applies(p, trusted, es, k, BadSignature)
  {
    hide PyEq, Complete, Get, Trusts, Signed, Unsigned, Stored;
  }

  lemma PlainSound(p: Platform, trusted: Keyring, es: seq<Event>, k: nat)
    requires k < |es| && Complete(es[k])
    ensures Is(es[k], CHECKPOINT) ==>
      (SoundCheckpoint(es[k])
       <==> !Applies(p, trusted, es, k, CheckpointHeadMismatch) && !Applies(p, trusted, es, k, CheckpointBadCount))
    ensures Is(es[k], OUTCOME) ==> (SoundOutcome(es[k]) <==> !Applies(p, trusted, es, k, OutcomeBadReceipt))
  {
    hide PyEq, Complete, Get, Counts;
  }

  lemma ResolutionSound(p: Platform, trusted: Keyring, es: seq<Event>, k: nat)
    requires k < |es| && Complete(es[k]) && Is(es[k], RESOLUTION)
    ensures SoundResolution(es[k]) <==>
      && !Applies(p, trusted, es, k, ResolutionBadValue) && !Applies(p, trusted, es, k, ResolutionBadReference)
      && !Applies(p, trusted, es, k, ResolutionBadNote)
  {
    hide Complete, Get;
  }

  lemma ArchiveSound(p: Platform, trusted: Keyring, es: seq<Event>, k: nat)
    requires k < |es| && Complete(es[k]) && Is(es[k], ARCHIVE)
    ensures SoundArchive(es[k]) <==>
      && !Applies(p, trusted, es, k, ArchiveNotFirst) && !Applies(p, trusted, es, k, ArchiveBadCount)
      && !Applies(p, trusted, es, k, ArchiveBadPath)
  {
    hide Complete, Get, Counts, BareFileName;
  }

  /** Every code belongs to the seal or to one kind. */
  lemma CodeHasPlace(p: Platform, trusted: Keyring, es: seq<Event>, k: nat, code: Code)
    requires k < |es| && Complete(es[k]) && Applies(p, trusted, es, k, code)
    ensures code in {ChainBreak, HashMismatch, UnknownKey, BadSignature} || CodeOf(KindOf(es[k]).t.word, code)
  {
    CompleteIsKnown(es[k]);
    CompleteMeans(es[k]);
    hide Complete, Applies;
    AppliesToKind(p, trusted, es, k, code);
  }

  ghost predicate NoneOf(p: Platform, trusted: Keyring, es: seq<Event>, k: nat, kind: Word)
    requires k < |es|
  {
    forall code :: CodeOf(kind, code) ==> !Applies(p, trusted, es, k, code)
  }

  lemma CheckpointPart(p: Platform, trusted: Keyring, es: seq<Event>, k: nat)
    requires k < |es| && Complete(es[k]) && Is(es[k], CHECKPOINT)
    ensures SoundCheckpoint(es[k]) <==> NoneOf(p, trusted, es, k, CHECKPOINT)
  {
    hide Complete, Applies, SoundCheckpoint;
    PlainSound(p, trusted, es, k);
  }

  lemma OutcomePart(p: Platform, trusted: Keyring, es: seq<Event>, k: nat)
    requires k < |es| && Complete(es[k]) && Is(es[k], OUTCOME)
    ensures SoundOutcome(es[k]) <==> NoneOf(p, trusted, es, k, OUTCOME)
  {
    hide Complete, Applies, SoundOutcome;
    PlainSound(p, trusted, es, k);
  }

  lemma ResolutionPart(p: Platform, trusted: Keyring, es: seq<Event>, k: nat)
    requires k < |es| && Complete(es[k]) && Is(es[k], RESOLUTION)
    ensures SoundResolution(es[k]) <==> NoneOf(p, trusted, es, k, RESOLUTION)
  {
    hide Complete, Applies, SoundResolution;
    ResolutionSound(p, trusted, es, k);
  }

  lemma CountersignaturePart(p: Platform, trusted: Keyring, es: seq<Event>, k: nat)
    requires k < |es| && Complete(es[k]) && Is(es[k], COUNTERSIGNATURE)
    ensures SoundCountersignature(es, k) <==> NoneOf(p, trusted, es, k, COUNTERSIGNATURE)
  {
    hide Complete, Applies, SoundCountersignature;
    CountersignatureSound(p, trusted, es, k);
  }

  lemma ArchivePart(p: Platform, trusted: Keyring, es: seq<Event>, k: nat)
    requires k < |es| && Complete(es[k]) && Is(es[k], ARCHIVE)
    ensures SoundArchive(es[k]) <==> NoneOf(p, trusted, es, k, ARCHIVE)
  {
    hide Complete, Applies, SoundArchive;
    ArchiveSound(p, trusted, es, k);
  }

  lemma RotationPart(p: Platform, trusted: Keyring, es: seq<Event>, k: nat)
    requires k < |es| && Complete(es[k]) && Is(es[k], ROTATION)
    ensures SoundRotation(es[k]) <==> NoneOf(p, trusted, es, k, ROTATION)
  {
    hide Complete, Applies, SoundRotation;
    RotationSound(p, trusted, es, k);
  }

  lemma KindPart(p: Platform, trusted: Keyring, es: seq<Event>, k: nat)
    requires k < |es| && Complete(es[k]) && KnownKind(KindOf(es[k]))
    ensures SoundKind(es, k) <==> NoneOf(p, trusted, es, k, KindOf(es[k]).t.word)
  {
    hide Complete, Applies, NoneOf, SoundCheckpoint, SoundResolution, SoundCountersignature, SoundOutcome, SoundArchive, SoundRotation;
    match KindOf(es[k]).t.word
    case CHECKPOINT => CheckpointPart(p, trusted, es, k);
    case OUTCOME => OutcomePart(p, trusted, es, k);
    case RESOLUTION => ResolutionPart(p, trusted, es, k);
    case COUNTERSIGNATURE => CountersignaturePart(p, trusted, es, k);
    case ARCHIVE => ArchivePart(p, trusted, es, k);
    case ROTATION => RotationPart(p, trusted, es, k);
    case _ => DecisionPart(p, trusted, es, k);
  }

  lemma DecisionPart(p: Platform, trusted: Keyring, es: seq<Event>, k: nat)
    requires k < |es|
    ensures NoneOf(p, trusted, es, k, DECISION)
  {
    hide Applies;
  }

  lemma SoundParts(p: Platform, trusted: Keyring, es: seq<Event>, k: nat)
    requires k < |es| && Complete(es[k])
    ensures KnownKind(KindOf(es[k]))
    ensures Sound(p, trusted, es, k) <==>
      forall code :: code in {ChainBreak, HashMismatch, UnknownKey, BadSignature} || CodeOf(KindOf(es[k]).t.word, code) ==>
        !Applies(p, trusted, es, k, code)
  {
    hide Complete, Applies, SoundSeal, SoundCheckpoint, SoundResolution, SoundCountersignature, SoundOutcome, SoundArchive, SoundRotation, CodeOf,
         Supported, OfSomeKind;
    CompleteIsKnown(es[k]);
    CompleteMeans(es[k]);
    SealSound(p, trusted, es, k);
    KindPart(p, trusted, es, k);
  }

  /** An event is sound exactly when no code applies to it. */
  lemma SoundExactly(p: Platform, trusted: Keyring, es: seq<Event>, k: nat)
    requires k < |es|
    ensures Sound(p, trusted, es, k) <==> forall code :: !Applies(p, trusted, es, k, code)
  {
    hide Complete, Applies, Sound, Supported, OfSomeKind, CodeOf;
    if !Complete(es[k]) {
      EarlyCodes(p, trusted, es, k, if !Supported(es[k]) then UnknownSchema else if !OfSomeKind(es[k]) then UnknownEventType else MissingFields);
      SoundIsComplete(p, trusted, es, k);
    } else {
      SoundParts(p, trusted, es, k);
      forall code | Applies(p, trusted, es, k, code)
        ensures code in {ChainBreak, HashMismatch, UnknownKey, BadSignature} || CodeOf(KindOf(es[k]).t.word, code)
      {
        CodeHasPlace(p, trusted, es, k, code);
      }
    }
  }

  lemma SoundIsComplete(p: Platform, trusted: Keyring, es: seq<Event>, k: nat)
    requires k < |es|
    ensures Sound(p, trusted, es, k) ==> Complete(es[k])
  {
    hide Complete;
  }

  lemma CleanExactlySound(p: Platform, trusted: Keyring, es: seq<Event>)
    ensures AllClean(p, trusted, es) <==> forall k :: 0 <= k < |es| ==> Sound(p, trusted, es, k)
  {
    hide CodesAt, Sound, Applies;
    forall k | 0 <= k < |es| ensures CodesAt(p, trusted, es, k) == [] <==> Sound(p, trusted, es, k) {
      SoundExactly(p, trusted, es, k);
      forall code ensures code in CodesAt(p, trusted, es, k) <==> Applies(p, trusted, es, k, code) {
        CodesExactly(p, trusted, es, k, code);
      }
      if CodesAt(p, trusted, es, k) != [] {
        assert CodesAt(p, trusted, es, k)[0] in CodesAt(p, trusted, es, k);
      }
    }
  }

  // ---- Checkpoint coverage ---------------------------------------------

  predicate Newest(es: seq<Event>, c: nat) {
    c < |es| && Is(es[c], CHECKPOINT) && forall d :: c < d < |es| ==> !Is(es[d], CHECKPOINT)
  }

  lemma {:induction false} NewestMeans(es: seq<Event>, k: nat)
    requires k <= |es|
    ensures NewestBefore(es, k).None? <==> forall c :: 0 <= c < k ==> !Is(es[c], CHECKPOINT)
    ensures NewestBefore(es, k).Some? ==>
      exists c :: 0 <= c < k && Is(es[c], CHECKPOINT) && NewestBefore(es, k).value == es[c] && forall d :: c < d < k ==> !Is(es[d], CHECKPOINT)
  {
    if k > 0 && !Is(es[k - 1], CHECKPOINT) {
      NewestMeans(es, k - 1);
    }
  }

  lemma NewestIs(es: seq<Event>, c: nat)
    requires Newest(es, c)
    ensures c < |es| && NewestBefore(es, |es|) == Some(es[c])
  {
    NewestMeans(es, |es|);
    assert Is(es[c], CHECKPOINT);
    var d :| 0 <= d < |es| && Is(es[d], CHECKPOINT) && NewestBefore(es, |es|).value == es[d] && forall x :: d < x < |es| ==> !Is(es[x], CHECKPOINT);
  }

  /** The count of a checkpoint, when it is an integer, is more than there are events. */
  predicate Beyond(checkpoint: Event, total: nat) {
    Counts(Get(checkpoint, CheckpointCount), total + 1)
  }

  predicate Countable(checkpoint: Event) { IsInt(Get(checkpoint, CheckpointCount)) }

  lemma BeyondMeans(checkpoint: Event, total: nat)
    ensures Beyond(checkpoint, total) <==> Countable(checkpoint) && total < IntValue(Get(checkpoint, CheckpointCount))
  {
  }

  /** The file-level codes about checkpoints: not found exactly when an accepted witness
      is not among the events; truncated exactly when the newest checkpoint or the witness
      commits to more events than there are. */
  lemma CoverageExactly(p: Platform, es: seq<Event>, commitment: Option<Event>)
    requires commitment.Some? ==> Countable(commitment.value)
    requires NewestBefore(es, |es|).Some? ==> Countable(NewestBefore(es, |es|).value)
    ensures var codes := CoverageOf(p, es, commitment);
      && (CheckpointNotFound in codes <==>
            commitment.Some? && forall i :: 0 <= i < |es| ==> Get(es[i], EventId) != Str(p.show(Get(commitment.value, EventId))))
      && (CheckpointTruncation in codes <==>
            || (commitment.Some? && Beyond(commitment.value, |es|))
            || (NewestBefore(es, |es|).Some? && Beyond(NewestBefore(es, |es|).value, |es|)))
      && (forall code :: code in codes ==> code == CheckpointNotFound || code == CheckpointTruncation)
  {
    hide NewestBefore, Get;
    var newest := NewestBefore(es, |es|);
    if commitment.Some? {
      BeyondMeans(commitment.value, |es|);
      assert FoundBefore(p, es, commitment, |es|) <==> exists i :: 0 <= i < |es| && Get(es[i], EventId) == Str(p.show(Get(commitment.value, EventId)));
    }
    if newest.Some? {
      BeyondMeans(newest.value, |es|);
    }
    hide Beyond;
  }

  /** A checkpoint file is a witness exactly when, chain position aside, nothing is wrong
      with it as a checkpoint event. */
  lemma WitnessExactly(p: Platform, trusted: Keyring, e: Event)
    ensures WitnessOk(p, trusted, e) <==>
      Is(e, CHECKPOINT) && forall code :: code != ChainBreak ==> !Applies(p, trusted, [e], 0, code)
  {
    hide Complete, Applies, Needs, Required, Unsigned, PyEq, WitnessOk, Get;
    WitnessParts(p, trusted, e);
    if !Complete(e) {
      EarlyCodes(p, trusted, [e], 0, if !Supported(e) then UnknownSchema else if !OfSomeKind(e) then UnknownEventType else MissingFields);
    } else {
      SealSoundApart(p, trusted, [e], 0);
      PlainSound(p, trusted, [e], 0);
      if Is(e, CHECKPOINT) {
        forall code | Applies(p, trusted, [e], 0, code)
          ensures code in {ChainBreak, HashMismatch, UnknownKey, BadSignature, CheckpointHeadMismatch, CheckpointBadCount}
        {
          CodeHasPlace(p, trusted, [e], 0, code);
        }
      }
    }
  }

  lemma WitnessParts(p: Platform, trusted: Keyring, e: Event)
    ensures WitnessOk(p, trusted, e) <==>
      && Complete(e) && Is(e, CHECKPOINT) && SoundCheckpoint(e)
      && Get(e, EventHash) == Str(p.digest(Unsigned(e))) && Trusts(trusted, e) && Signed(p, e)
  {
    hide Complete, Needs, Required, Unsigned, PyEq;
    CompleteMeans(e);
    CompleteIsSupported(e);
    CountsMeans(Get(e, CheckpointCount), 0);
    if Complete(e) {
      assert EventHash in e && KeyId in e && Signature in e;
    }
  }

  lemma SealSoundApart(p: Platform, trusted: Keyring, es: seq<Event>, k: nat)
    requires k < |es| && Complete(es[k])
    ensures Get(es[k], EventHash) == Str(p.digest(Unsigned(es[k]))) && Trusts(trusted, es[k]) && Signed(p, es[k]) <==>
      && !Applies(p, trusted, es, k, HashMismatch) && !Applies(p, trusted, es, k, UnknownKey)
      && !Applies(p, trusted, es, k, BadSignature)
  {
    hide PyEq, Complete, Get, Trusts, Signed, Unsigned, Stored;
  }

  lemma CompleteIsSupported(e: Event)
    ensures Complete(e) ==> Supported(e) && OfSomeKind(e)
  {
    hide Needs;
  }

  lemma SoundCheckpointMeans(p: Platform, trusted: Keyring, es: seq<Event>, k: nat)
    requires k < |es|
    ensures Sound(p, trusted, es, k) && Is(es[k], CHECKPOINT) <==>
      Complete(es[k]) && Is(es[k], CHECKPOINT) && SoundSeal(p, trusted, es, k) && SoundCheckpoint(es[k])
  {
    hide Complete, SoundSeal, SoundCheckpoint;
  }

  // ---- A favourable verdict --------------------------------------------

  /** What a favourable verdict guarantees of every event, whoever signed: each is sound
      where it stands, and an archive event stands first. */
  lemma ValidGuarantees(p: Platform, trusted: Keyring, lines: seq<Line>, w: WitnessFile, k: nat)
    requires Verify(p, trusted, lines, w).valid && k < |Read(lines)|
    ensures Readable(lines) == |lines| && Sound(p, trusted, Read(lines), k)
    ensures Is(Read(lines)[k], ARCHIVE) ==> k == 0
  {
    hide Verify, Read, AllClean, Sound;
    var es := Read(lines);
    ValidMeans(p, trusted, lines, w);
    CleanExactlySound(p, trusted, es);
    if Is(es[k], ARCHIVE) && k > 0 {
      assert Sound(p, trusted, es, k) && Sound(p, trusted, es, k - 1);
      ArchiveIsFirst(p, trusted, es, k);
    }
  }

  lemma ArchiveIsFirst(p: Platform, trusted: Keyring, es: seq<Event>, k: nat)
    requires 0 < k < |es| && Sound(p, trusted, es, k) && Sound(p, trusted, es, k - 1)
    ensures !Is(es[k], ARCHIVE)
  {
    hide Complete, Unsigned;
  }

  /** Without a witness: favourable exactly when every line parses, every event is sound
      and the newest checkpoint commits to no more events than there are. */
  lemma ValidExactly(p: Platform, trusted: Keyring, lines: seq<Line>)
    ensures Verify(p, trusted, lines, NoWitness).valid <==>
      && (forall i :: 0 <= i < |lines| ==> IsObject(lines[i]))
      && (forall k :: 0 <= k < |Read(lines)| ==> Sound(p, trusted, Read(lines), k))
      && forall c: nat :: Newest(Read(lines), c) ==> !Beyond(Read(lines)[c], |Read(lines)|)
  {
    hide Verify, AllClean, Sound, CoverageOf, Beyond, Newest;
    var es := Read(lines);
    ValidMeans(p, trusted, lines, NoWitness);
    CleanExactlySound(p, trusted, es);
    hide Read;
    if forall i :: 0 <= i < |lines| ==> IsObject(lines[i]) {
      ReadableWhile(lines, |lines|);
    }
    if forall k :: 0 <= k < |es| ==> Sound(p, trusted, es, k) {
      CoveredExactly(p, trusted, es);
    }
  }

  lemma NewestIsCountable(p: Platform, trusted: Keyring, es: seq<Event>)
    requires forall k :: 0 <= k < |es| ==> Sound(p, trusted, es, k)
    ensures NewestBefore(es, |es|).Some? ==> Countable(NewestBefore(es, |es|).value)
    ensures NewestBefore(es, |es|).Some? ==> exists c: nat :: Newest(es, c) && NewestBefore(es, |es|).value == es[c]
  {
    hide Sound;
    NewestMeans(es, |es|);
    if NewestBefore(es, |es|).Some? {
      var c :| 0 <= c < |es| && Is(es[c], CHECKPOINT) && NewestBefore(es, |es|).value == es[c] && forall d :: c < d < |es| ==> !Is(es[d], CHECKPOINT);
      assert Newest(es, c);
      SoundCheckpointMeans(p, trusted, es, c);
    }
  }

  lemma CoveredExactly(p: Platform, trusted: Keyring, es: seq<Event>)
    requires forall k :: 0 <= k < |es| ==> Sound(p, trusted, es, k)
    ensures CoverageOf(p, es, None) == [] <==> forall c: nat :: Newest(es, c) ==> !Beyond(es[c], |es|)
  {
    hide Sound, Beyond, Newest, NewestBefore, Countable;
    NewestIsCountable(p, trusted, es);
    CoverageExactly(p, es, None);
    forall c: nat | Newest(es, c) ensures c < |es| && NewestBefore(es, |es|) == Some(es[c]) {
      NewestIs(es, c);
    }
    var codes := CoverageOf(p, es, None);
    hide CoverageOf;
    if codes != [] {
      assert codes[0] in codes;
    }
  }

  /** With a witness: favourable exactly when, besides, the witness is acceptable, one of
      the events has its id, and it too commits to no more events than there are. */
  lemma ValidWithWitnessExactly(p: Platform, trusted: Keyring, lines: seq<Line>, w: Event)
    ensures Verify(p, trusted, lines, Witness(w)).valid <==>
      && Verify(p, trusted, lines, NoWitness).valid && WitnessOk(p, trusted, w)
      && !Beyond(w, |Read(lines)|)
      && exists i :: 0 <= i < |Read(lines)| && Get(Read(lines)[i], EventId) == Str(p.show(Get(w, EventId)))
  {
    hide Verify, AllClean, Sound, CoverageOf, Beyond, Newest, WitnessOk, NewestBefore, Countable, Get;
    var es := Read(lines);
    ValidMeans(p, trusted, lines, NoWitness);
    ValidMeans(p, trusted, lines, Witness(w));
    hide Read;
    CleanExactlySound(p, trusted, es);
    if AllClean(p, trusted, es) && WitnessOk(p, trusted, w) {
      NewestIsCountable(p, trusted, es);
      WitnessIsCountable(p, trusted, w);
      CoverageExactly(p, es, None);
      CoverageExactly(p, es, Some(w));
      NoCodes(CoverageOf(p, es, None));
      NoCodes(CoverageOf(p, es, Some(w)));
    }
  }

  lemma NoCodes(codes: seq<Code>)
    ensures codes == [] <==> forall code :: code !in codes
  {
    if codes != [] {
      assert codes[0] in codes;
    }
  }

  lemma WitnessIsCountable(p: Platform, trusted: Keyring, w: Event)
    requires WitnessOk(p, trusted, w)
    ensures Countable(w)
  {
    hide HashMatches;
  }

  // ---- The list of issues ----------------------------------------------

  /** What is reported on a line: nothing past the first line that does not parse. */
  ghost predicate OnThatLine(p: Platform, trusted: Keyring, lines: seq<Line>, line: nat, code: Code) {
    && 1 <= line <= |lines| && (forall j :: 0 <= j < line - 1 ==> IsObject(lines[j]))
    && match lines[line - 1]
       case Blank => false
       case NotJson => code == MalformedJson
       case NotObject => code == MalformedEvent
       case Object(_) =>
         var k := |Events(lines, line - 1)|;
         k < |Read(lines)| && code in CodesAt(p, trusted, Read(lines), k)
  }

  lemma {:induction false} NumbersAre(lines: seq<Line>, n: nat, k: nat)
    requires n <= |lines| && k < |Events(lines, n)|
    ensures var line := Numbers(lines, n)[k];
      1 <= line <= n && lines[line - 1] == Object(Events(lines, n)[k]) && |Events(lines, line - 1)| == k
  {
    if n > 0 && k < |Events(lines, n - 1)| {
      NumbersAre(lines, n - 1, k);
    }
  }

  lemma {:induction false} EventsGrow(lines: seq<Line>, m: nat, n: nat)
    requires m <= n <= |lines|
    ensures Events(lines, m) <= Events(lines, n)
  {
    if m < n {
      EventsGrow(lines, m, n - 1);
    }
  }

  lemma {:induction false} EventIssuesExactly(p: Platform, trusted: Keyring, es: seq<Event>, ns: seq<nat>, k: nat, issue: Issue)
    requires k <= |es| == |ns|
    ensures issue in EventIssues(p, trusted, es, ns, k) <==>
      exists i :: 0 <= i < k && ns[i] == issue.line && issue.code in CodesAt(p, trusted, es, i)
  {
    hide CodesAt;
    if k > 0 {
      EventIssuesExactly(p, trusted, es, ns, k - 1, issue);
      OnLineHas(ns[k - 1], CodesAt(p, trusted, es, k - 1), issue);
    }
  }

  lemma OnLineHas(line: nat, codes: seq<Code>, issue: Issue)
    ensures issue in OnLine(line, codes) <==> issue.line == line && issue.code in codes
  {
    if issue.line == line && issue.code in codes {
      var i :| 0 <= i < |codes| && codes[i] == issue.code;
      assert OnLine(line, codes)[i] == issue;
    }
  }

  lemma EventLineExactly(p: Platform, trusted: Keyring, lines: seq<Line>, issue: Issue)
    ensures var es, n := Read(lines), Readable(lines);
      issue in EventIssues(p, trusted, es, Numbers(lines, n), |es|) <==>
        1 <= issue.line <= n && lines[issue.line - 1].Object? && OnThatLine(p, trusted, lines, issue.line, issue.code)
  {
    hide CodesAt;
    var es, n := Read(lines), Readable(lines);
    var ns := Numbers(lines, n);
    EventIssuesExactly(p, trusted, es, ns, |es|, issue);
    forall i | 0 <= i < |es| ensures 1 <= ns[i] <= n && lines[ns[i] - 1] == Object(es[i]) && |Events(lines, ns[i] - 1)| == i {
      NumbersAre(lines, n, i);
    }
    if 1 <= issue.line <= n && lines[issue.line - 1].Object? {
      var k := |Events(lines, issue.line - 1)|;
      EventsGrow(lines, issue.line, n);
      assert k < |es|;
      LineOf(lines, n, issue.line);
    }
  }

  lemma {:induction false} LineOf(lines: seq<Line>, n: nat, line: nat)
    requires 1 <= line <= n <= |lines| && lines[line - 1].Object?
    ensures |Events(lines, line - 1)| < |Events(lines, n)| && Numbers(lines, n)[|Events(lines, line - 1)|] == line
  {
    if line < n {
      LineOf(lines, n - 1, line);
    }
  }

  lemma StopExactly(p: Platform, trusted: Keyring, lines: seq<Line>, issue: Issue)
    ensures issue in StopIssue(lines) <==>
      1 <= issue.line <= |lines| && !IsObject(lines[issue.line - 1]) && OnThatLine(p, trusted, lines, issue.line, issue.code)
  {
    hide CodesAt;
    var n := Readable(lines);
    if 1 <= issue.line <= |lines| && !IsObject(lines[issue.line - 1]) && forall j :: 0 <= j < issue.line - 1 ==> IsObject(lines[j]) {
      ReadableWhile(lines, issue.line - 1);
    }
  }

  /** The issues of a verdict, exactly: line by line those of the event standing there, the
      first line that does not parse, and on line 0 those of the witness and of coverage. */
  lemma IssuesExactly(p: Platform, trusted: Keyring, lines: seq<Line>, w: WitnessFile, issue: Issue)
    ensures issue in Verify(p, trusted, lines, w).issues <==>
      || OnThatLine(p, trusted, lines, issue.line, issue.code)
      || (issue.line == 0 && (issue.code in LoadWitness(p, trusted, w).1
                              || issue.code in CoverageOf(p, Read(lines), LoadWitness(p, trusted, w).0)))
  {
    hide CodesAt, LoadWitness, Coverage, NewestBefore, FoundBefore, EventIssues, StopIssue, OnThatLine, Numbers;
    var es, n := Read(lines), Readable(lines);
    var (commitment, problems) := LoadWitness(p, trusted, w);
    OnLineHas(0, problems, issue);
    OnLineHas(0, CoverageOf(p, es, commitment), issue);
    EventLineExactly(p, trusted, lines, issue);
    StopExactly(p, trusted, lines, issue);
    if OnThatLine(p, trusted, lines, issue.line, issue.code) {
      LineIsRead(p, trusted, lines, issue);
    }
  }

  predicate Ascending(issues: seq<Issue>, low: nat, high: nat) {
    && (forall i :: 0 <= i < |issues| ==> low <= issues[i].line <= high)
    && forall i, j :: 0 <= i < j < |issues| ==> issues[i].line <= issues[j].line
  }

  lemma AscendingJoins(a: seq<Issue>, b: seq<Issue>, low: nat, mid: nat, high: nat)
    requires Ascending(a, low, mid) && Ascending(b, mid, high) && low <= mid <= high
    ensures Ascending(a + b, low, high)
  {
  }

  lemma OnLineAscends(line: nat, codes: seq<Code>)
    ensures Ascending(OnLine(line, codes), line, line)
  {
  }

  lemma {:induction false} EventIssuesInOrder(p: Platform, trusted: Keyring, es: seq<Event>, ns: seq<nat>, k: nat, bound: nat)
    requires k <= |es| == |ns| && (forall i, j :: 0 <= i < j < |ns| ==> ns[i] < ns[j]) && forall i :: 0 <= i < k ==> ns[i] <= bound
    ensures Ascending(EventIssues(p, trusted, es, ns, k), 0, bound)
  {
    hide CodesAt, Ascending;
    if k == 0 {
      NothingAscends(bound);
    } else {
      var before, here := EventIssues(p, trusted, es, ns, k - 1), OnLine(ns[k - 1], CodesAt(p, trusted, es, k - 1));
      EventIssuesInOrder(p, trusted, es, ns, k - 1, ns[k - 1]);
      OnLineAscends(ns[k - 1], CodesAt(p, trusted, es, k - 1));
      AscendingJoins(before, here, 0, ns[k - 1], ns[k - 1]);
      AscendingWidens(before + here, ns[k - 1], bound);
    }
  }

  lemma NothingAscends(bound: nat)
    ensures Ascending([], 0, bound)
  {
  }

  lemma AscendingWidens(issues: seq<Issue>, high: nat, higher: nat)
    requires Ascending(issues, 0, high) && high <= higher
    ensures Ascending(issues, 0, higher)
  {
  }

  lemma {:induction false} NumbersAscend(lines: seq<Line>, n: nat)
    requires n <= |lines|
    ensures forall i, j :: 0 <= i < j < |Numbers(lines, n)| ==> Numbers(lines, n)[i] < Numbers(lines, n)[j]
    ensures forall i :: 0 <= i < |Numbers(lines, n)| ==> 0 < Numbers(lines, n)[i] <= n
  {
    if n > 0 {
      NumbersAscend(lines, n - 1);
    }
  }

  /** Issues are listed in the order of their lines, those of coverage last. */
  lemma IssuesInOrder(p: Platform, trusted: Keyring, lines: seq<Line>, w: WitnessFile)
    ensures var issues := Verify(p, trusted, lines, w).issues;
      forall i, j :: 0 <= i < j < |issues| ==> issues[i].line <= issues[j].line || issues[j].line == 0
  {
    hide CodesAt, LoadWitness, Coverage, NewestBefore, FoundBefore, EventIssues, Numbers, StopIssue, Ascending;
    var es, n := Read(lines), Readable(lines);
    var (commitment, problems) := LoadWitness(p, trusted, w);
    var middle, last := EventIssues(p, trusted, es, Numbers(lines, n), |es|), OnLine(0, CoverageOf(p, es, commitment));
    NumbersAscend(lines, n);
    EventIssuesInOrder(p, trusted, es, Numbers(lines, n), |es|, n);
    OnLineAscends(0, problems);
    AscendingJoins(OnLine(0, problems), middle, 0, 0, n);
    StopAscends(lines);
    AscendingJoins(OnLine(0, problems) + middle, StopIssue(lines), 0, n, n + 1);
    OnLineAscends(0, CoverageOf(p, es, commitment));
    var front := OnLine(0, problems) + middle + StopIssue(lines);
    assert IssuesOf(p, trusted, lines, w) == front + last;
    FileLevelLast(front, last, n + 1);
  }

  lemma StopAscends(lines: seq<Line>)
    ensures Ascending(StopIssue(lines), Readable(lines), Readable(lines) + 1)
  {
  }

  lemma FileLevelLast(front: seq<Issue>, last: seq<Issue>, high: nat)
    requires Ascending(front, 0, high) && Ascending(last, 0, 0)
    ensures var issues := front + last;
      forall i, j :: 0 <= i < j < |issues| ==> issues[i].line <= issues[j].line || issues[j].line == 0
  {
  }

  lemma LineIsRead(p: Platform, trusted: Keyring, lines: seq<Line>, issue: Issue)
    requires OnThatLine(p, trusted, lines, issue.line, issue.code)
    ensures 1 <= issue.line <= |lines|
    ensures lines[issue.line - 1].Object? ==> issue.line <= Readable(lines)
    ensures lines[issue.line - 1].Object? <==> IsObject(lines[issue.line - 1])
  {
    hide CodesAt;
    ReadableWhile(lines, issue.line - 1);
    if lines[issue.line - 1].Object? {
      ReadableWhile(lines, issue.line);
    }
  }

  /** How many events are called verified: the sound ones. */
  lemma VerifiedExactly(p: Platform, trusted: Keyring, lines: seq<Line>, w: WitnessFile)
    ensures var es := Read(lines);
      Verify(p, trusted, lines, w).verified == |set k | 0 <= k < |es| && CodesAt(p, trusted, es, k) == []|
  {
    hide CodesAt, IssuesOf;
    CleanCount(p, trusted, Read(lines), |Read(lines)|);
  }

  lemma {:induction false} CleanCount(p: Platform, trusted: Keyring, es: seq<Event>, n: nat)
    requires n <= |es|
    ensures CleanEvents(p, trusted, es, n) == |set k | 0 <= k < n && CodesAt(p, trusted, es, k) == []|
  {
    hide CodesAt;
    if n > 0 {
      CleanCount(p, trusted, es, n - 1);
      var before, after := set k | 0 <= k < n - 1 && CodesAt(p, trusted, es, k) == [], set k | 0 <= k < n && CodesAt(p, trusted, es, k) == [];
      assert after == if CodesAt(p, trusted, es, n - 1) == [] then before + {n - 1} else before;
    }
  }
}
