/** Offline verification: one streaming pass over a journal file. */
module Verification {
  import opened Evidence

  datatype Code =
    | UnknownSchema | UnknownEventType | MissingFields
    | CheckpointHeadMismatch | CheckpointBadCount
    | ResolutionBadValue | ResolutionBadReference | ResolutionBadNote
    | CountersignatureOrphan | CountersignatureCountMismatch | CountersignatureHeadMismatch | CountersignatureBadCount
    | OutcomeBadReceipt
    | ArchiveNotFirst | ArchiveBadCount | ArchiveBadPath
    | RotationSignerMismatch | RotationBadSuccessor | RotationBadFingerprint
    | RotationFingerprintMismatch | RotationSelfSuccessor
    | ChainBreak | HashMismatch | UnknownKey | BadSignature
    | MalformedJson | MalformedEvent
    | WitnessUnreadable | WitnessInvalid
    | CheckpointNotFound | CheckpointTruncation
    | CheckpointCountUnusable

  /** An issue and the line it is about; file-level issues have line 0. */
  datatype Issue = Issue(line: nat, code: Code)

  datatype Line = Blank | NotJson | NotObject | Object(event: Event)

  datatype WitnessFile = NoWitness | Unreadable | Empty | WitnessNotJson | WitnessNotObject | Witness(event: Event)

  datatype Result = Result(valid: bool, verified: nat, issues: seq<Issue>)

  type Keyring = set<Text>
  type Checkpoints = map<Text, Event>

  /** What the pass keeps of each event it reads: nothing, all of it, or a projection
      onto some fields, where a missing field is kept as null. */
  datatype Retention = Nothing | Whole | Only(fields: set<Field>)

  function Project(e: Event, fields: set<Field>): Event {
    map f | f in fields :: Get(e, f)
  }

  function Kept(retain: Retention, e: Event): seq<Event> {
    match retain
    case Nothing => []
    case Whole => [e]
    case Only(fields) => [Project(e, fields)]
  }

  function Retained(retain: Retention, es: seq<Event>): seq<Event> {
    if es == [] then [] else Retained(retain, es[..|es| - 1]) + Kept(retain, es[|es| - 1])
  }

  function When(condition: bool, code: Code): seq<Code> {
    if condition then [code] else []
  }

  // ---- One event -------------------------------------------------------

  predicate KnownKind(j: Json) {
    && j.Str? && j.t.Known?
    && j.t.word in {DECISION, OUTCOME, CHECKPOINT, RESOLUTION, COUNTERSIGNATURE, ARCHIVE, ROTATION}
  }

  const CHAINED: set<Field> := {SchemaVersion, EventType, EventId, TimestampUtc, KeyId, PreviousEventHash, EventHash, Signature}
  const SHARED: set<Field> := CHAINED + {ActionId, ActionName, ContractHash}

  function Required(kind: Json): set<Field>
    requires KnownKind(kind)
  {
    match kind.t.word
    case DECISION => SHARED + {Verdict, Risk, ApprovalMode, RedactedInputSummary, InputHash}
    case OUTCOME => SHARED + {Status, DecisionEventId}
    case RESOLUTION => SHARED + {DecisionEventId, ResolutionValue, Note}
    case CHECKPOINT => CHAINED + {CheckpointCount, HeadSha256}
    case COUNTERSIGNATURE => CHAINED + {CheckpointEventId, CheckpointCount, HeadSha256}
    case ARCHIVE => CHAINED + {PriorCount, PriorHead, ArchivedPath}
    case _ => CHAINED + {PriorKeyId, SuccessorKeyId, SuccessorFingerprint}
  }

  predicate CountAtLeast(j: Json, low: int) { IsInt(j) && IntValue(j) >= low }

  function CheckpointShape(e: Event): seq<Code> {
    When(!PyEq(Get(e, HeadSha256), Get(e, PreviousEventHash)), CheckpointHeadMismatch)
    + When(!CountAtLeast(Get(e, CheckpointCount), 0), CheckpointBadCount)
  }

  function ResolutionShape(e: Event): seq<Code> {
    When(Get(e, ResolutionValue) != W(CONFIRMED_COMPLETED) && Get(e, ResolutionValue) != W(CONFIRMED_NOT_COMPLETED), ResolutionBadValue)
    + When(!IsText(Get(e, DecisionEventId)), ResolutionBadReference)
    + When(!IsText(Get(e, Note)), ResolutionBadNote)
  }

  function CountersignatureShape(e: Event, checkpoints: Checkpoints): seq<Code> {
    var ref := Get(e, CheckpointEventId);
    (if IsText(ref) && ref.t in checkpoints then
       When(!PyEq(Get(e, CheckpointCount), Get(checkpoints[ref.t], CheckpointCount)), CountersignatureCountMismatch)
       + When(!PyEq(Get(e, HeadSha256), Get(checkpoints[ref.t], HeadSha256)), CountersignatureHeadMismatch)
     else [CountersignatureOrphan])
    + When(!CountAtLeast(Get(e, CheckpointCount), 0), CountersignatureBadCount)
  }

  function OutcomeShape(e: Event): seq<Code> {
    When(Receipt in e && !(e[Receipt].Compound? && e[Receipt].isObject), OutcomeBadReceipt)
  }

  predicate BareText(t: Text) {
    !t.Other? || ('/' !in t.chars && '\\' !in t.chars && t.chars != "." && t.chars != "..")
  }

  function ArchiveShape(e: Event): seq<Code> {
    When(Get(e, PreviousEventHash) != Null, ArchiveNotFirst)
    + When(!CountAtLeast(Get(e, PriorCount), 1), ArchiveBadCount)
    + When(!IsText(Get(e, ArchivedPath)) || !BareText(Get(e, ArchivedPath).t), ArchiveBadPath)
  }

  predicate HexText(j: Json) {
    && j.Str? && j.t.Other? && |j.t.chars| == 64
    && forall i :: 0 <= i < 64 ==> '0' <= j.t.chars[i] <= '9' || 'a' <= j.t.chars[i] <= 'f'
  }

  predicate KeyIdText(j: Json) {
    j.Str? && j.t.Other? && "ed25519:" <= j.t.chars
  }

  function RotationShape(e: Event): seq<Code> {
    var prior, successor, fingerprint := Get(e, PriorKeyId), Get(e, SuccessorKeyId), Get(e, SuccessorFingerprint);
    When(!PyEq(prior, Get(e, KeyId)), RotationSignerMismatch)
    + When(!KeyIdText(successor), RotationBadSuccessor)
    + (if !HexText(fingerprint) then [RotationBadFingerprint]
       else When(IsText(successor) && successor.t != Other("ed25519:" + fingerprint.t.chars[..16]), RotationFingerprintMismatch))
    + When(IsText(prior) && prior == successor, RotationSelfSuccessor)
  }

  function Shape(e: Event, checkpoints: Checkpoints): seq<Code>
    requires KnownKind(KindOf(e))
  {
    match KindOf(e).t.word
    case CHECKPOINT => CheckpointShape(e)
    case RESOLUTION => ResolutionShape(e)
    case COUNTERSIGNATURE => CountersignatureShape(e, checkpoints)
    case OUTCOME => OutcomeShape(e)
    case ARCHIVE => ArchiveShape(e)
    case ROTATION => RotationShape(e)
    case _ => []
  }

  function Integrity(p: Platform, trusted: Keyring, e: Event, expected: Json): seq<Code>
    requires CHAINED <= e.Keys
  {
    var digest := p.digest(Unsigned(e));
    When(!PyEq(e[PreviousEventHash], expected), ChainBreak)
    + When(e[EventHash] != Str(digest), HashMismatch)
    + (if !IsText(e[KeyId]) || e[KeyId].t !in trusted then [UnknownKey]
       else When(!p.checks(e[KeyId].t, digest, p.show(e[Signature])), BadSignature))
  }

  function VerifyEvent(p: Platform, trusted: Keyring, e: Event, expected: Json, checkpoints: Checkpoints): seq<Code> {
    if Get(e, SchemaVersion) != W(VERSION_1) then [UnknownSchema]
    else if !KnownKind(KindOf(e)) then [UnknownEventType]
    else if !(Required(KindOf(e)) <= e.Keys) then [MissingFields]
    else Shape(e, checkpoints) + Integrity(p, trusted, e, expected)
  }

  // ---- What the pass carries from line to line -------------------------

  predicate IsObject(l: Line) { l.Object? || l.Blank? }

  /** How many lines are read: the pass stops at the first unparseable one. */
  function Readable(lines: seq<Line>): (n: nat)
    ensures n <= |lines|
    ensures forall i :: 0 <= i < n ==> IsObject(lines[i])
    ensures n < |lines| ==> !IsObject(lines[n])
  {
    if lines == [] || !IsObject(lines[0]) then 0 else 1 + Readable(lines[1..])
  }

  /** The events on the first `n` lines, and the lines they stand on. */
  function Events(lines: seq<Line>, n: nat): (es: seq<Event>)
    requires n <= |lines|
    ensures |es| <= n
  {
    if n == 0 then []
    else if lines[n - 1].Object? then Events(lines, n - 1) + [lines[n - 1].event]
    else Events(lines, n - 1)
  }

  function Numbers(lines: seq<Line>, n: nat): (ns: seq<nat>)
    requires n <= |lines|
    ensures |ns| == |Events(lines, n)|
  {
    if n == 0 then []
    else if lines[n - 1].Object? then Numbers(lines, n - 1) + [n]
    else Numbers(lines, n - 1)
  }

  /** The events the pass reads before it stops. */
  function Read(lines: seq<Line>): seq<Event> {
    Events(lines, Readable(lines))
  }

  /** The predecessor hash expected of event `k`: the one stored just before it. */
  function Expected(es: seq<Event>, k: nat): Json
    requires k <= |es|
  {
    if k == 0 then Null else Stored(es[k - 1])
  }

  function AddCheckpoint(seen: Checkpoints, e: Event): Checkpoints {
    if KindOf(e) == W(CHECKPOINT) && IsText(Get(e, EventId)) then seen[Get(e, EventId).t := e] else seen
  }

  function CheckpointsBefore(es: seq<Event>, k: nat): Checkpoints
    requires k <= |es|
  {
    if k == 0 then map[] else AddCheckpoint(CheckpointsBefore(es, k - 1), es[k - 1])
  }

  function NewestBefore(es: seq<Event>, k: nat): Option<Event>
    requires k <= |es|
  {
    if k == 0 then None
    else if KindOf(es[k - 1]) == W(CHECKPOINT) then Some(es[k - 1])
    else NewestBefore(es, k - 1)
  }

  /** What is wrong with event `k` where it stands. */
  function CodesAt(p: Platform, trusted: Keyring, es: seq<Event>, k: nat): seq<Code>
    requires k < |es|
  {
    VerifyEvent(p, trusted, es[k], Expected(es, k), CheckpointsBefore(es, k))
  }

  function OnLine(line: nat, codes: seq<Code>): (issues: seq<Issue>)
    ensures |issues| == |codes|
    ensures forall i :: 0 <= i < |codes| ==> issues[i] == Issue(line, codes[i])
  {
    seq(|codes|, i requires 0 <= i < |codes| => Issue(line, codes[i]))
  }

  function EventIssues(p: Platform, trusted: Keyring, es: seq<Event>, numbers: seq<nat>, k: nat): seq<Issue>
    requires k <= |es| == |numbers|
  {
    if k == 0 then []
    else EventIssues(p, trusted, es, numbers, k - 1) + OnLine(numbers[k - 1], CodesAt(p, trusted, es, k - 1))
  }

  function CleanEvents(p: Platform, trusted: Keyring, es: seq<Event>, k: nat): nat
    requires k <= |es|
  {
    if k == 0 then 0
    else CleanEvents(p, trusted, es, k - 1) + if CodesAt(p, trusted, es, k - 1) == [] then 1 else 0
  }

  // ---- Checkpoints and witnesses ---------------------------------------

  predicate WitnessOk(p: Platform, trusted: Keyring, e: Event) {
    && Get(e, SchemaVersion) == W(VERSION_1)
    && KindOf(e) == W(CHECKPOINT)
    && Required(W(CHECKPOINT)) <= e.Keys
    && PyEq(Get(e, HeadSha256), Get(e, PreviousEventHash))
    && CountAtLeast(Get(e, CheckpointCount), 0)
    && HashMatches(p, e)
    && IsText(e[KeyId]) && e[KeyId].t in trusted
    && p.checks(e[KeyId].t, p.digest(Unsigned(e)), p.show(e[Signature]))
  }

  /** The validated witness, and the issue if there is none although one was named. */
  function LoadWitness(p: Platform, trusted: Keyring, w: WitnessFile): (Option<Event>, seq<Code>) {
    match w
    case NoWitness => (None, [])
    case Unreadable => (None, [WitnessUnreadable])
    case Witness(e) => if WitnessOk(p, trusted, e) then (Some(e), []) else (None, [WitnessInvalid])
    case _ => (None, [WitnessInvalid])
  }

  function Truncation(total: nat, checkpoint: Event): seq<Code> {
    if !IsInt(Get(checkpoint, CheckpointCount)) then [CheckpointCountUnusable]
    else When(total < IntValue(Get(checkpoint, CheckpointCount)), CheckpointTruncation)
  }

  /** The candidate committing to more events; the first one on a tie. */
  function Larger(a: Event, b: Event): Event {
    if IsInt(Get(a, CheckpointCount)) && IsInt(Get(b, CheckpointCount))
      && IntValue(Get(a, CheckpointCount)) < IntValue(Get(b, CheckpointCount)) then b else a
  }

  function Coverage(newest: Option<Event>, commitment: Option<Event>, found: bool, total: nat): seq<Code> {
    match (newest, commitment)
    case (None, None) => []
    case (Some(n), None) => Truncation(total, n)
    case (None, Some(w)) =>
      if found then Truncation(total, w) else [CheckpointNotFound] + Truncation(total, w)
    case (Some(n), Some(w)) =>
      if found then Truncation(total, Larger(n, w))
      else [CheckpointNotFound] + Truncation(total, w) + Truncation(total, n)
  }

  predicate Names(p: Platform, e: Event, commitment: Event) {
    Get(e, EventId) == Str(p.show(Get(commitment, EventId)))
  }

  predicate FoundBefore(p: Platform, es: seq<Event>, commitment: Option<Event>, k: nat)
    requires k <= |es|
  {
    commitment.Some? && exists i :: 0 <= i < k && Names(p, es[i], commitment.value)
  }

  // ---- The pass --------------------------------------------------------

  function StopIssue(lines: seq<Line>): seq<Issue> {
    var n := Readable(lines);
    if n == |lines| then [] else [Issue(n + 1, if lines[n].NotJson? then MalformedJson else MalformedEvent)]
  }

  function IssuesOf(p: Platform, trusted: Keyring, lines: seq<Line>, w: WitnessFile): seq<Issue> {
    var es := Read(lines);
    var (commitment, problems) := LoadWitness(p, trusted, w);
    OnLine(0, problems)
    + EventIssues(p, trusted, es, Numbers(lines, Readable(lines)), |es|)
    + StopIssue(lines)
    + OnLine(0, Coverage(NewestBefore(es, |es|), commitment, FoundBefore(p, es, commitment, |es|), |es|))
  }

  function Verify(p: Platform, trusted: Keyring, lines: seq<Line>, w: WitnessFile): Result {
    var issues := IssuesOf(p, trusted, lines, w);
    Result(issues == [], CleanEvents(p, trusted, Read(lines), |Read(lines)|), issues)
  }

  /** Later lines change nothing about the events already read. */
  lemma ReadableWhile(lines: seq<Line>, i: nat)
    requires i <= |lines| && forall j :: 0 <= j < i ==> IsObject(lines[j])
    ensures i <= Readable(lines)
    ensures i < |lines| && !IsObject(lines[i]) ==> Readable(lines) == i
    ensures i == |lines| ==> Readable(lines) == i
  {
  }

  lemma {:induction false} PassAppend(es: seq<Event>, e: Event, k: nat)
    requires k <= |es|
    ensures CheckpointsBefore(es + [e], k) == CheckpointsBefore(es, k)
    ensures NewestBefore(es + [e], k) == NewestBefore(es, k)
    ensures Expected(es + [e], k) == Expected(es, k)
  {
    if k > 0 {
      PassAppend(es, e, k - 1);
    }
  }

  lemma CodesAppend(p: Platform, trusted: Keyring, es: seq<Event>, e: Event, k: nat)
    requires k <= |es|
    ensures CodesAt(p, trusted, es + [e], k) ==
            VerifyEvent(p, trusted, if k < |es| then es[k] else e, Expected(es, k), CheckpointsBefore(es, k))
  {
    PassAppend(es, e, k);
  }

  lemma {:induction false} IssuesAppend(p: Platform, trusted: Keyring, es: seq<Event>, ns: seq<nat>, e: Event, n: nat, k: nat)
    requires k <= |es| == |ns|
    ensures EventIssues(p, trusted, es + [e], ns + [n], k) == EventIssues(p, trusted, es, ns, k)
    ensures CleanEvents(p, trusted, es + [e], k) == CleanEvents(p, trusted, es, k)
  {
    hide VerifyEvent;
    if k > 0 {
      IssuesAppend(p, trusted, es, ns, e, n, k - 1);
      CodesAppend(p, trusted, es, e, k - 1);
    }
  }

  lemma PassStart(p: Platform, trusted: Keyring, commitment: Option<Event>)
    ensures Expected([], 0) == Null
    ensures CheckpointsBefore([], 0) == map[] && NewestBefore([], 0) == None
    ensures !FoundBefore(p, [], commitment, 0)
    ensures EventIssues(p, trusted, [], [], 0) == [] && CleanEvents(p, trusted, [], 0) == 0
  {
  }

  /** What reading one more event does to everything the pass carries. */
  lemma PassStep(p: Platform, trusted: Keyring, es: seq<Event>, ns: seq<nat>, e: Event, n: nat)
    requires |es| == |ns|
    ensures var k, all := |es|, es + [e];
      var codes := VerifyEvent(p, trusted, e, Expected(es, k), CheckpointsBefore(es, k));
      && Expected(all, k + 1) == Stored(e)
      && CheckpointsBefore(all, k + 1) == AddCheckpoint(CheckpointsBefore(es, k), e)
      && NewestBefore(all, k + 1) == (if KindOf(e) == W(CHECKPOINT) then Some(e) else NewestBefore(es, k))
      && EventIssues(p, trusted, all, ns + [n], k + 1) == EventIssues(p, trusted, es, ns, k) + OnLine(n, codes)
      && CleanEvents(p, trusted, all, k + 1) == CleanEvents(p, trusted, es, k) + if codes == [] then 1 else 0
  {
    PassAppend(es, e, |es|);
    CodesAppend(p, trusted, es, e, |es|);
    IssuesAppend(p, trusted, es, ns, e, n, |es|);
  }

  lemma FoundStep(p: Platform, es: seq<Event>, e: Event, commitment: Option<Event>)
    ensures FoundBefore(p, es + [e], commitment, |es| + 1)
        <==> FoundBefore(p, es, commitment, |es|) || (commitment.Some? && Names(p, e, commitment.value))
  {
    var all := es + [e];
    if commitment.Some? {
      assert all[|es|] == e;
      if FoundBefore(p, es, commitment, |es|) {
        var i :| 0 <= i < |es| && Names(p, es[i], commitment.value);
        assert Names(p, all[i], commitment.value);
      }
    }
  }

  lemma RetainedStep(retain: Retention, es: seq<Event>, e: Event)
    ensures Retained(retain, es + [e]) == Retained(retain, es) + Kept(retain, e)
  {
    assert (es + [e])[..|es|] == es;
  }

  lemma RetainedNothing(retain: Retention)
    ensures Retained(retain, []) == []
  {
  }

  /** One streaming pass, holding only the last hash, counters and the checkpoints seen so far. */
  method ReadAndVerify(p: Platform, trusted: Keyring, lines: seq<Line>, w: WitnessFile, retain: Retention)
    returns (result: Result, events: seq<Event>)
    ensures result == Verify(p, trusted, lines, w)
    ensures events == Retained(retain, Read(lines))
  {
    hide VerifyEvent, Kept, Retained, LoadWitness, Coverage, EventIssues, CleanEvents, CheckpointsBefore, NewestBefore,
         AddCheckpoint, Names, FoundBefore, OnLine, Expected, Stored, KindOf;
    var (commitment, problems) := LoadWitness(p, trusted, w);
    var issues := OnLine(0, problems);
    var previous := Null;
    var verified, total, at := 0, 0, 0;
    var newest: Option<Event> := None;
    var checkpoints: Checkpoints := map[];
    var found := false;
    events := [];
    ghost var es, ns := [], [];
    PassStart(p, trusted, commitment);
    assert events == Retained(retain, es) by { RetainedNothing(retain); }
    while at < |lines| && IsObject(lines[at])
      invariant at <= |lines|
      invariant forall j :: 0 <= j < at ==> IsObject(lines[j])
      invariant es == Events(lines, at) && ns == Numbers(lines, at) && total == |es| == |ns|
      invariant previous == Expected(es, total)
      invariant checkpoints == CheckpointsBefore(es, total)
      invariant newest == NewestBefore(es, total)
      invariant found == FoundBefore(p, es, commitment, total)
      invariant issues == OnLine(0, problems) + EventIssues(p, trusted, es, ns, total)
      invariant verified == CleanEvents(p, trusted, es, total)
      invariant events == Retained(retain, es)
    {
      if lines[at].Object? {
        var event := lines[at].event;
        PassStep(p, trusted, es, ns, event, at + 1);
        FoundStep(p, es, event, commitment);
        var codes := VerifyEvent(p, trusted, event, previous, checkpoints);
        issues := issues + OnLine(at + 1, codes);
        verified := verified + if codes == [] then 1 else 0;
        found := found || (commitment.Some? && Names(p, event, commitment.value));
        previous := Stored(event);
        newest := if KindOf(event) == W(CHECKPOINT) then Some(event) else newest;
        checkpoints := AddCheckpoint(checkpoints, event);
        total := total + 1;
        RetainedStep(retain, es, event);
        events := events + Kept(retain, event);
        es, ns := es + [event], ns + [at + 1];
      }
      at := at + 1;
    }
    ReadableWhile(lines, at);
    issues := issues + (if at == |lines| then [] else [Issue(at + 1, if lines[at].NotJson? then MalformedJson else MalformedEvent)]);
    issues := issues + OnLine(0, Coverage(newest, commitment, found, total));
    result := Result(issues == [], verified, issues);
  }
}
