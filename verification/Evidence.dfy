/** The evidence journal's data: JSON events, their hashes, and hash chains.

An event is a JSON object, modelled as a map from field names to JSON values, so
that missing fields and values of the wrong type can be told apart from good ones. */
module Evidence {

  datatype Option<+T> = None | Some(value: T)

  /** The texts the program compares with; every other text is `Other`. */
  datatype Word =
    | VERSION_1
    | DECISION | OUTCOME | CHECKPOINT | RESOLUTION | COUNTERSIGNATURE | ARCHIVE | ROTATION
    | ALLOWED | DENIED | SUCCEEDED | FAILED | CONFIRMED_COMPLETED | CONFIRMED_NOT_COMPLETED

  /** A text is known by its word, as the hash of a payload, or by its characters. */
  datatype Text = Known(word: Word) | Other(chars: string) | DigestOf(payload: map<Field, Json>)

  /** A JSON value. Arrays and nested objects are never inspected by the journal
      code, so a compound value keeps only its kind and its canonical text. */
  datatype Json =
    | Null
    | Bool(b: bool)
    | Num(n: int)
    | Flt(r: real)
    | Str(t: Text)
    | Compound(isObject: bool, text: string)

  datatype Field =
    | SchemaVersion | EventType | EventId | TimestampUtc | KeyId
    | PreviousEventHash | EventHash | Signature
    | ActionId | ActionName | ContractHash
    | Verdict | Risk | ApprovalMode | RedactedInputSummary | ParameterRetention | InputHash
    | ApprovalReason | ApprovedBy | IdempotencyKey | SpendCents | DryRun | DuplicateOf | Metadata
    | Status | DecisionEventId | ObservedResultType | RedactedOutputHash | Receipt
    | ExceptionType | SanitizedErrorSummary
    | ResolutionValue | Note
    | CheckpointCount | HeadSha256 | CheckpointEventId
    | PriorCount | PriorHead | ArchivedPath
    | PriorKeyId | SuccessorKeyId | SuccessorFingerprint
    | Unlisted(name: string)

  type Event = map<Field, Json>

  /** What the libraries provide: SHA-256 of the canonical bytes in hex, Ed25519
      verification of (key id, digest, signature), and Python's `str`. */
  datatype Platform = Platform(
    digest: Event -> Text,
    checks: (Text, Text, Text) -> bool,
    show: Json -> Text)

  function W(word: Word): Json { Str(Known(word)) }

  /** Python's `event.get(field)`: a missing field reads as null. */
  function Get(e: Event, f: Field): Json {
    if f in e then e[f] else Null
  }

  predicate IsText(j: Json) { j.Str? }

  /** Python's `isinstance(j, int)`, which holds for booleans too. */
  predicate IsInt(j: Json) { j.Num? || j.Bool? }

  function IntValue(j: Json): int
    requires IsInt(j)
  {
    if j.Num? then j.n else if j.b then 1 else 0
  }

  function NumberValue(j: Json): Option<real> {
    match j
    case Bool(b) => Some(if b then 1.0 else 0.0)
    case Num(n) => Some(n as real)
    case Flt(r) => Some(r)
    case _ => None
  }

  /** Python's `==`: numbers compare across types, everything else by structure. */
  predicate PyEq(a: Json, b: Json) {
    a == b || (NumberValue(a).Some? && NumberValue(a) == NumberValue(b))
  }

  /** The event without its hash and signature: what is hashed and signed. */
  function Unsigned(e: Event): Event {
    e - {EventHash, Signature}
  }

  function KindOf(e: Event): Json { Get(e, EventType) }

  /** The hash a later event must name as its predecessor. */
  function Stored(e: Event): Json {
    if IsText(Get(e, EventHash)) then Get(e, EventHash) else Null
  }

  function Head(es: seq<Event>): Json {
    if es == [] then Null else Stored(es[|es| - 1])
  }

  ghost predicate InjectiveDigest(p: Platform) {
    forall a: Event, b: Event :: p.digest(a) == p.digest(b) ==> a == b
  }

  ghost predicate ShowsTexts(p: Platform) {
    forall t: Text :: p.show(Str(t)) == t
  }

  predicate HashMatches(p: Platform, e: Event) {
    EventHash in e && e[EventHash] == Str(p.digest(Unsigned(e)))
  }

  /** Every event carries the hash of its payload and names its predecessor's. */
  ghost predicate Chained(p: Platform, es: seq<Event>) {
    forall i :: 0 <= i < |es| ==>
      && HashMatches(p, es[i])
      && PreviousEventHash in es[i]
      && es[i][PreviousEventHash] == Head(es[..i])
  }

  /** The same payloads in the same order; only hashes' carriers and signatures may differ. */
  ghost predicate SamePayloads(a: seq<Event>, b: seq<Event>) {
    |a| == |b| && forall i :: 0 <= i < |a| ==> Unsigned(a[i]) == Unsigned(b[i])
  }

  lemma UnsignedKeeps(e: Event, f: Field)
    requires f != EventHash && f != Signature
    ensures Get(Unsigned(e), f) == Get(e, f)
    ensures f in Unsigned(e) <==> f in e
  {
  }

  lemma UnsignedAgree(a: Event, b: Event, f: Field)
    requires Unsigned(a) == Unsigned(b)
    requires f != EventHash && f != Signature
    ensures Get(a, f) == Get(b, f)
    ensures f in a <==> f in b
  {
    UnsignedKeeps(a, f);
    UnsignedKeeps(b, f);
  }

  lemma ChainedPrefix(p: Platform, es: seq<Event>, n: nat)
    requires Chained(p, es) && n <= |es|
    ensures Chained(p, es[..n])
  {
    forall i | 0 <= i < n
      ensures HashMatches(p, es[..n][i]) && PreviousEventHash in es[..n][i]
      ensures es[..n][i][PreviousEventHash] == Head(es[..n][..i])
    {
      assert es[..n][..i] == es[..i];
    }
  }

  lemma ChainedAppend(p: Platform, es: seq<Event>, e: Event)
    requires Chained(p, es) && HashMatches(p, e)
    requires PreviousEventHash in e && e[PreviousEventHash] == Head(es)
    ensures Chained(p, es + [e])
  {
    var all := es + [e];
    forall i | 0 <= i < |all|
      ensures HashMatches(p, all[i]) && PreviousEventHash in all[i]
      ensures all[i][PreviousEventHash] == Head(all[..i])
    {
      if i < |es| {
        assert all[..i] == es[..i];
      } else {
        assert all[..i] == es;
      }
    }
  }

  lemma DigestsEqual(p: Platform, a: Event, b: Event)
    requires InjectiveDigest(p)
    requires HashMatches(p, a) && HashMatches(p, b)
    requires a[EventHash] == b[EventHash]
    ensures Unsigned(a) == Unsigned(b)
  {
    assert p.digest(Unsigned(a)) == p.digest(Unsigned(b));
  }

  lemma DigestsDiffer(p: Platform, a: Event, b: Event)
    requires InjectiveDigest(p)
    requires HashMatches(p, a) && HashMatches(p, b) && Unsigned(a) != Unsigned(b)
    ensures Get(a, EventHash) != Get(b, EventHash)
  {
    assert p.digest(Unsigned(a)) != p.digest(Unsigned(b));
  }

  lemma SamePayloadsExtend(a: seq<Event>, b: seq<Event>)
    requires a != [] && b != []
    requires SamePayloads(a[..|a| - 1], b[..|b| - 1])
    requires Unsigned(a[|a| - 1]) == Unsigned(b[|b| - 1])
    ensures SamePayloads(a, b)
  {
    forall i | 0 <= i < |a| - 1 ensures Unsigned(a[i]) == Unsigned(b[i]) {
      assert a[i] == a[..|a| - 1][i] && b[i] == b[..|b| - 1][i];
    }
  }

  lemma ChainedLast(p: Platform, es: seq<Event>)
    requires Chained(p, es) && es != []
    ensures HashMatches(p, es[|es| - 1]) && Head(es) == es[|es| - 1][EventHash] && Head(es) != Null
    ensures Get(es[|es| - 1], PreviousEventHash) == Head(es[..|es| - 1])
    ensures Chained(p, es[..|es| - 1])
  {
    ChainedPrefix(p, es, |es| - 1);
  }

  /** The head commits to the whole file: two hash-chained files with the same
      head hold the same payloads. */
  lemma {:induction false} HeadDeterminesPayloads(p: Platform, a: seq<Event>, b: seq<Event>)
    requires InjectiveDigest(p)
    requires Chained(p, a) && Chained(p, b)
    requires Head(a) == Head(b)
    ensures SamePayloads(a, b)
    decreases |a|
  {
    if a != [] {
      ChainedLast(p, a);
    }
    if b != [] {
      ChainedLast(p, b);
    }
    if a != [] {
      DigestsEqual(p, a[|a| - 1], b[|b| - 1]);
      UnsignedAgree(a[|a| - 1], b[|b| - 1], PreviousEventHash);
      HeadDeterminesPayloads(p, a[..|a| - 1], b[..|b| - 1]);
      SamePayloadsExtend(a, b);
    }
  }
}
