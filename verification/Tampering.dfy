/** Editing one line of a good journal is reported on that line or the next, and
    breaks the chain nowhere else. */
module Tampering {
  import opened Evidence
  import opened Verification
  import opened Acceptance

  /** A file with one event on every line. */
  function Lines(es: seq<Event>): (lines: seq<Line>)
    ensures |lines| == |es| && forall i :: 0 <= i < |es| ==> lines[i] == Object(es[i])
  {
    seq(|es|, i requires 0 <= i < |es| => Object(es[i]))
  }

  /** The verdict names the line that event `i` stands on. */
  predicate Reports(r: Result, i: nat, code: Code) { Issue(i + 1, code) in r.issues }

  lemma {:induction false} LinesRead(es: seq<Event>, n: nat)
    requires n <= |es|
    ensures Events(Lines(es), n) == es[..n]
    ensures forall i :: 0 <= i < n ==> Numbers(Lines(es), n)[i] == i + 1
  {
    if n > 0 {
      LinesRead(es, n - 1);
      assert es[..n] == es[..n - 1] + [es[n - 1]];
    }
  }

  lemma {:induction false} EventIssueMeans(p: Platform, trusted: Keyring, es: seq<Event>, ns: seq<nat>, k: nat, i: nat, code: Code)
    requires i < |es| == |ns| && k <= |es| && forall j :: 0 <= j < |ns| ==> ns[j] == j + 1
    ensures Issue(i + 1, code) in EventIssues(p, trusted, es, ns, k) <==> i < k && code in CodesAt(p, trusted, es, i)
  {
    hide CodesAt;
    if k > 0 {
      EventIssueMeans(p, trusted, es, ns, k - 1, i, code);
      var codes := CodesAt(p, trusted, es, k - 1);
      var last := OnLine(ns[k - 1], codes);
      assert Issue(i + 1, code) in last <==> i == k - 1 && code in codes by {
        if i == k - 1 && code in codes {
          var j :| 0 <= j < |codes| && codes[j] == code;
          assert last[j] == Issue(i + 1, code);
        }
      }
    }
  }

  /** What a verdict says about a line is what is wrong with the event standing there. */
  lemma ReportMeans(p: Platform, trusted: Keyring, es: seq<Event>, i: nat, code: Code)
    requires i < |es|
    ensures Reports(Verify(p, trusted, Lines(es), NoWitness), i, code) <==> code in CodesAt(p, trusted, es, i)
  {
    hide CodesAt, Coverage, FoundBefore, NewestBefore, EventIssues;
    var lines := Lines(es);
    ReadableWhile(lines, |lines|);
    LinesRead(es, |es|);
    EventIssueMeans(p, trusted, es, Numbers(lines, |lines|), |es|, i, code);
    assert es[..|es|] == es;
    var issue := Issue(i + 1, code);
    var before, middle := OnLine(0, []), EventIssues(p, trusted, es, Numbers(lines, |lines|), |es|);
    var after := OnLine(0, Coverage(NewestBefore(es, |es|), None, FoundBefore(p, es, None, |es|), |es|));
    assert issue !in before && issue !in after;
    assert IssuesOf(p, trusted, lines, NoWitness) == before + middle + [] + after;
  }

  lemma ChainBreakMeans(p: Platform, trusted: Keyring, e: Event, expected: Json, checkpoints: Checkpoints)
    ensures ChainBreak in VerifyEvent(p, trusted, e, expected, checkpoints) <==>
      && Get(e, SchemaVersion) == W(VERSION_1) && KnownKind(KindOf(e)) && Required(KindOf(e)) <= e.Keys
      && !PyEq(Get(e, PreviousEventHash), expected)
  {
    if Get(e, SchemaVersion) == W(VERSION_1) && KnownKind(KindOf(e)) && Required(KindOf(e)) <= e.Keys {
      assert CHAINED <= Required(KindOf(e));
      ShapeNeverBreaksChain(e, checkpoints);
      IntegrityChainBreak(p, trusted, e, expected);
      hide Shape, Integrity;
    }
  }

  lemma ShapeNeverBreaksChain(e: Event, checkpoints: Checkpoints)
    requires KnownKind(KindOf(e))
    ensures ChainBreak !in Shape(e, checkpoints)
  {
    hide KeyIdText, HexText, BareText, CountAtLeast, PyEq;
  }

  lemma IntegrityChainBreak(p: Platform, trusted: Keyring, e: Event, expected: Json)
    requires CHAINED <= e.Keys
    ensures ChainBreak in Integrity(p, trusted, e, expected) <==> !PyEq(Get(e, PreviousEventHash), expected)
  {
    hide PyEq;
    assert PreviousEventHash in e;
  }

  /** Changing the payload of event `k` while keeping its stored hash: the line is
      reported, and no other line reports a broken chain. */
  lemma EditIsReportedInPlace(p: Platform, trusted: Keyring, es: seq<Event>, k: nat, e: Event)
    requires InjectiveDigest(p)
    requires Verify(p, trusted, Lines(es), NoWitness).valid && k < |es|
    requires Unsigned(e) != Unsigned(es[k]) && Get(e, EventHash) == Get(es[k], EventHash)
    ensures var after := Verify(p, trusted, Lines(es[k := e]), NoWitness);
      && !after.valid
      && (exists code :: Reports(after, k, code))
      && forall i :: 0 <= i < |es| && i != k ==> !Reports(after, i, ChainBreak)
  {
    hide Verify, VerifyEvent, AllClean;
    var edited := es[k := e];
    ValidMeans(p, trusted, Lines(es), NoWitness);
    ReadAll(es);
    EditedEventFails(p, trusted, es, edited, k);
    var code := CodesAt(p, trusted, edited, k)[0];
    ReportMeans(p, trusted, edited, k, code);
    assert Reports(Verify(p, trusted, Lines(edited), NoWitness), k, code);
    ReportsMeanInvalid(p, trusted, Lines(edited), k, code);
    forall i | 0 <= i < |es| && i != k
      ensures !Reports(Verify(p, trusted, Lines(edited), NoWitness), i, ChainBreak)
    {
      ReportMeans(p, trusted, edited, i, ChainBreak);
      NeighboursKeepChain(p, trusted, es, edited, k, i);
    }
  }

  lemma ReportsMeanInvalid(p: Platform, trusted: Keyring, lines: seq<Line>, i: nat, code: Code)
    requires Reports(Verify(p, trusted, lines, NoWitness), i, code)
    ensures !Verify(p, trusted, lines, NoWitness).valid
  {
    hide IssuesOf, CleanEvents;
  }

  lemma ReadAll(es: seq<Event>)
    ensures Read(Lines(es)) == es
  {
    ReadableWhile(Lines(es), |es|);
    LinesRead(es, |es|);
  }

  lemma EditedEventFails(p: Platform, trusted: Keyring, es: seq<Event>, edited: seq<Event>, k: nat)
    requires InjectiveDigest(p) && AllClean(p, trusted, es) && k < |es| == |edited|
    requires Unsigned(edited[k]) != Unsigned(es[k]) && Get(edited[k], EventHash) == Get(es[k], EventHash)
    ensures CodesAt(p, trusted, edited, k) != []
  {
    hide VerifyEvent;
    assert CodesAt(p, trusted, es, k) == [];
    CleanEventFacts(p, trusted, es[k], Expected(es, k), CheckpointsBefore(es, k));
    if CodesAt(p, trusted, edited, k) == [] {
      CleanEventFacts(p, trusted, edited[k], Expected(edited, k), CheckpointsBefore(edited, k));
      DigestsEqual(p, edited[k], es[k]);
    }
  }

  lemma NeighboursKeepChain(p: Platform, trusted: Keyring, es: seq<Event>, edited: seq<Event>, k: nat, i: nat)
    requires AllClean(p, trusted, es) && k < |es| == |edited| && i < |es| && i != k
    requires forall j :: 0 <= j < |es| && j != k ==> edited[j] == es[j]
    requires Get(edited[k], EventHash) == Get(es[k], EventHash)
    ensures ChainBreak !in CodesAt(p, trusted, edited, i)
  {
    hide VerifyEvent;
    assert CodesAt(p, trusted, es, i) == [];
    CleanEventFacts(p, trusted, es[i], Expected(es, i), CheckpointsBefore(es, i));
    assert Expected(edited, i) == Expected(es, i);
    ChainBreakMeans(p, trusted, es[i], Expected(es, i), CheckpointsBefore(es, i));
    ChainBreakMeans(p, trusted, edited[i], Expected(edited, i), CheckpointsBefore(edited, i));
  }

  /** If the hash is recomputed as well, the next line reports the broken chain. */
  lemma ResealedEditBreaksNextLink(p: Platform, trusted: Keyring, es: seq<Event>, k: nat, e: Event)
    requires InjectiveDigest(p)
    requires Verify(p, trusted, Lines(es), NoWitness).valid && k + 1 < |es|
    requires Unsigned(e) != Unsigned(es[k]) && HashMatches(p, e)
    ensures var after := Verify(p, trusted, Lines(es[k := e]), NoWitness);
      && Reports(after, k + 1, ChainBreak)
      && forall i :: 0 <= i < |es| && Reports(after, i, ChainBreak) ==> i == k || i == k + 1
  {
    hide Verify, VerifyEvent, AllClean;
    var edited := es[k := e];
    ValidMeans(p, trusted, Lines(es), NoWitness);
    ReadAll(es);
    ReportMeans(p, trusted, edited, k + 1, ChainBreak);
    NextLinkBreaks(p, trusted, es, edited, k);
    forall i | 0 <= i < |es| && i != k && i != k + 1
      ensures !Reports(Verify(p, trusted, Lines(edited), NoWitness), i, ChainBreak)
    {
      ReportMeans(p, trusted, edited, i, ChainBreak);
      OthersKeepChain(p, trusted, es, edited, k, i);
    }
  }

  lemma OthersKeepChain(p: Platform, trusted: Keyring, es: seq<Event>, edited: seq<Event>, k: nat, i: nat)
    requires AllClean(p, trusted, es) && k < |es| == |edited| && i < |es| && i != k && i != k + 1
    requires forall j :: 0 <= j < |es| && j != k ==> edited[j] == es[j]
    ensures ChainBreak !in CodesAt(p, trusted, edited, i)
  {
    hide VerifyEvent;
    assert CodesAt(p, trusted, es, i) == [];
    CleanEventFacts(p, trusted, es[i], Expected(es, i), CheckpointsBefore(es, i));
    ChainBreakMeans(p, trusted, es[i], Expected(es, i), CheckpointsBefore(es, i));
    ChainBreakMeans(p, trusted, edited[i], Expected(edited, i), CheckpointsBefore(edited, i));
  }

  lemma NextLinkBreaks(p: Platform, trusted: Keyring, es: seq<Event>, edited: seq<Event>, k: nat)
    requires InjectiveDigest(p) && AllClean(p, trusted, es) && k + 1 < |es| == |edited|
    requires edited[k + 1] == es[k + 1]
    requires Unsigned(edited[k]) != Unsigned(es[k]) && HashMatches(p, edited[k])
    ensures ChainBreak in CodesAt(p, trusted, edited, k + 1)
  {
    hide VerifyEvent;
    assert CodesAt(p, trusted, es, k) == [] && CodesAt(p, trusted, es, k + 1) == [];
    CleanEventFacts(p, trusted, es[k], Expected(es, k), CheckpointsBefore(es, k));
    CleanEventFacts(p, trusted, es[k + 1], Expected(es, k + 1), CheckpointsBefore(es, k + 1));
    RequiredIfClean(p, trusted, es[k + 1], Expected(es, k + 1), CheckpointsBefore(es, k + 1));
    ChainBreakMeans(p, trusted, edited[k + 1], Expected(edited, k + 1), CheckpointsBefore(edited, k + 1));
    DigestsDiffer(p, edited[k], es[k]);
  }
}
