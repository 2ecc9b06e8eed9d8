/** Two accepted chains with the same live head hold the same evidence. */
module ArchiveCustody {
  import opened Evidence
  import opened Verification
  import opened Acceptance
  import opened JournalContent
  import opened ArchiveChain

  // ---- A verified file -------------------------------------------------

  lemma {:induction false} ReadsAll(lines: seq<Line>)
    requires forall i :: 0 <= i < |lines| ==> IsObject(lines[i])
    ensures Read(lines) == AllEvents(lines)
  {
    ReadableWhile(lines, |lines|);
  }

  /** A verified file is hash-chained content. */
  lemma VerifiedIsIntact(p: Platform, trusted: Keyring, lines: seq<Line>)
    requires Verify(p, trusted, lines, NoWitness).valid
    ensures Intact(p, lines)
  {
    hide Verify, VerifyEvent, HashMatches;
    ValidMeans(p, trusted, lines, NoWitness);
    ReadsAll(lines);
    var es := AllEvents(lines);
    forall k | 0 <= k < |es|
      ensures HashMatches(p, es[k]) && PreviousEventHash in es[k]
      ensures es[k][PreviousEventHash] == Head(es[..k])
    {
      assert CodesAt(p, trusted, es, k) == [];
      CleanEventFacts(p, trusted, es[k], Expected(es, k), CheckpointsBefore(es, k));
      PreviousIsHead(es, k);
    }
  }

  lemma PreviousIsHead(es: seq<Event>, k: nat)
    requires k <= |es|
    ensures Expected(es, k) == Head(es[..k])
    ensures forall j :: PyEq(j, Expected(es, k)) ==> j == Expected(es, k)
  {
  }

  lemma {:induction false} IntactPrefix(p: Platform, lines: seq<Line>)
    requires Intact(p, lines) && lines != []
    ensures Intact(p, lines[..|lines| - 1])
    ensures AllEvents(lines) == AllEvents(lines[..|lines| - 1])
                                + if lines[|lines| - 1].Object? then [lines[|lines| - 1].event] else []
  {
    EventsPrefix(lines, |lines| - 1);
    var before := lines[..|lines| - 1];
    ChainedPrefix(p, AllEvents(lines), |AllEvents(before)|);
    assert AllEvents(lines)[..|AllEvents(before)|] == AllEvents(before);
  }

  lemma {:induction false} LastHashIsHead(p: Platform, lines: seq<Line>)
    requires Intact(p, lines)
    ensures LastHash(lines) == Head(AllEvents(lines))
  {
    hide Intact;
    if lines != [] {
      IntactPrefix(p, lines);
      if lines[|lines| - 1].Object? {
        LastIsHashed(p, lines);
      } else {
        LastHashIsHead(p, lines[..|lines| - 1]);
        IntactObjects(p, lines);
      }
    }
  }

  lemma IntactObjects(p: Platform, lines: seq<Line>)
    requires Intact(p, lines)
    ensures forall i :: 0 <= i < |lines| ==> IsObject(lines[i])
  {
  }

  lemma LastIsHashed(p: Platform, lines: seq<Line>)
    requires Intact(p, lines) && lines != [] && lines[|lines| - 1].Object?
    ensures IsText(Get(lines[|lines| - 1].event, EventHash)) && AllEvents(lines) != []
    ensures Head(AllEvents(lines)) == Get(lines[|lines| - 1].event, EventHash)
  {
    ChainedLast(p, AllEvents(lines));
  }

  lemma {:induction false} FirstIsFirst(lines: seq<Line>)
    requires forall i :: 0 <= i < |lines| ==> IsObject(lines[i])
    ensures FirstEvent(lines) == if AllEvents(lines) == [] then None else Some(AllEvents(lines)[0])
  {
    if lines != [] {
      EventsFromFront(lines);
      FirstIsFirst(lines[1..]);
    }
  }

  lemma {:induction false} EventsFromFront(lines: seq<Line>)
    requires lines != []
    ensures AllEvents(lines) == (if lines[0].Object? then [lines[0].event] else []) + AllEvents(lines[1..])
  {
    var n := |lines|;
    if n > 1 {
      EventsFromFront(lines[..n - 1]);
      EventsPrefix(lines, n - 1);
      EventsPrefix(lines[1..], n - 2);
      assert lines[..n - 1][1..] == lines[1..][..n - 2];
    }
  }

  // ---- Two chains ------------------------------------------------------

  function EventsIn(fs: Directory, name: Text): seq<Event> {
    if name in fs && fs[name].File? then AllEvents(fs[name].lines) else []
  }

  lemma SameFirst(a: seq<Event>, b: seq<Event>)
    requires SamePayloads(a, b)
    ensures (a == []) == (b == [])
    ensures a != [] ==>
      KindOf(a[0]) == KindOf(b[0]) && Get(a[0], ArchivedPath) == Get(b[0], ArchivedPath) && Get(a[0], PriorHead) == Get(b[0], PriorHead)
  {
    if a != [] {
      UnsignedAgree(a[0], b[0], EventType);
      UnsignedAgree(a[0], b[0], ArchivedPath);
      UnsignedAgree(a[0], b[0], PriorHead);
    }
  }

  /** What one accepted step of the walk establishes. */
  lemma AcceptedHop(p: Platform, trusted: Keyring, fs: Directory, current: Text, deepest: bool)
    requires current in fs
    requires HopFrom(p, trusted, fs, current, deepest).Stop? ==> HopFrom(p, trusted, fs, current, deepest).issue.None?
    ensures fs[current].File? && Intact(p, fs[current].lines)
    ensures var es := EventsIn(fs, current);
      match HopFrom(p, trusted, fs, current, deepest)
      case Stop(_) => es == [] || KindOf(es[0]) != W(ARCHIVE)
      case Follow(name) =>
        && es != [] && KindOf(es[0]) == W(ARCHIVE) && Get(es[0], ArchivedPath) == Str(name)
        && name in fs && fs[name].File? && LastHash(fs[name].lines) == Get(es[0], PriorHead)
  {
    hide Verify;
    VerifiedIsIntact(p, trusted, fs[current].lines);
    FirstIsFirst(fs[current].lines);
  }

  lemma ValidWalk(p: Platform, trusted: Keyring, fs: Directory, current: Text, seen: set<Text>, links: nat, maxLinks: nat)
    requires Walk(p, trusted, fs, current, seen, links, maxLinks).valid
    ensures current !in seen && current in fs
    ensures var hop, report := HopFrom(p, trusted, fs, current, links >= maxLinks), Walk(p, trusted, fs, current, seen, links, maxLinks);
      && (hop.Stop? ==> hop.issue.None? && report.checked == [current])
      && (hop.Follow? ==>
            && Walk(p, trusted, fs, hop.predecessor, seen + {current}, links + 1, maxLinks).valid
            && report.checked == [current] + Walk(p, trusted, fs, hop.predecessor, seen + {current}, links + 1, maxLinks).checked)
  {
    hide HopFrom;
  }

  /** The files two walks checked, compared position by position. */
  ghost predicate SameEvidence(fs: Directory, gs: Directory, a: seq<Text>, b: seq<Text>) {
    && |a| == |b|
    && (forall i :: 0 <= i < |a| ==> SamePayloads(EventsIn(fs, a[i]), EventsIn(gs, b[i])))
    && forall i :: 1 <= i < |a| ==> a[i] == b[i]
  }

  lemma SameEvidenceCons(fs: Directory, gs: Directory, x: Text, y: Text, a: seq<Text>, b: seq<Text>)
    requires SamePayloads(EventsIn(fs, x), EventsIn(gs, y)) && SameEvidence(fs, gs, a, b)
    requires a != [] && b != [] && a[0] == b[0]
    ensures SameEvidence(fs, gs, [x] + a, [y] + b)
  {
    hide SamePayloads, EventsIn;
  }

  /** Two accepted chains whose live files end in the same event hold the same payloads
      in every file, under the same names. */
  lemma {:induction false} HeadFixesTheWholeChain(
      p: Platform, trusted: Keyring, fs: Directory, gs: Directory, a: Text, b: Text,
      seenA: set<Text>, seenB: set<Text>, linksA: nat, linksB: nat, maxA: nat, maxB: nat)
    requires InjectiveDigest(p)
    requires Walk(p, trusted, fs, a, seenA, linksA, maxA).valid && Walk(p, trusted, gs, b, seenB, linksB, maxB).valid
    requires Head(EventsIn(fs, a)) == Head(EventsIn(gs, b))
    ensures SameEvidence(fs, gs, Walk(p, trusted, fs, a, seenA, linksA, maxA).checked, Walk(p, trusted, gs, b, seenB, linksB, maxB).checked)
    decreases fs.Keys - seenA
  {
    hide Walk, HopFrom, SamePayloads, SameEvidence, Intact;
    ValidWalk(p, trusted, fs, a, seenA, linksA, maxA);
    ValidWalk(p, trusted, gs, b, seenB, linksB, maxB);
    AcceptedHop(p, trusted, fs, a, linksA >= maxA);
    AcceptedHop(p, trusted, gs, b, linksB >= maxB);
    HeadsMatch(p, fs, gs, a, b);
    SameFirst(EventsIn(fs, a), EventsIn(gs, b));
    var hopA, hopB := HopFrom(p, trusted, fs, a, linksA >= maxA), HopFrom(p, trusted, gs, b, linksB >= maxB);
    if hopA.Follow? && hopB.Follow? {
      var c := hopA.predecessor;
      assert hopB.predecessor == c;
      NextHeads(p, trusted, fs, gs, c, seenA + {a}, seenB + {b}, linksA + 1, linksB + 1, maxA, maxB);
      HeadFixesTheWholeChain(p, trusted, fs, gs, c, c, seenA + {a}, seenB + {b}, linksA + 1, linksB + 1, maxA, maxB);
      StartsAt(p, trusted, fs, c, seenA + {a}, linksA + 1, maxA);
      StartsAt(p, trusted, gs, c, seenB + {b}, linksB + 1, maxB);
      SameEvidenceCons(fs, gs, a, b, Walk(p, trusted, fs, c, seenA + {a}, linksA + 1, maxA).checked,
                       Walk(p, trusted, gs, c, seenB + {b}, linksB + 1, maxB).checked);
    } else {
      assert hopA.Stop? && hopB.Stop?;
      LoneEvidence(fs, gs, a, b);
    }
  }

  lemma LoneEvidence(fs: Directory, gs: Directory, a: Text, b: Text)
    requires SamePayloads(EventsIn(fs, a), EventsIn(gs, b))
    ensures SameEvidence(fs, gs, [a], [b])
  {
    hide SamePayloads;
  }

  lemma StartsAt(p: Platform, trusted: Keyring, fs: Directory, current: Text, seen: set<Text>, links: nat, maxLinks: nat)
    requires Walk(p, trusted, fs, current, seen, links, maxLinks).valid
    ensures var checked := Walk(p, trusted, fs, current, seen, links, maxLinks).checked;
      checked != [] && checked[0] == current
  {
    hide HopFrom;
  }

  lemma HeadsMatch(p: Platform, fs: Directory, gs: Directory, a: Text, b: Text)
    requires InjectiveDigest(p) && a in fs && b in gs && fs[a].File? && gs[b].File?
    requires Intact(p, fs[a].lines) && Intact(p, gs[b].lines)
    requires Head(EventsIn(fs, a)) == Head(EventsIn(gs, b))
    ensures SamePayloads(EventsIn(fs, a), EventsIn(gs, b))
  {
    HeadDeterminesPayloads(p, EventsIn(fs, a), EventsIn(gs, b));
  }

  /** A link commits to the head of what it links to. */
  lemma NextHeads(p: Platform, trusted: Keyring, fs: Directory, gs: Directory, c: Text,
                  seenA: set<Text>, seenB: set<Text>, linksA: nat, linksB: nat, maxA: nat, maxB: nat)
    requires Walk(p, trusted, fs, c, seenA, linksA, maxA).valid && Walk(p, trusted, gs, c, seenB, linksB, maxB).valid
    requires c in fs && c in gs && fs[c].File? && gs[c].File? && LastHash(fs[c].lines) == LastHash(gs[c].lines)
    ensures Head(EventsIn(fs, c)) == Head(EventsIn(gs, c))
  {
    hide HopFrom, Intact, LastHash;
    ValidWalk(p, trusted, fs, c, seenA, linksA, maxA);
    ValidWalk(p, trusted, gs, c, seenB, linksB, maxB);
    AcceptedHop(p, trusted, fs, c, linksA >= maxA);
    AcceptedHop(p, trusted, gs, c, linksB >= maxB);
    LastHashIsHead(p, fs[c].lines);
    LastHashIsHead(p, gs[c].lines);
  }
}
