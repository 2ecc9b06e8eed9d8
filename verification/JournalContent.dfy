/** What a journal file says: its events, its tail and its length. */
module JournalContent {
  import opened Evidence
  import opened Verification

  // ---- What a file says ------------------------------------------------

  /** The events of a file; the idempotency scans skip every other line. */
  function AllEvents(lines: seq<Line>): seq<Event> { Events(lines, |lines|) }

  /** Reading the tail: the head hash, a refusal, or an error no caller expects. */
  datatype Tail = Hash(head: Json) | CorruptTail | Crash

  function TailOf(lines: seq<Line>): Tail {
    if lines == [] then Hash(Null)
    else
      match lines[|lines| - 1]
      case Blank => TailOf(lines[..|lines| - 1])
      case NotJson => CorruptTail
      case NotObject => Crash
      case Object(e) => if EventHash in e && IsText(e[EventHash]) then Hash(e[EventHash]) else CorruptTail
  }

  /** The tail is read off the last line that is not blank, and off no other. */
  lemma {:induction false} TailMeans(lines: seq<Line>, i: nat)
    requires i < |lines| && !lines[i].Blank? && forall j :: i < j < |lines| ==> lines[j].Blank?
    ensures lines[i].NotJson? ==> TailOf(lines).CorruptTail?
    ensures lines[i].NotObject? ==> TailOf(lines).Crash?
    ensures lines[i].Object? ==>
      TailOf(lines) == if IsText(Get(lines[i].event, EventHash)) then Hash(Get(lines[i].event, EventHash)) else CorruptTail
  {
    if i < |lines| - 1 {
      TailMeans(lines[..|lines| - 1], i);
    }
  }

  /** Hash-chained content: nothing but chained events and blank lines. */
  ghost predicate Intact(p: Platform, lines: seq<Line>) {
    (forall i :: 0 <= i < |lines| ==> IsObject(lines[i])) && Chained(p, AllEvents(lines))
  }

  lemma {:induction false} IntactTail(p: Platform, lines: seq<Line>)
    requires Intact(p, lines)
    ensures TailOf(lines) == Hash(Head(AllEvents(lines)))
  {
    if lines != [] {
      var before := lines[..|lines| - 1];
      EventsPrefix(lines, |lines| - 1);
      if lines[|lines| - 1].Blank? {
        assert AllEvents(before) == AllEvents(lines);
        IntactTail(p, before);
      } else {
        ChainedLast(p, AllEvents(lines));
      }
    }
  }

  lemma {:induction false} EventsPrefix(lines: seq<Line>, n: nat)
    requires n <= |lines|
    ensures AllEvents(lines[..n]) == Events(lines, n)
    decreases n
  {
    if n > 0 {
      EventsPrefix(lines, n - 1);
      assert lines[..n][..n - 1] == lines[..n - 1];
      EventsPrefix(lines[..n], n - 1);
    }
  }

  lemma EventsAppend(lines: seq<Line>, e: Event)
    ensures AllEvents(lines + [Object(e)]) == AllEvents(lines) + [e]
  {
    var all := lines + [Object(e)];
    EventsPrefix(all, |lines|);
    assert all[..|lines|] == lines;
  }

  /** An event sealed on top of `previous`. */
  predicate Sealed(p: Platform, e: Event, previous: Json) {
    HashMatches(p, e) && PreviousEventHash in e && e[PreviousEventHash] == previous
  }

  lemma IntactAppend(p: Platform, lines: seq<Line>, e: Event)
    requires Intact(p, lines) && TailOf(lines).Hash? && Sealed(p, e, TailOf(lines).head)
    ensures Intact(p, lines + [Object(e)])
  {
    IntactTail(p, lines);
    EventsAppend(lines, e);
    ChainedAppend(p, AllEvents(lines), e);
  }

  // ---- Counting --------------------------------------------------------

  function NonBlank(lines: seq<Line>): nat {
    if lines == [] then 0
    else NonBlank(lines[..|lines| - 1]) + if lines[|lines| - 1].Blank? then 0 else 1
  }

  method CountLines(lines: seq<Line>) returns (count: nat)
    ensures count == NonBlank(lines)
  {
    count := 0;
    for i := 0 to |lines|
      invariant count == NonBlank(lines[..i])
    {
      assert lines[..i + 1][..i] == lines[..i];
      if !lines[i].Blank? {
        count := count + 1;
      }
    }
    assert lines[..|lines|] == lines;
  }

  lemma {:induction false} IntactCount(p: Platform, lines: seq<Line>)
    requires forall i :: 0 <= i < |lines| ==> IsObject(lines[i])
    ensures NonBlank(lines) == |AllEvents(lines)|
  {
    if lines != [] {
      IntactCount(p, lines[..|lines| - 1]);
      EventsPrefix(lines, |lines| - 1);
    }
  }
}
