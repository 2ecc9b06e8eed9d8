/** Any history of appends and rotations leaves a chain that the verifier accepts. */
module ArchiveHistory {
  import opened Evidence
  import opened Writer
  import opened Verification
  import opened Acceptance
  import opened JournalContent
  import opened ArchiveChain
  import opened ArchiveCustody

  // ---- The chain a directory holds -------------------------------------

  predicate AllObjects(lines: seq<Line>) {
    forall i :: 0 <= i < |lines| ==> IsObject(lines[i])
  }

  /** The file holds exactly this journal. */
  ghost predicate Keeps(p: Platform, trusted: Keyring, fs: Directory, name: Text, journal: seq<Event>) {
    && name in fs && fs[name].File? && AllObjects(fs[name].lines)
    && AllEvents(fs[name].lines) == journal && Produced(p, trusted, journal)
  }

  predicate LinksTo(e: Event, name: Text, prior: seq<Event>) {
    && KindOf(e) == W(ARCHIVE) && BareText(name) && Get(e, ArchivedPath) == Str(name)
    && Get(e, PriorCount) == Num(|prior|) && Get(e, PriorHead) == Head(prior)
  }

  /** `journals` are kept under `names`, oldest first, each linked to the one before. */
  ghost predicate Custody(p: Platform, trusted: Keyring, fs: Directory, names: seq<Text>, journals: seq<seq<Event>>) {
    && |names| == |journals| >= 1
    && Distinct(names) && AllKept(p, trusted, fs, names, journals)
    && (journals[0] == [] || KindOf(journals[0][0]) != W(ARCHIVE))
    && AllLinked(names, journals)
  }

  predicate Distinct(names: seq<Text>) {
    forall i, j :: 0 <= i < j < |names| ==> names[i] != names[j]
  }

  ghost predicate AllKept(p: Platform, trusted: Keyring, fs: Directory, names: seq<Text>, journals: seq<seq<Event>>)
    requires |names| == |journals|
  {
    forall i :: 0 <= i < |names| ==> Keeps(p, trusted, fs, names[i], journals[i])
  }

  predicate AllLinked(names: seq<Text>, journals: seq<seq<Event>>)
    requires |names| == |journals|
  {
    forall i :: 1 <= i < |names| ==> LinkedAt(names, journals, i)
  }

  predicate LinkedAt(names: seq<Text>, journals: seq<seq<Event>>, i: nat)
    requires 1 <= i < |names| == |journals|
  {
    journals[i] != [] && LinksTo(journals[i][0], names[i - 1], journals[i - 1])
  }

  /** The files of a chain, newest first. */
  function NewestFirst(names: seq<Text>): (newest: seq<Text>)
    ensures |newest| == |names| && forall i :: 0 <= i < |names| ==> newest[i] == names[|names| - 1 - i]
  {
    if names == [] then [] else [names[|names| - 1]] + NewestFirst(names[..|names| - 1])
  }

  // ---- The walk over a chain -------------------------------------------

  lemma KeptVerifies(p: Platform, trusted: Keyring, fs: Directory, name: Text, journal: seq<Event>)
    requires ShowsTexts(p) && Keeps(p, trusted, fs, name, journal)
    ensures Verifies(p, trusted, fs[name]) && Intact(p, fs[name].lines)
    ensures FirstEvent(fs[name].lines) == if journal == [] then None else Some(journal[0])
    ensures NonBlank(fs[name].lines) == |journal| && LastHash(fs[name].lines) == Head(journal)
  {
    hide Verify, Produced, Chained;
    var lines := fs[name].lines;
    ProducedIsChained(p, trusted, journal);
    assert Intact(p, lines);
    ReadsAll(lines);
    ReadableWhile(lines, |lines|);
    ProducedVerifies(p, trusted, journal, lines);
    FirstIsFirst(lines);
    IntactCount(p, lines);
    LastHashIsHead(p, lines);
  }

  /** What the walk does at each file of a chain. */
  lemma HopInChain(p: Platform, trusted: Keyring, fs: Directory, names: seq<Text>, journals: seq<seq<Event>>, i: nat, deepest: bool)
    requires ShowsTexts(p) && Custody(p, trusted, fs, names, journals) && i < |names|
    ensures names[i] in fs
    ensures HopFrom(p, trusted, fs, names[i], deepest) ==
            if i == 0 then Stop(None)
            else if deepest then Stop(Some(ChainIssue(names[i], ArchiveTooDeep)))
            else Follow(names[i - 1])
  {
    hide Verifies, Keeps, Intact, FirstEvent, NonBlank, LastHash, BareText;
    assert Keeps(p, trusted, fs, names[i], journals[i]);
    KeptVerifies(p, trusted, fs, names[i], journals[i]);
    KeptIsFile(p, trusted, fs, names[i], journals[i]);
    if i > 0 {
      assert LinkedAt(names, journals, i);
      assert Keeps(p, trusted, fs, names[i - 1], journals[i - 1]);
      KeptVerifies(p, trusted, fs, names[i - 1], journals[i - 1]);
      KeptIsFile(p, trusted, fs, names[i - 1], journals[i - 1]);
    }
  }

  lemma KeptIsFile(p: Platform, trusted: Keyring, fs: Directory, name: Text, journal: seq<Event>)
    requires Keeps(p, trusted, fs, name, journal)
    ensures name in fs && fs[name].File?
  {
  }

  /** The walk accepts exactly when it may follow every link, and then checks every file. */
  lemma {:induction false} WalkOverChain(p: Platform, trusted: Keyring, fs: Directory, names: seq<Text>, journals: seq<seq<Event>>,
                                         i: nat, seen: set<Text>, links: nat, maxLinks: nat)
    requires ShowsTexts(p) && Custody(p, trusted, fs, names, journals) && i < |names|
    requires forall j :: 0 <= j <= i ==> names[j] !in seen
    ensures var report := Walk(p, trusted, fs, names[i], seen, links, maxLinks);
      && (report.valid <==> i == 0 || links + i <= maxLinks)
      && (report.valid ==> report.checked == NewestFirst(names[..i + 1]))
    decreases i
  {
    hide HopFrom, Custody;
    HopInChain(p, trusted, fs, names, journals, i, links >= maxLinks);
    assert names[..i + 1][..i] == names[..i];
    if i > 0 && links < maxLinks {
      ChainNamesDiffer(p, trusted, fs, names, journals, i);
      WalkOverChain(p, trusted, fs, names, journals, i - 1, seen + {names[i]}, links + 1, maxLinks);
    }
  }

  lemma ChainNamesDiffer(p: Platform, trusted: Keyring, fs: Directory, names: seq<Text>, journals: seq<seq<Event>>, i: nat)
    requires Custody(p, trusted, fs, names, journals) && i < |names|
    ensures forall j :: 0 <= j < i ==> names[j] != names[i]
  {
  }

  // ---- The history -----------------------------------------------------

  /** A command appends to the live file, or the live file is rotated. */
  datatype Move = Appends(e: Event, entry: Writer.Entry) | Rotates(name: string, e: Event, entry: Writer.Entry)

  function LinesIn(fs: Directory, name: Text): seq<Line> {
    if name in fs && fs[name].File? then fs[name].lines else []
  }

  predicate Moves(p: Platform, trusted: Keyring, live: Text, fs: Directory, move: Move, fs': Directory) {
    var lines := LinesIn(fs, live);
    match move
    case Appends(e, entry) =>
      && (live in fs ==> fs[live].File?)
      && WrittenAs(p, trusted, AllEvents(lines), e, entry) && !entry.body.ArchiveBody?
      && fs' == fs[live := File(lines + [Object(e)])]
    case Rotates(name, e, entry) =>
      && live in fs && fs[live].File? && Other(name) !in fs && TailOf(lines).Hash?
      && entry.body == ArchiveBody(NonBlank(lines), TailOf(lines).head, name)
      && WrittenAs(p, trusted, [], e, entry)
      && fs' == fs[Other(name) := fs[live]][live := File([Object(e)])]
  }

  /** The archived names after some moves, oldest first. */
  function Archived(moves: seq<Move>): seq<Text> {
    if moves == [] then []
    else Archived(moves[..|moves| - 1]) + match moves[|moves| - 1] case Rotates(name, _, _) => [Other(name)] case Appends(_, _) => []
  }

  ghost predicate History(p: Platform, trusted: Keyring, live: Text, states: seq<Directory>, moves: seq<Move>) {
    && |states| == |moves| + 1 && live !in states[0]
    && forall i :: 0 <= i < |moves| ==> Moves(p, trusted, live, states[i], moves[i], states[i + 1])
  }

  ghost predicate InCustody(p: Platform, trusted: Keyring, fs: Directory, names: seq<Text>) {
    exists journals :: Custody(p, trusted, fs, names, journals)
  }

  lemma AppendStaysProduced(p: Platform, trusted: Keyring, lines: seq<Line>, e: Event, entry: Writer.Entry)
    requires AllObjects(lines) && Produced(p, trusted, AllEvents(lines)) && WrittenAs(p, trusted, AllEvents(lines), e, entry)
    ensures AllObjects(lines + [Object(e)]) && AllEvents(lines + [Object(e)]) == AllEvents(lines) + [e]
    ensures Produced(p, trusted, AllEvents(lines) + [e])
    ensures KindOf(e) == W(KindWord(entry.body))
  {
    EventsAppend(lines, e);
    WrittenFacts(p, trusted, AllEvents(lines), e, entry);
    hide WrittenAs;
    ProducedAppend(p, trusted, AllEvents(lines), e);
  }

  /** The first append starts a chain of one file. */
  lemma FirstAppend(p: Platform, trusted: Keyring, live: Text, fs: Directory, move: Move, fs': Directory)
    requires live !in fs && Moves(p, trusted, live, fs, move, fs')
    ensures Custody(p, trusted, fs', [live], [[move.e]]) && move.Appends?
  {
    hide WrittenAs;
    assert AllEvents([]) == [];
    assert Produced(p, trusted, []);
    AppendStaysProduced(p, trusted, [], move.e, move.entry);
    assert [] + [Object(move.e)] == [Object(move.e)] && [] + [move.e] == [move.e];
  }

  lemma KeptElsewhere(p: Platform, trusted: Keyring, fs: Directory, fs': Directory, name: Text, journal: seq<Event>)
    requires Keeps(p, trusted, fs, name, journal) && name in fs' && fs'[name] == fs[name]
    ensures Keeps(p, trusted, fs', name, journal)
  {
  }

  /** What an append does to the live file, and to no other. */
  lemma AppendEffect(p: Platform, trusted: Keyring, live: Text, fs: Directory, move: Move, fs': Directory, journal: seq<Event>)
    requires Keeps(p, trusted, fs, live, journal) && Moves(p, trusted, live, fs, move, fs') && move.Appends?
    ensures Keeps(p, trusted, fs', live, journal + [move.e]) && KindOf(move.e) != W(ARCHIVE)
    ensures forall name :: name in fs && name != live ==> name in fs' && fs'[name] == fs[name]
  {
    AppendStaysProduced(p, trusted, fs[live].lines, move.e, move.entry);
    hide WrittenAs, Produced;
  }

  lemma KeptElsewhereAll(p: Platform, trusted: Keyring, fs: Directory, fs': Directory, names: seq<Text>, journals: seq<seq<Event>>)
    requires |names| == |journals| && AllKept(p, trusted, fs, names, journals)
    requires forall i :: 0 <= i < |names| && names[i] in fs ==> names[i] in fs' && fs'[names[i]] == fs[names[i]]
    ensures AllKept(p, trusted, fs', names, journals)
  {
    hide Keeps;
    forall i | 0 <= i < |names| ensures Keeps(p, trusted, fs', names[i], journals[i]) {
      KeptIsFile(p, trusted, fs, names[i], journals[i]);
      KeptElsewhere(p, trusted, fs, fs', names[i], journals[i]);
    }
  }

  lemma LinksExtend(names: seq<Text>, journals: seq<seq<Event>>, e: Event)
    requires |names| == |journals| >= 1 && AllLinked(names, journals)
    ensures AllLinked(names, journals[|names| - 1 := journals[|names| - 1] + [e]])
  {
    hide LinksTo;
    var after := journals[|names| - 1 := journals[|names| - 1] + [e]];
    forall i | 1 <= i < |names| ensures LinkedAt(names, after, i) {
      assert LinkedAt(names, journals, i);
    }
  }

  /** Extending the newest journal of a chain keeps it a chain. */
  lemma ExtendNewest(p: Platform, trusted: Keyring, fs: Directory, fs': Directory, names: seq<Text>, journals: seq<seq<Event>>, e: Event)
    requires Custody(p, trusted, fs, names, journals) && KindOf(e) != W(ARCHIVE)
    requires Keeps(p, trusted, fs', names[|names| - 1], journals[|names| - 1] + [e])
    requires forall name :: name in fs && name != names[|names| - 1] ==> name in fs' && fs'[name] == fs[name]
    ensures Custody(p, trusted, fs', names, journals[|names| - 1 := journals[|names| - 1] + [e]])
  {
    var last := |names| - 1;
    LinksExtend(names, journals, e);
    assert AllKept(p, trusted, fs, names[..last], journals[..last]);
    KeptElsewhereAll(p, trusted, fs, fs', names[..last], journals[..last]);
    hide Keeps, AllLinked, KindOf;
    KeptJoin(p, trusted, fs', names, journals[last := journals[last] + [e]]);
  }

  lemma KeptJoin(p: Platform, trusted: Keyring, fs: Directory, names: seq<Text>, journals: seq<seq<Event>>)
    requires |names| == |journals| >= 1
    requires AllKept(p, trusted, fs, names[..|names| - 1], journals[..|names| - 1])
    requires Keeps(p, trusted, fs, names[|names| - 1], journals[|names| - 1])
    ensures AllKept(p, trusted, fs, names, journals)
  {
    hide Keeps;
    forall i | 0 <= i < |names| ensures Keeps(p, trusted, fs, names[i], journals[i]) {
      if i < |names| - 1 {
        assert Keeps(p, trusted, fs, names[..|names| - 1][i], journals[..|names| - 1][i]);
      }
    }
  }

  lemma AppendKeepsCustody(p: Platform, trusted: Keyring, live: Text, fs: Directory, move: Move, fs': Directory,
                           names: seq<Text>, journals: seq<seq<Event>>)
    requires Custody(p, trusted, fs, names, journals) && names[|names| - 1] == live
    requires Moves(p, trusted, live, fs, move, fs') && move.Appends?
    ensures Custody(p, trusted, fs', names, journals[|names| - 1 := journals[|names| - 1] + [move.e]])
  {
    hide Keeps, LinksTo, Moves, KindOf;
    assert Keeps(p, trusted, fs, live, journals[|names| - 1]);
    AppendEffect(p, trusted, live, fs, move, fs', journals[|names| - 1]);
    hide Custody;
    ExtendNewest(p, trusted, fs, fs', names, journals, move.e);
  }

  /** The archive event says what its command committed to. */
  lemma ArchiveEventLinks(p: Platform, trusted: Keyring, e: Event, entry: Writer.Entry, prior: seq<Event>, name: string)
    requires WrittenAs(p, trusted, [], e, entry) && entry.body == ArchiveBody(|prior|, Head(prior), name)
    ensures LinksTo(e, Other(name), prior)
    ensures Produced(p, trusted, [e])
  {
    hide Payload, Produced, Get, Unsigned, BodyFields, WrittenAs, HashMatches, Written;
    WrittenFacts(p, trusted, [], e, entry);
    WrittenArchive(p, trusted, e, entry);
    ReadsBody(entry.body, entry.stamp, [], e, ArchivedPath);
    ReadsBody(entry.body, entry.stamp, [], e, PriorCount);
    ReadsBody(entry.body, entry.stamp, [], e, PriorHead);
    ArchiveFieldsRead(|prior|, Head(prior), name, entry.stamp);
    assert Produced(p, trusted, []) by { NothingProduced(p, trusted); }
    ProducedAppend(p, trusted, [], e);
    assert [] + [e] == [e];
  }

  lemma WrittenArchive(p: Platform, trusted: Keyring, e: Event, entry: Writer.Entry)
    requires WrittenAs(p, trusted, [], e, entry) && entry.body.ArchiveBody?
    ensures Written(p, trusted, [], e) && BareName(entry.body.archivedName)
  {
    hide Payload, Finalize, Fresh, BareName;
  }

  lemma ArchiveFieldsRead(count: nat, head: Json, name: string, stamp: Stamp)
    ensures var fields := BodyFields(ArchiveBody(count, head, name), stamp, []);
      && Get(fields, ArchivedPath) == Str(Other(name)) && Get(fields, PriorCount) == Num(count) && Get(fields, PriorHead) == head
  {
  }

  lemma NothingProduced(p: Platform, trusted: Keyring)
    ensures Produced(p, trusted, [])
  {
  }

  /** What a rotation does: the old content moves to a new name, and the live file
      starts with a link to it. */
  lemma RotateEffect(p: Platform, trusted: Keyring, live: Text, fs: Directory, move: Move, fs': Directory, journal: seq<Event>)
    requires ShowsTexts(p) && Keeps(p, trusted, fs, live, journal)
    requires Moves(p, trusted, live, fs, move, fs') && move.Rotates?
    ensures Other(move.name) !in fs && Other(move.name) != live
    ensures Keeps(p, trusted, fs', Other(move.name), journal) && Keeps(p, trusted, fs', live, [move.e])
    ensures LinksTo(move.e, Other(move.name), journal)
    ensures forall name :: name in fs && name != live ==> name in fs' && fs'[name] == fs[name]
  {
    hide WrittenAs, Produced, Verifies, AllEvents, AllObjects, Chained, LinksTo, NonBlank, TailOf;
    KeptVerifies(p, trusted, fs, live, journal);
    IntactTail(p, fs[live].lines);
    ArchiveEventLinks(p, trusted, move.e, move.entry, journal, move.name);
    NewLiveKept(p, trusted, fs', live, move.e);
  }

  lemma LinksGrow(names: seq<Text>, journals: seq<seq<Event>>, archived: Text, e: Event)
    requires |names| == |journals| >= 1 && AllLinked(names, journals)
    requires LinksTo(e, archived, journals[|names| - 1])
    ensures AllLinked(names[..|names| - 1] + [archived, names[|names| - 1]], journals + [[e]])
  {
    hide LinksTo;
    var last := |names| - 1;
    var after, more := names[..last] + [archived, names[last]], journals + [[e]];
    forall i | 1 <= i < |after| ensures LinkedAt(after, more, i) {
      if i <= last {
        assert LinkedAt(names, journals, i);
      }
    }
  }

  lemma KeptGrow(p: Platform, trusted: Keyring, fs: Directory, fs': Directory, names: seq<Text>, journals: seq<seq<Event>>,
                 archived: Text, e: Event)
    requires |names| == |journals| >= 1 && Distinct(names) && AllKept(p, trusted, fs, names, journals)
    requires Keeps(p, trusted, fs', archived, journals[|names| - 1]) && Keeps(p, trusted, fs', names[|names| - 1], [e])
    requires forall name :: name in fs && name != names[|names| - 1] ==> name in fs' && fs'[name] == fs[name]
    ensures AllKept(p, trusted, fs', names[..|names| - 1] + [archived, names[|names| - 1]], journals + [[e]])
  {
    hide Keeps;
    var last := |names| - 1;
    var after, more := names[..last] + [archived, names[last]], journals + [[e]];
    assert AllKept(p, trusted, fs, names[..last], journals[..last]);
    KeptElsewhereAll(p, trusted, fs, fs', names[..last], journals[..last]);
    assert after[..last] == names[..last] && more[..last] == journals[..last];
    assert after[..last + 1][..last] == after[..last] && more[..last + 1][..last] == more[..last];
    KeptJoin(p, trusted, fs', after[..last + 1], more[..last + 1]);
    KeptJoin(p, trusted, fs', after, more);
  }

  /** A rotated chain is a chain one file longer. */
  lemma ExtendChain(p: Platform, trusted: Keyring, fs: Directory, fs': Directory, names: seq<Text>, journals: seq<seq<Event>>,
                    archived: Text, e: Event)
    requires Custody(p, trusted, fs, names, journals) && archived !in fs
    requires Keeps(p, trusted, fs', archived, journals[|names| - 1]) && Keeps(p, trusted, fs', names[|names| - 1], [e])
    requires LinksTo(e, archived, journals[|names| - 1])
    requires forall name :: name in fs && name != names[|names| - 1] ==> name in fs' && fs'[name] == fs[name]
    ensures Custody(p, trusted, fs', names[..|names| - 1] + [archived, names[|names| - 1]], journals + [[e]])
  {
    hide Keeps, LinksTo, KindOf, AllKept, AllLinked;
    ChainIsFiles(p, trusted, fs, names, journals);
    KeptGrow(p, trusted, fs, fs', names, journals, archived, e);
    LinksGrow(names, journals, archived, e);
    RotatedNamesDiffer(fs, names, archived);
  }

  lemma ChainIsFiles(p: Platform, trusted: Keyring, fs: Directory, names: seq<Text>, journals: seq<seq<Event>>)
    requires Custody(p, trusted, fs, names, journals)
    ensures forall i :: 0 <= i < |names| ==> names[i] in fs
  {
    hide LinkedAt;
    forall i | 0 <= i < |names| ensures names[i] in fs {
      assert Keeps(p, trusted, fs, names[i], journals[i]);
    }
  }

  lemma RotateKeepsCustody(p: Platform, trusted: Keyring, live: Text, fs: Directory, move: Move, fs': Directory,
                           names: seq<Text>, journals: seq<seq<Event>>)
    requires ShowsTexts(p) && Custody(p, trusted, fs, names, journals) && names[|names| - 1] == live
    requires Moves(p, trusted, live, fs, move, fs') && move.Rotates?
    ensures Custody(p, trusted, fs', names[..|names| - 1] + [Other(move.name), live], journals + [[move.e]])
  {
    hide Keeps, LinksTo, Moves, KindOf;
    assert Keeps(p, trusted, fs, live, journals[|names| - 1]);
    RotateEffect(p, trusted, live, fs, move, fs', journals[|names| - 1]);
    hide Custody;
    ExtendChain(p, trusted, fs, fs', names, journals, Other(move.name), move.e);
  }

  lemma NewLiveKept(p: Platform, trusted: Keyring, fs: Directory, live: Text, e: Event)
    requires live in fs && fs[live] == File([Object(e)]) && Produced(p, trusted, [e])
    ensures Keeps(p, trusted, fs, live, [e])
  {
    EventsAppend([], e);
    assert [] + [Object(e)] == [Object(e)] && AllEvents([]) + [e] == [e];
  }

  lemma RotatedNamesDiffer(fs: Directory, names: seq<Text>, archived: Text)
    requires |names| >= 1 && archived !in fs
    requires Distinct(names) && forall i :: 0 <= i < |names| ==> names[i] in fs
    ensures Distinct(names[..|names| - 1] + [archived, names[|names| - 1]])
  {
  }

  /** After any history with at least one move the directory holds the whole chain. */
  lemma {:induction false} HistoryKeepsCustody(p: Platform, trusted: Keyring, live: Text, states: seq<Directory>, moves: seq<Move>, n: nat)
    requires ShowsTexts(p) && History(p, trusted, live, states, moves) && 1 <= n < |states|
    ensures InCustody(p, trusted, states[n], Archived(moves[..n]) + [live])
  {
    hide Moves, Custody;
    var before, move := moves[..n - 1], moves[n - 1];
    assert moves[..n][..n - 1] == before;
    assert Moves(p, trusted, live, states[n - 1], move, states[n - 1 + 1]);
    if n == 1 {
      FirstAppend(p, trusted, live, states[0], move, states[1]);
      assert Archived(before) == [] && Archived(moves[..n]) == [];
      assert [] + [live] == [live];
    } else {
      HistoryKeepsCustody(p, trusted, live, states, moves, n - 1);
      var names := Archived(before) + [live];
      var journals :| Custody(p, trusted, states[n - 1], names, journals);
      CustodyLength(p, trusted, states[n - 1], names, journals);
      if move.Appends? {
        AppendKeepsCustody(p, trusted, live, states[n - 1], move, states[n], names, journals);
        assert Archived(moves[..n]) == Archived(before);
      } else {
        RotateKeepsCustody(p, trusted, live, states[n - 1], move, states[n], names, journals);
        assert names[..|names| - 1] + [Other(move.name), live] == Archived(moves[..n]) + [live];
      }
    }
  }

  lemma CustodyLength(p: Platform, trusted: Keyring, fs: Directory, names: seq<Text>, journals: seq<seq<Event>>)
    requires Custody(p, trusted, fs, names, journals)
    ensures |names| == |journals|
  {
  }

  /** Any history is accepted exactly when it made no more rotations than the walk may
      follow; an accepted walk has checked every file of the history. */
  lemma HistoryIsAccepted(p: Platform, trusted: Keyring, live: Text, states: seq<Directory>, moves: seq<Move>, n: nat, maxLinks: nat)
    requires ShowsTexts(p) && History(p, trusted, live, states, moves) && 1 <= n < |states|
    ensures var report := Walk(p, trusted, states[n], live, {}, 0, maxLinks);
      && (report.valid <==> |Archived(moves[..n])| <= maxLinks)
      && (report.valid ==> report.checked == [live] + NewestFirst(Archived(moves[..n])))
  {
    hide Custody, Walk;
    HistoryKeepsCustody(p, trusted, live, states, moves, n);
    var archived := Archived(moves[..n]);
    var names := archived + [live];
    var journals :| Custody(p, trusted, states[n], names, journals);
    WalkOverChain(p, trusted, states[n], names, journals, |archived|, {}, 0, maxLinks);
    assert names[..|archived| + 1] == names && names[..|archived|] == archived;
  }

  // ---- Pruned archives -------------------------------------------------

  lemma HopAfterPruning(p: Platform, trusted: Keyring, fs: Directory, names: seq<Text>, journals: seq<seq<Event>>, i: nat, deepest: bool,
                        pruned: set<Text>)
    requires ShowsTexts(p) && Custody(p, trusted, fs, names, journals) && i < |names| && names[i] !in pruned
    ensures names[i] in fs - pruned
    ensures var hop := HopFrom(p, trusted, fs - pruned, names[i], deepest);
      if i > 0 && !deepest && names[i - 1] in pruned then hop == Stop(Some(ChainIssue(names[i - 1], ArchiveMissing)))
      else hop == HopFrom(p, trusted, fs, names[i], deepest)
  {
    hide Verifies, Keeps, Intact, FirstEvent, NonBlank, LastHash, BareText;
    HopInChain(p, trusted, fs, names, journals, i, deepest);
    assert Keeps(p, trusted, fs, names[i], journals[i]);
    KeptVerifies(p, trusted, fs, names[i], journals[i]);
    if i > 0 {
      assert LinkedAt(names, journals, i);
    }
  }

  /** With some archives deleted the walk accepts exactly when none of them belongs to
      the chain and every link may be followed. */
  lemma {:induction false} WalkAfterPruning(p: Platform, trusted: Keyring, fs: Directory, names: seq<Text>, journals: seq<seq<Event>>,
                                            i: nat, seen: set<Text>, links: nat, maxLinks: nat, pruned: set<Text>)
    requires ShowsTexts(p) && Custody(p, trusted, fs, names, journals) && i < |names| && names[i] !in pruned
    requires forall j :: 0 <= j <= i ==> names[j] !in seen
    ensures Walk(p, trusted, fs - pruned, names[i], seen, links, maxLinks).valid <==>
      i == 0 || (links + i <= maxLinks && forall j :: 0 <= j < i ==> names[j] !in pruned)
    decreases i
  {
    hide HopFrom, Custody;
    HopAfterPruning(p, trusted, fs, names, journals, i, links >= maxLinks, pruned);
    HopInChain(p, trusted, fs, names, journals, i, links >= maxLinks);
    if i > 0 && links < maxLinks && names[i - 1] !in pruned {
      ChainNamesDiffer(p, trusted, fs, names, journals, i);
      WalkAfterPruning(p, trusted, fs, names, journals, i - 1, seen + {names[i]}, links + 1, maxLinks, pruned);
    }
  }

  /** A history some of whose files were deleted afterwards is accepted exactly when no
      archive of it was, and it is not too long. */
  lemma PrunedHistoryIsAccepted(p: Platform, trusted: Keyring, live: Text, states: seq<Directory>, moves: seq<Move>, n: nat, maxLinks: nat,
                                pruned: set<Text>)
    requires ShowsTexts(p) && History(p, trusted, live, states, moves) && 1 <= n < |states| && live !in pruned
    ensures Walk(p, trusted, states[n] - pruned, live, {}, 0, maxLinks).valid
      <==> |Archived(moves[..n])| <= maxLinks && forall name :: name in Archived(moves[..n]) ==> name !in pruned
  {
    hide Custody, Walk;
    HistoryKeepsCustody(p, trusted, live, states, moves, n);
    var archived := Archived(moves[..n]);
    var names := archived + [live];
    var journals :| Custody(p, trusted, states[n], names, journals);
    WalkAfterPruning(p, trusted, states[n], names, journals, |archived|, {}, 0, maxLinks, pruned);
    assert forall j :: 0 <= j < |archived| ==> names[j] == archived[j];
  }
}
