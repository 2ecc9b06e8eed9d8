/** Custody across rotations: walking the links from the live file back to the first. */
module ArchiveChain {
  import opened Evidence
  import opened Verification
  import opened Acceptance
  import opened JournalContent

  /** One directory. An unreadable entry exists but cannot be opened. */
  datatype Entry = File(lines: seq<Line>) | Unreadable
  type Directory = map<Text, Entry>

  datatype ChainCode =
    | ArchiveCycle | ArchiveMissing | ArchiveInvalid | ArchiveUnreadable
    | ArchiveTooDeep | ArchiveBadLink | ArchiveCountMismatch | ArchiveHeadMismatch

  datatype ChainIssue = ChainIssue(file: Text, code: ChainCode)

  datatype ChainReport = ChainReport(valid: bool, checked: seq<Text>, issues: seq<ChainIssue>)

  const MAX_LINKS: nat := 1024

  // ---- One file --------------------------------------------------------

  predicate Verifies(p: Platform, trusted: Keyring, entry: Entry) {
    entry.File? && Verify(p, trusted, entry.lines, NoWitness).valid
  }

  /** The first line that is not blank, if it is an object. */
  function FirstEvent(lines: seq<Line>): Option<Event> {
    if lines == [] then None
    else if lines[0].Blank? then FirstEvent(lines[1..])
    else if lines[0].Object? then Some(lines[0].event)
    else None
  }

  predicate IsLink(first: Option<Event>) {
    first.Some? && KindOf(first.value) == W(ARCHIVE)
  }

  /** The last string `event_hash` of any line. */
  function LastHash(lines: seq<Line>): Json {
    if lines == [] then Null
    else
      var last := lines[|lines| - 1];
      if last.Object? && IsText(Get(last.event, EventHash)) then Get(last.event, EventHash)
      else LastHash(lines[..|lines| - 1])
  }

  // ---- One step back ---------------------------------------------------

  /** Where the walk goes from `current`: it stops, with or without an issue, or
      follows the link. */
  datatype Hop = Stop(issue: Option<ChainIssue>) | Follow(predecessor: Text)

  function CheckLink(fs: Directory, current: Text, link: Event): Hop {
    var name := Get(link, ArchivedPath);
    if !IsText(name) || !BareText(name.t) then Stop(Some(ChainIssue(current, ArchiveBadLink)))
    else if name.t !in fs then Stop(Some(ChainIssue(name.t, ArchiveMissing)))
    else if fs[name.t].Unreadable? then Stop(Some(ChainIssue(name.t, ArchiveUnreadable)))
    else
      var prior, count := fs[name.t].lines, Get(link, PriorCount);
      if !IsInt(count) || NonBlank(prior) != IntValue(count) then Stop(Some(ChainIssue(current, ArchiveCountMismatch)))
      else if LastHash(prior) != Get(link, PriorHead) then Stop(Some(ChainIssue(current, ArchiveHeadMismatch)))
      else Follow(name.t)
  }

  function HopFrom(p: Platform, trusted: Keyring, fs: Directory, current: Text, deepest: bool): Hop
    requires current in fs
  {
    if !Verifies(p, trusted, fs[current]) then Stop(Some(ChainIssue(current, ArchiveInvalid)))
    else
      var first := FirstEvent(fs[current].lines);
      if !IsLink(first) then Stop(None)
      else if deepest then Stop(Some(ChainIssue(current, ArchiveTooDeep)))
      else CheckLink(fs, current, first.value)
  }

  function IssueList(issue: Option<ChainIssue>): seq<ChainIssue> {
    if issue.Some? then [issue.value] else []
  }

  /** The walk from `current`, having seen some files and followed some links. */
  function Walk(p: Platform, trusted: Keyring, fs: Directory, current: Text, seen: set<Text>, links: nat, maxLinks: nat): ChainReport
    decreases fs.Keys - seen
  {
    if current in seen then ChainReport(false, [], [ChainIssue(current, ArchiveCycle)])
    else if current !in fs then ChainReport(false, [], [ChainIssue(current, ArchiveMissing)])
    else
      match HopFrom(p, trusted, fs, current, links >= maxLinks)
      case Stop(issue) => ChainReport(issue.None?, [current], IssueList(issue))
      case Follow(predecessor) =>
        var rest := Walk(p, trusted, fs, predecessor, seen + {current}, links + 1, maxLinks);
        rest.(checked := [current] + rest.checked)
  }

  /** Verifies the live journal and every archived predecessor it links to. */
  method VerifyArchiveChain(p: Platform, trusted: Keyring, fs: Directory, live: Text, maxLinks: nat := MAX_LINKS)
    returns (report: ChainReport)
    ensures report == Walk(p, trusted, fs, live, {}, 0, maxLinks)
  {
    hide Verify, CheckLink;
    var checked: seq<Text>, issues: seq<ChainIssue> := [], [];
    var seen: set<Text>, current, links := {}, live, 0;
    ghost var whole := Walk(p, trusted, fs, live, {}, 0, maxLinks);
    while true
      invariant issues == []
      invariant whole == (var rest := Walk(p, trusted, fs, current, seen, links, maxLinks); rest.(checked := checked + rest.checked))
      decreases fs.Keys - seen
    {
      if current in seen {
        issues := issues + [ChainIssue(current, ArchiveCycle)];
        break;
      }
      if current !in fs {
        issues := issues + [ChainIssue(current, ArchiveMissing)];
        break;
      }
      ghost var here, before := current, seen;
      seen := seen + {current};
      checked := checked + [current];
      var valid := false;
      if fs[current].File? {
        var result, _ := ReadAndVerify(p, trusted, fs[current].lines, NoWitness, Nothing);
        valid := result.valid;
      }
      if !valid {
        issues := issues + [ChainIssue(current, ArchiveInvalid)];
        break;
      }
      var first := FirstEvent(fs[current].lines);
      if !IsLink(first) {
        break;
      }
      if links >= maxLinks {
        issues := issues + [ChainIssue(current, ArchiveTooDeep)];
        break;
      }
      var hop := FollowLink(fs, current, first.value);
      if hop.Stop? {
        issues := issues + IssueList(hop.issue);
        break;
      }
      current := hop.predecessor;
      links := links + 1;
    }
    report := ChainReport(issues == [], checked, issues);
  }

  /** Compares the predecessor's actual (count, head) with the commitment. */
  method FollowLink(fs: Directory, current: Text, link: Event) returns (hop: Hop)
    ensures hop == CheckLink(fs, current, link)
  {
    var name := Get(link, ArchivedPath);
    if !IsText(name) || !BareText(name.t) {
      return Stop(Some(ChainIssue(current, ArchiveBadLink)));
    }
    if name.t !in fs {
      return Stop(Some(ChainIssue(name.t, ArchiveMissing)));
    }
    if fs[name.t].Unreadable? {
      return Stop(Some(ChainIssue(name.t, ArchiveUnreadable)));
    }
    var prior := fs[name.t].lines;
    var count := 0;
    var head := Null;
    for i := 0 to |prior|
      invariant count == NonBlank(prior[..i]) && head == LastHash(prior[..i])
    {
      assert prior[..i + 1][..i] == prior[..i];
      if !prior[i].Blank? {
        count := count + 1;
        if prior[i].Object? && IsText(Get(prior[i].event, EventHash)) {
          head := Get(prior[i].event, EventHash);
        }
      }
    }
    assert prior[..|prior|] == prior;
    if !IsInt(Get(link, PriorCount)) || count != IntValue(Get(link, PriorCount)) {
      return Stop(Some(ChainIssue(current, ArchiveCountMismatch)));
    }
    if head != Get(link, PriorHead) {
      return Stop(Some(ChainIssue(current, ArchiveHeadMismatch)));
    }
    hop := Follow(name.t);
  }
}
