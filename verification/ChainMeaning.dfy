/** What a report on a chain of archives says, told from the lines of the files alone. */
module ChainMeaning {
  import opened Evidence
  import opened Verification
  import opened Acceptance
  import opened JournalContent
  import opened ArchiveChain
  import opened VerdictMeaning

  // ---- What the lines say ----------------------------------------------

  /** `e` stands on the first line that is not blank. */
  predicate StartsWith(lines: seq<Line>, e: Event) {
    exists i :: 0 <= i < |lines| && StartsAt(lines, i, e)
  }

  predicate StartsAt(lines: seq<Line>, i: nat, e: Event)
    requires i < |lines|
  {
    lines[i] == Object(e) && AllBlank(lines[..i])
  }

  predicate AllBlank(lines: seq<Line>) {
    forall i :: 0 <= i < |lines| ==> lines[i].Blank?
  }

  /** The archive event that a file starts with. */
  predicate IsLinkOf(fs: Directory, file: Text, e: Event) {
    file in fs && fs[file].File? && StartsWith(fs[file].lines, e) && Is(e, ARCHIVE)
  }

  ghost predicate HasLink(fs: Directory, file: Text) {
    exists e :: IsLinkOf(fs, file, e)
  }

  function Used(lines: seq<Line>): set<nat> {
    set i | 0 <= i < |lines| && !lines[i].Blank?
  }

  predicate Hashed(line: Line) { line.Object? && IsText(Get(line.event, EventHash)) }

  /** The hash of the last line that has one; null when none does. */
  predicate EndsOn(lines: seq<Line>, hash: Json) {
    || (hash == Null && forall i :: 0 <= i < |lines| ==> !Hashed(lines[i]))
    || exists i :: 0 <= i < |lines| && HashedLast(lines, i) && Get(lines[i].event, EventHash) == hash
  }

  predicate HashedLast(lines: seq<Line>, i: nat)
    requires i < |lines|
  {
    Hashed(lines[i]) && forall j :: i < j < |lines| ==> !Hashed(lines[j])
  }

  /** The link names this file by a bare name. */
  predicate Names(e: Event, file: Text) {
    BareFileName(Get(e, ArchivedPath)) && Get(e, ArchivedPath) == Str(file)
  }

  predicate CountFits(e: Event, lines: seq<Line>) {
    IsInt(Get(e, PriorCount)) && IntValue(Get(e, PriorCount)) == |Used(lines)|
  }

  predicate HeadFits(e: Event, lines: seq<Line>) { EndsOn(lines, Get(e, PriorHead)) }

  /** The link commits to what the file it names now holds. */
  predicate Commits(fs: Directory, e: Event, file: Text) {
    Names(e, file) && file in fs && fs[file].File? && CountFits(e, fs[file].lines) && HeadFits(e, fs[file].lines)
  }

  ghost predicate Follows(p: Platform, trusted: Keyring, fs: Directory, successor: Text, file: Text) {
    successor in fs && Verifies(p, trusted, fs[successor]) && exists e :: IsLinkOf(fs, successor, e) && Commits(fs, e, file)
  }

  /** Why the walk stops at `last`, a file in the directory: `deep` when no more links may be
      followed, `seen` the files that it has been to. */
  ghost predicate StopsWith(p: Platform, trusted: Keyring, fs: Directory, last: Text, deep: bool, seen: set<Text>, issue: ChainIssue)
    requires last in fs
  {
    var verifies := Verifies(p, trusted, fs[last]);
    match issue.code
    case ArchiveInvalid => issue.file == last && !verifies
    case ArchiveTooDeep => issue.file == last && verifies && HasLink(fs, last) && deep
    case ArchiveBadLink =>
      issue.file == last && verifies && !deep && exists e :: IsLinkOf(fs, last, e) && !BareFileName(Get(e, ArchivedPath))
    case ArchiveMissing =>
      verifies && !deep && issue.file !in fs && exists e :: IsLinkOf(fs, last, e) && Names(e, issue.file)
    case ArchiveUnreadable =>
      && verifies && !deep && issue.file in fs && fs[issue.file].Unreadable?
      && exists e :: IsLinkOf(fs, last, e) && Names(e, issue.file)
    case ArchiveCountMismatch =>
      && issue.file == last && verifies && !deep
      && exists e, prior :: IsLinkOf(fs, last, e) && Names(e, prior) && prior in fs && fs[prior].File? && !CountFits(e, fs[prior].lines)
    case ArchiveHeadMismatch =>
      && issue.file == last && verifies && !deep
      && exists e, prior ::
           && IsLinkOf(fs, last, e) && Names(e, prior) && prior in fs && fs[prior].File?
           && CountFits(e, fs[prior].lines) && !HeadFits(e, fs[prior].lines)
    case ArchiveCycle => verifies && !deep && Follows(p, trusted, fs, last, issue.file) && issue.file in seen
  }

  // ---- The computed facts mean that ------------------------------------

  lemma StartsLater(lines: seq<Line>, e: Event)
    requires lines != [] && lines[0].Blank?
    ensures StartsWith(lines, e) <==> StartsWith(lines[1..], e)
  {
    if StartsWith(lines[1..], e) {
      var i :| 0 <= i < |lines[1..]| && StartsAt(lines[1..], i, e);
      assert lines[..i + 1] == [lines[0]] + lines[1..][..i];
      assert StartsAt(lines, i + 1, e);
    }
    if StartsWith(lines, e) {
      var i :| 0 <= i < |lines| && StartsAt(lines, i, e);
      var shorter := lines[1..][..i - 1];
      assert lines[..i] == [lines[0]] + shorter;
      forall k | 0 <= k < |shorter| ensures shorter[k].Blank? {
        assert lines[..i][k + 1].Blank?;
      }
      assert StartsAt(lines[1..], i - 1, e);
    }
  }

  lemma {:induction false} FirstEventMeans(lines: seq<Line>, e: Event)
    ensures FirstEvent(lines) == Some(e) <==> StartsWith(lines, e)
  {
    if lines != [] && lines[0].Blank? {
      FirstEventMeans(lines[1..], e);
      StartsLater(lines, e);
      hide StartsWith;
    } else if lines != [] {
      assert forall i :: 0 < i < |lines| ==> lines[..i][0] == lines[0];
      assert lines[..0] == [];
      if lines[0] == Object(e) {
        assert StartsAt(lines, 0, e);
      }
    }
  }

  lemma UsedGrows(lines: seq<Line>)
    requires lines != []
    ensures var n := |lines| - 1;
      Used(lines) == Used(lines[..n]) + (if lines[n].Blank? then {} else {n}) && n !in Used(lines[..n])
  {
  }

  lemma {:induction false} NonBlankMeans(lines: seq<Line>)
    ensures NonBlank(lines) == |Used(lines)|
  {
    if lines == [] {
      assert Used(lines) == {};
    } else {
      var n := |lines| - 1;
      NonBlankMeans(lines[..n]);
      hide NonBlank;
      UsedGrows(lines);
    }
  }

  lemma {:induction false} LastHashMeans(lines: seq<Line>, hash: Json)
    ensures LastHash(lines) == hash <==> EndsOn(lines, hash)
  {
    if lines != [] {
      var n := |lines| - 1;
      LastHashMeans(lines[..n], hash);
      if Hashed(lines[n]) {
        HashEndsHere(lines, hash);
      } else {
        HashEndsBefore(lines, hash);
        hide EndsOn;
      }
    }
  }

  lemma HashEndsHere(lines: seq<Line>, hash: Json)
    requires lines != [] && Hashed(lines[|lines| - 1])
    ensures EndsOn(lines, hash) <==> Get(lines[|lines| - 1].event, EventHash) == hash
  {
    hide Get;
    assert HashedLast(lines, |lines| - 1);
  }

  lemma HashEndsBefore(lines: seq<Line>, hash: Json)
    requires lines != [] && !Hashed(lines[|lines| - 1])
    ensures EndsOn(lines, hash) <==> EndsOn(lines[..|lines| - 1], hash)
  {
    hide Hashed, Get;
    var before := lines[..|lines| - 1];
    forall i | 0 <= i < |before| ensures HashedLast(lines, i) <==> HashedLast(before, i) {
    }
  }

  lemma LinkMeans(fs: Directory, file: Text)
    requires file in fs && fs[file].File?
    ensures var first := FirstEvent(fs[file].lines);
      && (IsLink(first) <==> HasLink(fs, file))
      && forall e :: IsLinkOf(fs, file, e) <==> IsLink(first) && first.value == e
  {
    hide StartsWith, FirstEvent;
    var first := FirstEvent(fs[file].lines);
    forall e ensures IsLinkOf(fs, file, e) <==> IsLink(first) && first.value == e {
      FirstEventMeans(fs[file].lines, e);
    }
    if IsLink(first) {
      assert IsLinkOf(fs, file, first.value);
    }
  }

  lemma CommitMeans(e: Event, lines: seq<Line>)
    ensures CountFits(e, lines) <==> IsInt(Get(e, PriorCount)) && NonBlank(lines) == IntValue(Get(e, PriorCount))
    ensures HeadFits(e, lines) <==> LastHash(lines) == Get(e, PriorHead)
  {
    hide NonBlank, Used, LastHash, EndsOn;
    NonBlankMeans(lines);
    LastHashMeans(lines, Get(e, PriorHead));
  }

  // ---- One step of the walk --------------------------------------------

  lemma CheckMeans(fs: Directory, current: Text, link: Event)
    ensures CheckLink(fs, current, link) != Stop(None)
    ensures var hop := CheckLink(fs, current, link);
      && (forall file :: hop == Follow(file) <==> Commits(fs, link, file))
      && forall issue :: hop == Stop(Some(issue)) <==>
           match issue.code
           case ArchiveBadLink => issue.file == current && !BareFileName(Get(link, ArchivedPath))
           case ArchiveMissing => issue.file !in fs && Names(link, issue.file)
           case ArchiveUnreadable => issue.file in fs && fs[issue.file].Unreadable? && Names(link, issue.file)
           case ArchiveCountMismatch =>
             issue.file == current && exists prior ::
               Names(link, prior) && prior in fs && fs[prior].File? && !CountFits(link, fs[prior].lines)
           case ArchiveHeadMismatch =>
             issue.file == current && exists prior ::
               && Names(link, prior) && prior in fs && fs[prior].File?
               && CountFits(link, fs[prior].lines) && !HeadFits(link, fs[prior].lines)
           case _ => false
  {
    hide CountFits, HeadFits, BareFileName, BareText, NonBlank, LastHash, StartsWith;
    var name := Get(link, ArchivedPath);
    NamesMean(name);
    if IsText(name) {
      forall file ensures Names(link, file) <==> BareText(name.t) && file == name.t {
      }
      if name.t in fs && fs[name.t].File? {
        CommitMeans(link, fs[name.t].lines);
      }
    }
  }

  lemma HopMeans(p: Platform, trusted: Keyring, fs: Directory, current: Text, deepest: bool, seen: set<Text>)
    requires current in fs
    ensures var hop := HopFrom(p, trusted, fs, current, deepest);
      && (hop == Stop(None) <==> Verifies(p, trusted, fs[current]) && !HasLink(fs, current))
      && (forall file :: hop == Follow(file) <==> !deepest && Follows(p, trusted, fs, current, file))
      && forall issue :: StopsWith(p, trusted, fs, current, deepest, seen, issue) <==>
           hop == Stop(Some(issue)) || (issue.code.ArchiveCycle? && hop == Follow(issue.file) && issue.file in seen)
  {
    hide Verify, FirstEvent, CheckLink, IsLinkOf, Commits, Names, CountFits, HeadFits, BareFileName, IsLink;
    if Verifies(p, trusted, fs[current]) {
      var first := FirstEvent(fs[current].lines);
      LinkMeans(fs, current);
      LinkIsSome(first);
      if IsLink(first) {
        assert IsLinkOf(fs, current, first.value);
        CheckMeans(fs, current, first.value);
      }
    }
  }

  lemma LinkIsSome(first: Option<Event>)
    ensures IsLink(first) ==> first.Some?
  {
  }

  // ---- The walk --------------------------------------------------------

  function Visited(checked: seq<Text>): set<Text> { set name | name in checked }

  /** The files checked: each verifies and commits to the next, and no file comes twice. */
  ghost predicate Trail(p: Platform, trusted: Keyring, fs: Directory, checked: seq<Text>) {
    && (forall i :: 0 <= i < |checked| ==> checked[i] in fs)
    && (forall i, j :: 0 <= i < j < |checked| ==> checked[i] != checked[j])
    && forall i :: 0 <= i < |checked| - 1 ==> Follows(p, trusted, fs, checked[i], checked[i + 1])
  }

  ghost predicate Reports(p: Platform, trusted: Keyring, fs: Directory, current: Text, seen: set<Text>, deep: bool, r: ChainReport) {
    if r.checked == [] then r == ChainReport(false, [], [ChainIssue(current, if current in seen then ArchiveCycle else ArchiveMissing)])
    else
      var last := r.checked[|r.checked| - 1];
      && r.checked[0] == current && last in fs && |r.issues| <= 1
      && (r.valid <==> r.issues == [])
      && (r.valid <==> Verifies(p, trusted, fs[last]) && !HasLink(fs, last))
      && forall issue :: r.issues == [issue] <==> StopsWith(p, trusted, fs, last, deep, seen + Visited(r.checked), issue)
  }

  lemma {:induction false} WalkMeans(p: Platform, trusted: Keyring, fs: Directory, current: Text, seen: set<Text>, links: nat, maxLinks: nat)
    requires links <= maxLinks
    ensures var r := Walk(p, trusted, fs, current, seen, links, maxLinks);
      && (r.checked == [] <==> current in seen || current !in fs)
      && Trail(p, trusted, fs, r.checked) && (forall i :: 0 <= i < |r.checked| ==> r.checked[i] !in seen)
      && links + |r.checked| <= maxLinks + 1
      && Reports(p, trusted, fs, current, seen, links + |r.checked| > maxLinks, r)
    decreases fs.Keys - seen
  {
    hide HopFrom, Verifies, HasLink, StopsWith, Follows;
    if current !in seen && current in fs {
      var here := seen + {current};
      HopMeans(p, trusted, fs, current, links >= maxLinks, here);
      match HopFrom(p, trusted, fs, current, links >= maxLinks) {
        case Stop(issue) =>
          assert Visited([current]) == {current};
        case Follow(predecessor) =>
          WalkMeans(p, trusted, fs, predecessor, here, links + 1, maxLinks);
          Prepends(p, trusted, fs, current, predecessor, seen, links, maxLinks);
      }
    }
  }

  lemma Prepends(p: Platform, trusted: Keyring, fs: Directory, current: Text, predecessor: Text, seen: set<Text>, links: nat, maxLinks: nat)
    requires links < maxLinks && current !in seen && current in fs
    requires HopFrom(p, trusted, fs, current, false) == Follow(predecessor)
    requires var rest := Walk(p, trusted, fs, predecessor, seen + {current}, links + 1, maxLinks);
      && (rest.checked == [] <==> predecessor in seen + {current} || predecessor !in fs)
      && Trail(p, trusted, fs, rest.checked) && (forall i :: 0 <= i < |rest.checked| ==> rest.checked[i] !in seen + {current})
      && links + 1 + |rest.checked| <= maxLinks + 1
      && Reports(p, trusted, fs, predecessor, seen + {current}, links + 1 + |rest.checked| > maxLinks, rest)
    ensures var r := Walk(p, trusted, fs, current, seen, links, maxLinks);
      && Trail(p, trusted, fs, r.checked) && (forall i :: 0 <= i < |r.checked| ==> r.checked[i] !in seen)
      && links + |r.checked| <= maxLinks + 1
      && Reports(p, trusted, fs, current, seen, links + |r.checked| > maxLinks, r)
  {
    hide HopFrom, Verifies, HasLink, StopsWith, Follows, Trail, Reports;
    var rest := Walk(p, trusted, fs, predecessor, seen + {current}, links + 1, maxLinks);
    HopMeans(p, trusted, fs, current, false, seen + {current});
    FollowedIsThere(p, trusted, fs, current, predecessor);
    TrailPrepends(p, trusted, fs, current, predecessor, seen, rest);
    ReportPrepends(p, trusted, fs, current, predecessor, seen, links + 1 + |rest.checked| > maxLinks, rest);
  }

  lemma TrailPrepends(p: Platform, trusted: Keyring, fs: Directory, current: Text, predecessor: Text, seen: set<Text>, rest: ChainReport)
    requires current in fs && current !in seen && Follows(p, trusted, fs, current, predecessor)
    requires rest.checked == [] || rest.checked[0] == predecessor
    requires Trail(p, trusted, fs, rest.checked) && (forall i :: 0 <= i < |rest.checked| ==> rest.checked[i] !in seen + {current})
    ensures Trail(p, trusted, fs, [current] + rest.checked)
    ensures forall i :: 0 <= i < |[current] + rest.checked| ==> ([current] + rest.checked)[i] !in seen
  {
    hide Follows;
    var all := [current] + rest.checked;
    assert forall i :: 0 < i < |all| ==> all[i] == rest.checked[i - 1];
  }

  lemma ReportPrepends(p: Platform, trusted: Keyring, fs: Directory, current: Text, predecessor: Text, seen: set<Text>, deep: bool, rest: ChainReport)
    requires current in fs && Follows(p, trusted, fs, current, predecessor) && predecessor in fs
    requires rest.checked == [] <==> predecessor in seen + {current}
    requires !Verifies(p, trusted, fs[current]) || HasLink(fs, current)
    requires forall issue :: StopsWith(p, trusted, fs, current, false, seen + {current}, issue) <==>
               issue.code.ArchiveCycle? && issue.file == predecessor && predecessor in seen + {current}
    requires Reports(p, trusted, fs, predecessor, seen + {current}, deep, rest)
    requires rest.checked == [] ==> !deep
    ensures Reports(p, trusted, fs, current, seen, deep, rest.(checked := [current] + rest.checked))
  {
    hide Verifies, HasLink, StopsWith, Follows;
    var all := [current] + rest.checked;
    if rest.checked == [] {
      assert Visited(all) == {current};
    } else {
      assert Visited(all) == {current} + Visited(rest.checked);
      assert seen + Visited(all) == seen + {current} + Visited(rest.checked);
    }
  }

  lemma FollowedIsThere(p: Platform, trusted: Keyring, fs: Directory, current: Text, predecessor: Text)
    ensures Follows(p, trusted, fs, current, predecessor) ==> predecessor in fs
  {
  }

  /** The whole report: every file checked verifies and commits by name, count and head to the
      next; the chain is valid exactly when the last one verifies and starts with no link; and
      otherwise the one issue is why the walk cannot go on from there. */
  lemma ReportExactly(p: Platform, trusted: Keyring, fs: Directory, live: Text, maxLinks: nat)
    ensures var r := Walk(p, trusted, fs, live, {}, 0, maxLinks);
      && (r.checked == [] <==> live !in fs)
      && (live !in fs ==> r == ChainReport(false, [], [ChainIssue(live, ArchiveMissing)]))
      && (live in fs ==>
            && r.checked[0] == live && Trail(p, trusted, fs, r.checked) && |r.checked| <= maxLinks + 1
            && var last := r.checked[|r.checked| - 1];
            && (r.valid <==> Verifies(p, trusted, fs[last]) && !HasLink(fs, last))
            && (r.valid <==> r.issues == []) && |r.issues| <= 1
            && forall issue :: r.issues == [issue] <==>
                 StopsWith(p, trusted, fs, last, |r.checked| > maxLinks, Visited(r.checked), issue))
  {
    hide HopFrom, Verifies, HasLink, StopsWith, Follows, Walk;
    WalkMeans(p, trusted, fs, live, {}, 0, maxLinks);
    var r := Walk(p, trusted, fs, live, {}, 0, maxLinks);
    assert {} + Visited(r.checked) == Visited(r.checked);
  }
}
