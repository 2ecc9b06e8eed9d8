/** Rotating a journal, step by step, with the writes that may slip in between. */
module ArchiveJournal {
  import opened Evidence
  import opened Writer
  import opened Verification
  import opened JournalContent
  import opened ArchiveChain
  import opened ArchiveHistory

  datatype Stats = Counted(count: nat, head: Json) | StatsFailed | StatsCrashed

  datatype ArchiveResult =
    | BadKeep
    | CannotRead
    | NothingToArchive
    | CannotReserve
    | CannotRename
    | ConcurrentWrite(rolledBack: bool)
    | CannotStart
    | Crashed
    | Died
    | Rotated(event: Event, entry: Writer.Entry)

  /** Where the process may be killed. */
  datatype Moment = AfterClaim | AfterRename | AfterSettling

  /** What may go wrong outside the command: file system calls that fail, the process
      being killed, `slipped` written to the live file between the stats and the rename,
      and `late`, a live file that another writer creates right after the rename. */
  datatype Trouble = Trouble(reserve: bool, rename: bool, rollback: bool, dies: Option<Moment>, slipped: seq<Line>, late: Option<seq<Line>>)

  const NO_TROUBLE := Trouble(false, false, false, None, [], None)

  /** The names an archive may get, in the order they are tried. */
  ghost predicate Candidates(names: nat -> string, live: Text) {
    && (forall i, j :: names(i) == names(j) ==> i == j)
    && forall i :: BareName(names(i)) && Other(names(i)) != live
  }

  /** The live file's lines are still there, under its own name or the claimed one, and
      every other file is as it was. */
  ghost predicate NothingLost(before: Directory, after: Directory, live: Text, claimed: Option<Text>) {
    && (forall name :: name in before && name != live ==> name in after && after[name] == before[name])
    && (live in before && before[live].Unreadable? ==> live in after && after[live] == before[live])
    && (live in before && before[live].File? ==> Holds(after, live, before[live].lines)
                                                 || (claimed.Some? && Holds(after, claimed.value, before[live].lines)))
  }

  predicate Holds(files: Directory, name: Text, lines: seq<Line>) {
    name in files && files[name].File? && lines <= files[name].lines
  }

  class JournalDirectory {
    var files: Directory

    constructor (files: Directory)
      ensures this.files == files
    {
      this.files := files;
    }

    /** Claims the first candidate name that no file has. */
    method Claim(names: nat -> string, live: Text) returns (index: nat)
      requires Candidates(names, live)
      modifies this
      ensures Other(names(index)) !in old(files) && forall j :: 0 <= j < index ==> Other(names(j)) in old(files)
      ensures files == old(files)[Other(names(index)) := File([])]
      ensures BareName(names(index)) && Other(names(index)) != live
    {
      index := 0;
      while Other(names(index)) in files
        invariant files == old(files) && forall j :: 0 <= j < index ==> Other(names(j)) in files
        decreases files.Keys - FirstNames(names, index)
      {
        NotYetTried(names, live, index);
        index := index + 1;
      }
      files := files[Other(names(index)) := File([])];
    }

    /** The count and head of a file; opening it for appending creates it when it is missing. */
    method ArchiveStats(name: Text) returns (stats: Stats)
      modifies this
      ensures files == if name in old(files) then old(files) else old(files)[name := File([])]
      ensures stats == if files[name].Unreadable? || TailOf(files[name].lines).CorruptTail? then StatsFailed
                       else if TailOf(files[name].lines).Crash? then StatsCrashed
                       else Counted(NonBlank(files[name].lines), TailOf(files[name].lines).head)
    {
      hide TailOf, NonBlank;
      if name !in files {
        files := files[name := File([])];
      }
      if files[name].Unreadable? {
        return StatsFailed;
      }
      var count := CountLines(files[name].lines);
      match TailOf(files[name].lines)
      case Hash(head) => stats := Counted(count, head);
      case CorruptTail => stats := StatsFailed;
      case Crash => stats := StatsCrashed;
    }

    /** Renames the live file to a claimed name and starts a linked successor. */
    method Archive(p: Platform, live: Text, names: nat -> string, stamp: Stamp, sign: Event -> Text, trouble: Trouble)
      returns (r: ArchiveResult, claimed: Option<nat>)
      requires Candidates(names, live)
      modifies this
      ensures claimed.Some? ==> Other(names(claimed.value)) !in old(files)
      ensures claimed.Some? ==> forall j :: 0 <= j < claimed.value ==> Other(names(j)) in old(files)
      ensures NothingLost(old(files), files, live, ClaimedName(names, claimed))
      ensures r.Rotated? ==> claimed.Some? && LinksFile(r.event, names(claimed.value), files)
      ensures r.Rotated? ==> live in files && files[live].File? && FirstEvent(files[live].lines) == Some(r.event)
      ensures trouble == NO_TROUBLE && Archivable(old(files), live) ==>
        r.Rotated? && claimed.Some? && Quiesced(p, live, names(claimed.value), stamp, sign, old(files), files, r)
      ensures r == ConcurrentWrite(true) ==>
        live in old(files) && old(files)[live].File? && files == old(files)[live := File(old(files)[live].lines + trouble.slipped)]
      ensures r.CannotStart? || (r == ConcurrentWrite(false) && !trouble.rollback) ==>
        trouble.late.Some? && live in files && files[live] == File(trouble.late.value)
      ensures r.CannotRead? || r.NothingToArchive? || r.CannotReserve? ==>
        claimed.None? && (files == old(files) || (live !in old(files) && files == old(files)[live := File([])]))
      ensures r.NothingToArchive? <==>
        live !in old(files) || (old(files)[live].File? && TailOf(old(files)[live].lines).Hash? && NonBlank(old(files)[live].lines) == 0)
      ensures r.CannotRead? <==> live in old(files) && (old(files)[live].Unreadable? || TailOf(old(files)[live].lines).CorruptTail?)
      ensures r.Died? ==> trouble.dies.Some?
      ensures !r.BadKeep?
    {
      hide TailOf, NonBlank, FirstEvent, LinksFile, Quiesced;
      claimed := None;
      MissingIsEmpty();
      var stats := ArchiveStats(live);
      if stats.StatsFailed? {
        return CannotRead, None;
      }
      if stats.StatsCrashed? {
        return Crashed, None;
      }
      if stats.count == 0 {
        return NothingToArchive, None;
      }
      if trouble.reserve {
        return CannotReserve, None;
      }
      var index;
      r, index := Rotate(p, live, names, stamp, sign, stats, trouble);
      claimed := Some(index);
    }

    /** From the claim on. */
    method Rotate(p: Platform, live: Text, names: nat -> string, stamp: Stamp, sign: Event -> Text, stats: Stats, trouble: Trouble)
      returns (r: ArchiveResult, index: nat)
      requires Candidates(names, live) && live in files && files[live].File?
      requires stats.Counted? && stats.count > 0
      requires TailOf(files[live].lines) == Hash(stats.head) && NonBlank(files[live].lines) == stats.count
      modifies this
      ensures Other(names(index)) !in old(files) && forall j :: 0 <= j < index ==> Other(names(j)) in old(files)
      ensures NothingLost(old(files), files, live, Some(Other(names(index))))
      ensures r.Rotated? ==>
        LinksFile(r.event, names(index), files) && live in files && files[live].File? && FirstEvent(files[live].lines) == Some(r.event)
      ensures trouble == NO_TROUBLE ==> r.Rotated? && Quiesced(p, live, names(index), stamp, sign, old(files), files, r)
      ensures r == ConcurrentWrite(true) ==> files == old(files)[live := File(old(files)[live].lines + trouble.slipped)]
      ensures r.CannotStart? || (r == ConcurrentWrite(false) && !trouble.rollback) ==>
        trouble.late.Some? && live in files && files[live] == File(trouble.late.value)
      ensures r.Died? ==> trouble.dies.Some?
      ensures r.Rotated? || r.ConcurrentWrite? || r.CannotStart? || r.Crashed? || r.Died? || r.CannotRename?
    {
      hide TailOf, NonBlank, FirstEvent, LinksFile, Finalize, Payload, Candidates, BareName, NothingLost, Quiesced, Archivable;
      index := Claim(names, live);
      ghost var archived := Other(names(index));
      files := files[live := File(files[live].lines + trouble.slipped)];
      assert files == Claimed(old(files), live, archived, trouble.slipped);
      NothingLostSince(old(files), files, live, archived, trouble.slipped);
      if trouble.dies == Some(AfterClaim) {
        return Died, index;
      }
      if trouble.rename {
        return CannotRename, index;
      }
      assert trouble.slipped == [] ==> files[live].lines == old(files)[live].lines;
      r := Rename(p, live, names(index), stamp, sign, stats, trouble);
      NothingLostSince(old(files), files, live, archived, trouble.slipped);
      if trouble == NO_TROUBLE {
        UntroubledIsQuiesced(p, live, names(index), stamp, sign, stats, old(files), files, r);
      }
    }

    /** From the rename on. */
    method Rename(p: Platform, live: Text, archived: string, stamp: Stamp, sign: Event -> Text, stats: Stats, trouble: Trouble)
      returns (r: ArchiveResult)
      requires stats.Counted? && stats.count > 0 && BareName(archived) && Other(archived) != live && Other(archived) in files
      requires live in files && files[live].File?
      modifies this
      ensures forall name :: name in old(files) && name != live && name != Other(archived) ==> name in files && files[name] == old(files)[name]
      ensures Holds(files, live, old(files)[live].lines) || Holds(files, Other(archived), old(files)[live].lines)
      ensures r.Rotated? ==>
        LinksFile(r.event, archived, files) && live in files && files[live].File? && FirstEvent(files[live].lines) == Some(r.event)
      ensures trouble.dies.None? && trouble.late.None? && TailOf(old(files)[live].lines) == Hash(stats.head)
              && NonBlank(old(files)[live].lines) == stats.count ==>
        && r.Rotated? && files == old(files)[Other(archived) := old(files)[live]][live := File([Object(r.event)])]
        && r.entry == Writer.Entry(stamp, ArchiveBody(stats.count, stats.head, archived), r.entry.signature)
        && r.entry.signature == sign(Payload(r.entry.body, stamp, []))
        && r.event == Finalize(p, Payload(r.entry.body, stamp, []), r.entry.signature)
      ensures r == ConcurrentWrite(true) ==> files == old(files) - {Other(archived)}
      ensures r.CannotStart? || (r == ConcurrentWrite(false) && !trouble.rollback) ==>
        trouble.late.Some? && live in files && files[live] == File(trouble.late.value)
      ensures r.Rotated? || r.ConcurrentWrite? || r.CannotStart? || r.Crashed? || (r.Died? && trouble.dies.Some?)
    {
      hide TailOf, NonBlank, FirstEvent, Finalize, Payload, LinksFile;
      ghost var before := files;
      files := files[Other(archived) := files[live]] - {live};
      if trouble.dies == Some(AfterRename) {
        return Died;
      }
      if trouble.late.Some? {
        files := files[live := File(trouble.late.value)];
      }
      var settled := ArchiveStats(Other(archived));
      if settled.StatsCrashed? {
        return Crashed;
      }
      if settled != stats {
        if live in files || trouble.rollback {
          return ConcurrentWrite(false);
        }
        files := files[live := files[Other(archived)]] - {Other(archived)};
        assert files == before - {Other(archived)};
        return ConcurrentWrite(true);
      }
      if trouble.dies == Some(AfterSettling) {
        return Died;
      }
      r := Start(p, live, archived, stamp, sign, stats);
    }

    /** Deletes all but the newest `keep` archives; one that cannot be deleted stays. */
    method PruneArchives(archives: seq<Text>, keep: nat, deletable: Text -> bool) returns (pruned: seq<Text>)
      requires keep >= 1 && forall i, j :: 0 <= i < j < |archives| ==> archives[i] != archives[j]
      modifies this
      ensures files == old(files) - Doomed(archives, keep, deletable)
      ensures forall name :: name in pruned <==> name in Doomed(archives, keep, deletable)
    {
      var doomed := archives[..if |archives| > keep then |archives| - keep else 0];
      pruned := [];
      for i := 0 to |doomed|
        invariant forall name :: name in pruned <==> name in doomed[..i] && deletable(name)
        invariant files == old(files) - set name | name in doomed[..i] && deletable(name)
      {
        assert doomed[..i + 1] == doomed[..i] + [doomed[i]];
        if deletable(doomed[i]) {
          files := files - {doomed[i]};
          pruned := pruned + [doomed[i]];
        }
      }
      assert doomed[..|doomed|] == doomed;
    }

    /** The whole command; `archives` are the archives in order of age once it has rotated.
        Pruning deletes exactly the archives older than the newest `keep` that can be deleted. */
    method ArchiveAndPrune(p: Platform, live: Text, names: nat -> string, stamp: Stamp, sign: Event -> Text, trouble: Trouble,
                           keep: Option<int>, archives: seq<Text>, deletable: Text -> bool)
      returns (r: ArchiveResult, claimed: Option<nat>, pruned: seq<Text>)
      requires Candidates(names, live) && forall i, j :: 0 <= i < j < |archives| ==> archives[i] != archives[j]
      requires live !in archives
      modifies this
      ensures r.BadKeep? <==> keep.Some? && keep.value < 1
      ensures r.BadKeep? ==> files == old(files) && claimed.None?
      ensures keep.None? || !r.Rotated? ==> pruned == []
      ensures r.Rotated? && keep.Some? ==>
        && (forall i :: 0 <= i < |archives| ==> (archives[i] in pruned <==> i + keep.value < |archives| && deletable(archives[i])))
        && (forall name :: name in pruned ==> name in archives)
      ensures forall name :: name in pruned ==> name !in files
      ensures r.Rotated? ==> live in files && files[live].File? && FirstEvent(files[live].lines) == Some(r.event)
      ensures r.Rotated? ==> forall name :: name in old(files) && name != live && name !in pruned ==> name in files && files[name] == old(files)[name]
      ensures r.Rotated? ==>
        claimed.Some? && Other(names(claimed.value)) !in old(files)
        && (Other(names(claimed.value)) !in pruned ==> LinksFile(r.event, names(claimed.value), files))
      ensures !r.Rotated? ==> NothingLost(old(files), files, live, ClaimedName(names, claimed))
      ensures trouble == NO_TROUBLE && Archivable(old(files), live) && !r.BadKeep? ==>
        && r.Rotated? && claimed.Some?
        && var archived := Other(names(claimed.value));
        && (forall name :: name in files <==> (name in old(files) || name == archived) && name !in pruned)
        && files[live] == File([Object(r.event)])
        && (archived in files ==> files[archived] == old(files)[live])
    {
      hide FirstEvent, LinksFile, TailOf, NonBlank, Finalize, Payload, Candidates;
      pruned := [];
      if keep.Some? && keep.value < 1 {
        return BadKeep, None, [];
      }
      r, claimed := Archive(p, live, names, stamp, sign, trouble);
      if r.Rotated? && keep.Some? {
        ghost var rotated := files;
        pruned := PruneArchives(archives, keep.value, deletable);
        DoomedMeans(archives, keep.value, deletable);
        LinkSurvives(r.event, names(claimed.value), rotated, files);
      }
    }

    /** Appends the archive event to the new live file, unless someone wrote there first. */
    method Start(p: Platform, live: Text, archived: string, stamp: Stamp, sign: Event -> Text, stats: Stats)
      returns (r: ArchiveResult)
      requires stats.Counted? && stats.count > 0 && BareName(archived) && Other(archived) != live && Other(archived) in files
      requires files[Other(archived)].File?
      requires NonBlank(files[Other(archived)].lines) == stats.count && TailOf(files[Other(archived)].lines) == Hash(stats.head)
      requires live in files ==> files[live].File?
      modifies this
      ensures r.Rotated? || (r.CannotStart? && live in old(files) && files == old(files))
      ensures live !in old(files) ==> r.Rotated? && files == old(files)[live := File([Object(r.event)])]
      ensures r.Rotated? ==> files == old(files)[live := File((if live in old(files) then old(files)[live].lines else []) + [Object(r.event)])]
      ensures r.Rotated? ==>
        && r.entry == Writer.Entry(stamp, ArchiveBody(stats.count, stats.head, archived), r.entry.signature)
        && r.entry.signature == sign(Payload(r.entry.body, stamp, []))
        && r.event == Finalize(p, Payload(r.entry.body, stamp, []), r.entry.signature)
        && LinksFile(r.event, archived, files) && live in files && files[live].File?
        && FirstEvent(files[live].lines) == Some(r.event)
    {
      hide NonBlank, Payload, Finalize;
      var lines := if live in files then files[live].lines else [];
      if TailOf(lines) != Hash(Null) {
        return CannotStart;
      }
      BlankIfNoHead(lines);
      var body := ArchiveBody(stats.count, stats.head, archived);
      var payload := Payload(body, stamp, []);
      var event := Finalize(p, payload, sign(payload));
      ArchiveEventSays(p, body, stamp, sign(payload));
      FirstAfterBlanks(lines, event);
      assert lines == [] ==> lines + [Object(event)] == [Object(event)];
      files := files[live := File(lines + [Object(event)])];
      r := Rotated(event, Writer.Entry(stamp, body, sign(payload)));
    }
  }

  function ClaimedName(names: nat -> string, claimed: Option<nat>): Option<Text> {
    if claimed.Some? then Some(Other(names(claimed.value))) else None
  }

  /** The oldest archives beyond the newest `keep`, as far as they can be deleted. */
  function Doomed(archives: seq<Text>, keep: nat, deletable: Text -> bool): set<Text> {
    set name | name in archives[..if |archives| > keep then |archives| - keep else 0] && deletable(name)
  }

  lemma DoomedMeans(archives: seq<Text>, keep: nat, deletable: Text -> bool)
    requires forall i, j :: 0 <= i < j < |archives| ==> archives[i] != archives[j]
    ensures forall i :: 0 <= i < |archives| ==>
      (archives[i] in Doomed(archives, keep, deletable) <==> i + keep < |archives| && deletable(archives[i]))
    ensures forall name :: name in Doomed(archives, keep, deletable) ==> name in archives
  {
    var doomed := archives[..if |archives| > keep then |archives| - keep else 0];
    forall i | 0 <= i < |archives| ensures archives[i] in doomed <==> i + keep < |archives| {
      if i < |doomed| {
        assert doomed[i] == archives[i];
      }
    }
  }

  lemma LinkSurvives(e: Event, archived: string, before: Directory, after: Directory)
    requires LinksFile(e, archived, before)
    ensures Other(archived) in before
    ensures Other(archived) in after && after[Other(archived)] == before[Other(archived)] ==> LinksFile(e, archived, after)
  {
    hide TailOf, NonBlank;
  }

  function FirstNames(names: nat -> string, n: nat): set<Text> {
    if n == 0 then {} else FirstNames(names, n - 1) + {Other(names(n - 1))}
  }

  lemma {:induction false} FirstNamesAre(names: nat -> string, n: nat)
    ensures forall name :: name in FirstNames(names, n) ==> exists j :: 0 <= j < n && name == Other(names(j))
  {
    if n > 0 {
      FirstNamesAre(names, n - 1);
    }
  }

  lemma NamesDiffer(names: nat -> string, live: Text, i: nat, j: nat)
    requires Candidates(names, live) && i != j
    ensures names(i) != names(j)
  {
  }

  lemma NotYetTried(names: nat -> string, live: Text, n: nat)
    requires Candidates(names, live)
    ensures Other(names(n)) !in FirstNames(names, n)
  {
    hide Candidates;
    FirstNamesAre(names, n);
    if Other(names(n)) in FirstNames(names, n) {
      var j :| 0 <= j < n && Other(names(n)) == Other(names(j));
      NamesDiffer(names, live, n, j);
    }
  }

  /** The directory once the archive name is claimed and `slipped` is written. */
  function Claimed(before: Directory, live: Text, archived: Text, slipped: seq<Line>): Directory
    requires live in before && before[live].File?
  {
    before[archived := File([])][live := File(before[live].lines + slipped)]
  }

  /** What keeps the claimed directory's live lines keeps the original ones. */
  lemma NothingLostSince(before: Directory, after: Directory, live: Text, archived: Text, slipped: seq<Line>)
    requires live in before && before[live].File? && archived !in before && archived != live
    requires var held := Claimed(before, live, archived, slipped);
      && (forall name :: name in held && name != live && name != archived ==> name in after && after[name] == held[name])
      && (Holds(after, live, held[live].lines) || Holds(after, archived, held[live].lines))
    ensures NothingLost(before, after, live, Some(archived))
  {
    assert before[live].lines <= before[live].lines + slipped;
  }

  lemma UntroubledIsQuiesced(p: Platform, live: Text, archived: string, stamp: Stamp, sign: Event -> Text, stats: Stats,
                             before: Directory, after: Directory, r: ArchiveResult)
    requires live in before && before[live].File? && Other(archived) !in before && Other(archived) != live
    requires stats.Counted? && stats.count > 0
    requires TailOf(before[live].lines) == Hash(stats.head) && NonBlank(before[live].lines) == stats.count
    requires r.Rotated?
    requires var held := Claimed(before, live, Other(archived), []);
      && after == held[Other(archived) := held[live]][live := File([Object(r.event)])]
      && r.entry == Writer.Entry(stamp, ArchiveBody(stats.count, stats.head, archived), r.entry.signature)
      && r.entry.signature == sign(Payload(r.entry.body, stamp, []))
      && r.event == Finalize(p, Payload(r.entry.body, stamp, []), r.entry.signature)
    ensures Archivable(before, live) && Quiesced(p, live, archived, stamp, sign, before, after, r)
  {
    hide TailOf, NonBlank, Finalize, Payload;
    assert before[live].lines + [] == before[live].lines;
  }

  predicate Archivable(files: Directory, live: Text) {
    live in files && files[live].File? && NonBlank(files[live].lines) > 0 && TailOf(files[live].lines).Hash?
  }

  /** The event commits to what the archived file now holds. */
  predicate LinksFile(e: Event, archived: string, files: Directory) {
    && Other(archived) in files && files[Other(archived)].File?
    && KindOf(e) == W(ARCHIVE) && Get(e, ArchivedPath) == Str(Other(archived))
    && Get(e, PriorCount) == Num(NonBlank(files[Other(archived)].lines))
    && TailOf(files[Other(archived)].lines) == Hash(Get(e, PriorHead))
  }

  /** The whole effect of a rotation that nothing raced with. */
  predicate Quiesced(p: Platform, live: Text, archived: string, stamp: Stamp, sign: Event -> Text,
                     before: Directory, after: Directory, r: ArchiveResult)
    requires r.Rotated? && Archivable(before, live)
  {
    var body := ArchiveBody(NonBlank(before[live].lines), TailOf(before[live].lines).head, archived);
    && r.entry == Writer.Entry(stamp, body, sign(Payload(body, stamp, [])))
    && r.event == Finalize(p, Payload(body, stamp, []), r.entry.signature)
    && after == before[Other(archived) := before[live]][live := File([Object(r.event)])]
  }

  lemma MissingIsEmpty()
    ensures NonBlank([]) == 0 && TailOf([]) == Hash(Null)
  {
  }

  lemma ArchiveEventSays(p: Platform, body: Body, stamp: Stamp, signature: Text)
    requires body.ArchiveBody? && Enabled(body, stamp, [])
    ensures var e := Finalize(p, Payload(body, stamp, []), signature);
      && KindOf(e) == W(ARCHIVE) && Get(e, ArchivedPath) == Str(Other(body.archivedName))
      && Get(e, PriorCount) == Num(body.priorCount) && Get(e, PriorHead) == body.priorHead
  {
    hide Finalize, Base, Enabled, BodyFields, Payload, Get, Unsigned;
    var e := Finalize(p, Payload(body, stamp, []), signature);
    BodyLeavesSealAlone(body, stamp, [], EventHash);
    BodyLeavesSealAlone(body, stamp, [], Signature);
    SealedUnsigned(p, body, stamp, signature);
    ArchiveFields(body, stamp);
    ReadsBase(body, stamp, [], e, EventType);
    BaseType(body, stamp);
    KindIs(e);
    ReadsBody(body, stamp, [], e, ArchivedPath);
    ReadsBody(body, stamp, [], e, PriorCount);
    ReadsBody(body, stamp, [], e, PriorHead);
  }

  lemma SealedUnsigned(p: Platform, body: Body, stamp: Stamp, signature: Text)
    requires body.ArchiveBody?
    requires EventHash !in BodyFields(body, stamp, []) && Signature !in BodyFields(body, stamp, [])
    ensures Unsigned(Finalize(p, Payload(body, stamp, []), signature)) == Payload(body, stamp, [])
  {
    hide BodyFields;
    FinalizeSeals(p, Payload(body, stamp, []), signature);
  }

  lemma BaseType(body: Body, stamp: Stamp)
    requires body.ArchiveBody?
    ensures EventType in Base(body, stamp, Head([])) && Base(body, stamp, Head([]))[EventType] == W(ARCHIVE)
  {
  }

  lemma KindIs(e: Event)
    requires EventType in e
    ensures KindOf(e) == e[EventType]
  {
  }

  lemma ArchiveFields(body: Body, stamp: Stamp)
    requires body.ArchiveBody?
    ensures Get(BodyFields(body, stamp, []), ArchivedPath) == Str(Other(body.archivedName))
    ensures Get(BodyFields(body, stamp, []), PriorCount) == Num(body.priorCount)
    ensures Get(BodyFields(body, stamp, []), PriorHead) == body.priorHead
    ensures EventType in BASE
  {
  }

  /** Only a file with nothing on any line has no head. */
  lemma {:induction false} BlankIfNoHead(lines: seq<Line>)
    requires TailOf(lines) == Hash(Null)
    ensures forall i :: 0 <= i < |lines| ==> lines[i].Blank?
  {
    if lines != [] {
      assert lines[|lines| - 1].Blank?;
      BlankIfNoHead(lines[..|lines| - 1]);
    }
  }

  lemma {:induction false} FirstAfterBlanks(lines: seq<Line>, e: Event)
    requires forall i :: 0 <= i < |lines| ==> lines[i].Blank?
    ensures FirstEvent(lines + [Object(e)]) == Some(e)
  {
    if lines != [] {
      FirstAfterBlanks(lines[1..], e);
      assert (lines + [Object(e)])[1..] == lines[1..] + [Object(e)];
    }
  }

  /** A quiesced rotation signed by a trusted key is a move of the custody history. */
  lemma QuiescedIsMove(p: Platform, trusted: Keyring, live: Text, archived: string, stamp: Stamp, sign: Event -> Text,
                       before: Directory, after: Directory, r: ArchiveResult)
    requires Archivable(before, live)
    requires Other(archived) !in before && BareName(archived)
    requires r.Rotated? && Quiesced(p, live, archived, stamp, sign, before, after, r)
    requires stamp.keyId in trusted
    requires p.checks(stamp.keyId, p.digest(Payload(r.entry.body, stamp, [])), r.entry.signature)
    ensures Moves(p, trusted, live, before, Rotates(archived, r.event, r.entry), after)
  {
    hide Payload, Finalize, TailOf, NonBlank;
  }
}
