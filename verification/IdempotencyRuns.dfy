/** The index over whole runs: own appends, other processes' appends, replaced files
    and queries on any number of files that share one cache. */
module IdempotencyRuns {
  import opened Evidence
  import opened Facts
  import opened Verification
  import opened JournalContent
  import opened Idempotency
  import opened IdempotencyIndex
  import opened IdempotencyAnswers
  import opened IdempotencyExact
  import opened IdempotencyCache

  datatype Op =
    | Append(file: nat, build: Json -> Event)
    | AppendChecked(file: nat, checked: (Json, Option<Text>) -> Event, action: Text, key: Text)
    | AppendElsewhere(file: nat, build: Json -> Event)
    | Replace(file: nat, lines: seq<Line>, size: nat)
    | Query(file: nat, action: Text, key: Text)

  /** What the check under the lock answered, and on which content. */
  datatype Asked = Asked(lines: seq<Line>, action: Text, key: Text, id: Option<Text>)

  /** Events are sealed on the tail they are appended to; a replaced file is hash-chained. */
  ghost predicate Sealing(p: Platform, op: Op) {
    match op
    case Append(_, build) => forall head :: Sealed(p, build(head), head)
    case AppendChecked(_, checked, _, _) => forall head, prior :: Sealed(p, checked(head, prior), head)
    case AppendElsewhere(_, build) => forall head :: Sealed(p, build(head), head)
    case Replace(_, lines, size) => Intact(p, lines) && (size == 0 <==> lines == [])
    case Query(_, _, _) => true
  }

  ghost predicate Ready(p: Platform, files: seq<FileJournal>, cache: IdemCache)
    reads files, cache, TablesOf(cache.slots)
  {
    && cache.Valid() && cache.Sound(p)
    && (forall i :: 0 <= i < |files| ==> files[i].Valid() && Intact(p, files[i].lines))
    && forall i, j :: 0 <= i < j < |files| ==> files[i].path != files[j].path
  }

  method Own(p: Platform, files: seq<FileJournal>, file: FileJournal, cache: IdemCache, build: Json -> Event, width: Event -> nat)
    requires Ready(p, files, cache) && file in files && forall head :: Sealed(p, build(head), head)
    modifies file, cache, TablesOf(cache.slots)
    ensures Ready(p, files, cache) && fresh(TablesOf(cache.slots) - old(TablesOf(cache.slots)))
  {
    hide IdemCache.Valid, Intact, Sealed, IdemCache.Sound;
    assert forall t: object :: t in TablesOf(cache.slots) ==> allocated(t);
    var r := file.AppendEvent(p, cache, build, width);
  }

  method Checked(p: Platform, files: seq<FileJournal>, file: FileJournal, cache: IdemCache, useIndex: bool,
                 build: (Json, Option<Text>) -> Event, width: Event -> nat, action: Text, key: Text) returns (id: Option<Text>)
    requires Ready(p, files, cache) && file in files && forall head, prior :: Sealed(p, build(head, prior), head)
    modifies file, cache, TablesOf(cache.slots)
    ensures Ready(p, files, cache) && fresh(TablesOf(cache.slots) - old(TablesOf(cache.slots)))
    ensures InjectiveDigest(p) ==> id == Answered(p, useIndex, AllEvents(old(file.lines)), action, key)
  {
    hide IdemCache.Valid, Intact, Sealed, IdemCache.Sound, Answered;
    assert forall t: object :: t in TablesOf(cache.slots) ==> allocated(t);
    IntactTail(p, file.lines);
    var r, blocking := file.AppendEventAtomic(p, cache, useIndex, build, width, Some(action), Some(key));
    id := blocking;
  }

  method Ask(p: Platform, files: seq<FileJournal>, file: FileJournal, cache: IdemCache, useIndex: bool, action: Text, key: Text)
    returns (id: Option<Text>)
    requires Ready(p, files, cache) && file in files
    modifies cache
    ensures Ready(p, files, cache) && fresh(TablesOf(cache.slots) - old(TablesOf(cache.slots)))
    ensures InjectiveDigest(p) ==> id == Answered(p, useIndex, AllEvents(file.lines), action, key)
  {
    hide IdemCache.Valid, Intact, IdemCache.Sound, Answered;
    assert forall t: object :: t in TablesOf(cache.slots) ==> allocated(t);
    IntactTail(p, file.lines);
    var check := file.LockedBlockingPriorId(p, cache, useIndex, action, key);
    id := check.id;
  }

  /** Another process writes: the file changes and this process's cache does not. */
  method Elsewhere(p: Platform, files: seq<FileJournal>, file: FileJournal, cache: IdemCache, lines: seq<Line>, size: nat)
    requires Ready(p, files, cache) && file in files && Intact(p, lines) && (size == 0 <==> lines == [])
    modifies file
    ensures Ready(p, files, cache) && file.lines == lines
  {
    hide IdemCache.Valid, Intact, IdemCache.Sound;
    assert forall t: object :: t in TablesOf(cache.slots) ==> allocated(t);
    file.lines, file.size := lines, size;
  }

  /** One operation. */
  method Perform(p: Platform, files: seq<FileJournal>, cache: IdemCache, useIndex: bool, width: Event -> nat, op: Op)
    returns (asked: Option<Asked>)
    requires Ready(p, files, cache) && op.file < |files| && Sealing(p, op)
    modifies files, cache, TablesOf(cache.slots)
    ensures Ready(p, files, cache) && fresh(TablesOf(cache.slots) - old(TablesOf(cache.slots)))
    ensures asked.Some? <==> op.Query? || op.AppendChecked?
    ensures asked.Some? ==>
      asked.value.lines == old(files[op.file].lines) && asked.value.action == op.action && asked.value.key == op.key
    ensures asked.Some? && InjectiveDigest(p) ==> AnsweredRight(p, useIndex, asked.value)
  {
    hide Ready, Answered, Intact, Sealed;
    var file := files[op.file];
    var before := file.lines;
    asked := None;
    match op {
      case Append(_, build) =>
        Own(p, files, file, cache, build, width);
      case AppendChecked(_, checked, action, key) =>
        var id := Checked(p, files, file, cache, useIndex, checked, width, action, key);
        asked := Some(Asked(before, action, key, id));
      case AppendElsewhere(_, build) =>
        FileReady(p, files, cache, op.file);
        var e := build(TailOf(before).head);
        IntactAppend(p, before, e);
        Elsewhere(p, files, file, cache, before + [Object(e)], file.size + width(e) + 1);
      case Replace(_, lines, size) =>
        Elsewhere(p, files, file, cache, lines, size);
      case Query(_, action, key) =>
        var id := Ask(p, files, file, cache, useIndex, action, key);
        asked := Some(Asked(before, action, key, id));
    }
  }

  lemma FileReady(p: Platform, files: seq<FileJournal>, cache: IdemCache, i: nat)
    requires Ready(p, files, cache) && i < |files|
    ensures Intact(p, files[i].lines) && TailOf(files[i].lines).Hash?
  {
    hide IdemCache.Valid, Intact;
    IntactTail(p, files[i].lines);
  }

  ghost predicate AnsweredRight(p: Platform, useIndex: bool, asked: Asked) {
    asked.id == Answered(p, useIndex, AllEvents(asked.lines), asked.action, asked.key)
  }

  /** Whatever was appended here or elsewhere and whichever files were replaced before:
      every check answered what a fresh look at the content of that moment answers. */
  method Serve(p: Platform, files: seq<FileJournal>, cache: IdemCache, useIndex: bool, width: Event -> nat, history: seq<Op>)
    returns (log: seq<Asked>)
    requires Ready(p, files, cache) && forall k :: 0 <= k < |history| ==> history[k].file < |files| && Sealing(p, history[k])
    modifies files, cache, TablesOf(cache.slots)
    ensures Ready(p, files, cache)
    ensures InjectiveDigest(p) ==> forall k :: 0 <= k < |log| ==> AnsweredRight(p, useIndex, log[k])
    ensures |log| == Checks(history)
    decreases |history|
  {
    hide Ready, AnsweredRight, Sealing;
    log := [];
    if history != [] {
      var asked := Perform(p, files, cache, useIndex, width, history[0]);
      var rest := Serve(p, files, cache, useIndex, width, history[1..]);
      log := (if asked.Some? then [asked.value] else []) + rest;
    }
  }

  function Checks(history: seq<Op>): nat {
    if history == [] then 0
    else (if history[0].Query? || history[0].AppendChecked? then 1 else 0) + Checks(history[1..])
  }

  /** A slot that matches size and head holds the tables of the present file, up to the
      hashes and signatures it stores. */
  lemma MatchingSlotIsFresh(p: Platform, files: seq<FileJournal>, cache: IdemCache, i: nat)
    requires InjectiveDigest(p) && Ready(p, files, cache) && i < |files|
    requires var file := files[i];
      file.path in cache.slots && cache.slots[file.path].size == file.size && TailOf(file.lines) == Hash(cache.slots[file.path].head)
    ensures var file := files[i]; var es := AllEvents(file.lines);
      Stripped(cache.slots[file.path].tables.Value()) == Stripped(Rebuilt(es, |es|))
  {
    hide Rebuilt, Intact, TailOf, Stripped;
    MatchingHeadMeansFresh(p, cache.described[files[i].path], files[i].lines);
  }
}
