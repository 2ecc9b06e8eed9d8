/** The in-process index cache and the file journal that keeps it up to date. */
module IdempotencyCache {
  import opened Evidence
  import opened Facts
  import opened Verification
  import opened JournalContent
  import opened Idempotency
  import opened IdempotencyIndex
  import opened IdempotencyAnswers
  import opened IdempotencyExact

  // ---- A matching head -------------------------------------------------

  lemma SameFacts(a: seq<Event>, b: seq<Event>)
    requires SamePayloads(a, b)
    ensures FactsOf(a) == FactsOf(b)
  {
    forall i | 0 <= i < |a| ensures FactOf(a[i]) == FactOf(b[i]) {
      SameFact(a[i], b[i]);
    }
  }

  lemma SameField(a: Event, b: Event)
    requires Unsigned(a) == Unsigned(b)
    ensures forall f :: f != EventHash && f != Signature ==> Get(a, f) == Get(b, f) && (f in a <==> f in b)
  {
    forall f | f != EventHash && f != Signature ensures Get(a, f) == Get(b, f) && (f in a <==> f in b) {
      UnsignedAgree(a, b, f);
    }
  }

  lemma SameFact(a: Event, b: Event)
    requires Unsigned(a) == Unsigned(b)
    ensures FactOf(a) == FactOf(b)
  {
    SameField(a, b);
    hide Get, Unsigned;
  }

  /** The tables without the hashes and signatures of the decisions they hold. */
  function Stripped(t: Tables): Tables {
    t.(decisions := Payloads(t.decisions))
  }

  function Payloads(decisions: map<Text, Event>): map<Text, Event> {
    map id | id in decisions :: Unsigned(decisions[id])
  }

  lemma TrackableStripped(e: Event)
    ensures Trackable(Unsigned(e)) <==> Trackable(e)
    ensures forall f :: f in {EventId, IdempotencyKey, ActionName} ==> Get(Unsigned(e), f) == Get(e, f)
  {
    SameField(Unsigned(e), e);
    hide Unsigned, Get;
  }

  lemma StrippedUpdate(decisions: map<Text, Event>, id: Text, e: Event)
    ensures Payloads(decisions[id := e]) == Payloads(decisions)[id := Unsigned(e)]
  {
    hide Unsigned;
  }

  lemma TrackStripped(t: Tables, e: Event)
    ensures Trackable(Unsigned(e)) <==> Trackable(e)
    ensures Trackable(e) ==> Stripped(TrackDecision(t, e)) == TrackDecision(Stripped(t), Unsigned(e))
  {
    TrackableStripped(e);
    if Trackable(e) {
      var id := IdOf(e);
      assert Get(Unsigned(e), EventId) == Str(id);
      hide Trackable, Unsigned, KeyLookup, Get;
      StrippedUpdate(t.decisions, id, e);
    }
  }

  lemma KeepStripped(t: Tables, e: Event, value: Field)
    requires value == Status || value == ResolutionValue
    ensures Keepable(Stripped(t), Unsigned(e), value) <==> Keepable(t, e, value)
    ensures Get(Unsigned(e), value) == Get(e, value) && Get(Unsigned(e), DecisionEventId) == Get(e, DecisionEventId)
    ensures KindOf(Unsigned(e)) == KindOf(e)
  {
    UnsignedKeeps(e, Status);
    UnsignedKeeps(e, ResolutionValue);
    UnsignedKeeps(e, DecisionEventId);
    UnsignedKeeps(e, EventType);
    hide Unsigned, Get;
  }

  /** Evolving reads nothing but payloads. */
  lemma EvolvedStripped(t: Tables, e: Event)
    ensures Stripped(Evolved(t, e)) == Evolved(Stripped(t), Unsigned(e))
  {
    TrackStripped(t, e);
    KeepStripped(t, e, Status);
    KeepStripped(t, e, ResolutionValue);
    hide Unsigned, Add, TrackDecision, Trackable, Get, KindOf;
  }

  lemma {:induction false} RebuiltSame(a: seq<Event>, b: seq<Event>, n: nat)
    requires SamePayloads(a, b) && n <= |a|
    ensures Stripped(Rebuilt(a, n)) == Stripped(Rebuilt(b, n))
  {
    hide Evolved, Stripped;
    if n > 0 {
      RebuiltSame(a, b, n - 1);
      EvolvedStripped(Rebuilt(a, n - 1), a[n - 1]);
      EvolvedStripped(Rebuilt(b, n - 1), b[n - 1]);
    }
  }

  /** A matching head proves that tables built from other hash-chained content
      describe this content too. */
  lemma MatchingHeadMeansFresh(p: Platform, cached: seq<Line>, lines: seq<Line>)
    requires InjectiveDigest(p) && Intact(p, cached) && Intact(p, lines)
    requires TailOf(cached) == TailOf(lines)
    ensures SamePayloads(AllEvents(cached), AllEvents(lines))
    ensures FactsOf(AllEvents(cached)) == FactsOf(AllEvents(lines))
    ensures var a, b := AllEvents(cached), AllEvents(lines);
      Stripped(Rebuilt(a, |a|)) == Stripped(Rebuilt(b, |b|))
  {
    hide Stripped, Rebuilt;
    IntactTail(p, cached);
    IntactTail(p, lines);
    HeadDeterminesPayloads(p, AllEvents(cached), AllEvents(lines));
    SameFacts(AllEvents(cached), AllEvents(lines));
    RebuiltSame(AllEvents(cached), AllEvents(lines), |AllEvents(cached)|);
  }

  lemma SameTracked(a: seq<Event>, b: seq<Event>, n: nat, id: Text)
    requires SamePayloads(a, b) && n <= |a|
    ensures TrackedBefore(a, n, id) <==> TrackedBefore(b, n, id)
  {
    hide Trackable, Unsigned, Get;
    forall j | 0 <= j < n ensures (Trackable(a[j]) <==> Trackable(b[j])) && Get(a[j], EventId) == Get(b[j], EventId) {
      TrackableStripped(a[j]);
      TrackableStripped(b[j]);
    }
  }

  /** The index keeps the same of files that hold the same payloads. */
  lemma SameKept(a: seq<Event>, b: seq<Event>)
    requires SamePayloads(a, b)
    ensures SamePayloads(Visible(a), Visible(b)) && FactsOf(Visible(a)) == FactsOf(Visible(b))
  {
    hide TrackedBefore, Trackable, FactsOf, Visible;
    forall i | 0 <= i < |a| ensures Unsigned(Visible(a)[i]) == Unsigned(Visible(b)[i]) {
      TrackableStripped(a[i]);
      TrackableStripped(b[i]);
      SameField(a[i], b[i]);
      if Trackable(a[i]) {
        SameTracked(a, b, i, IdOf(a[i]));
      }
      if IsText(Get(a[i], DecisionEventId)) {
        SameTracked(a, b, i, Get(a[i], DecisionEventId).t);
      }
    }
    SameFacts(Visible(a), Visible(b));
  }

  /** ... and answer for it, well-formed or not. */
  lemma MatchingHeadAnswers(p: Platform, cached: seq<Line>, lines: seq<Line>, action: Text, key: Text)
    requires InjectiveDigest(p) && Intact(p, cached) && Intact(p, lines)
    requires TailOf(cached) == TailOf(lines)
    ensures var a := AllEvents(cached);
      KeysTracked(Rebuilt(a, |a|))
      && IndexedBlocking(p, Rebuilt(a, |a|), action, key) == BlockingId(p, Visible(AllEvents(lines)), action, key)
  {
    hide IndexedBlocking, Rebuilt, Intact, TailOf, Stripped, Visible, FactsOf, KeysTracked, Exact;
    MatchingHeadMeansFresh(p, cached, lines);
    IndexAnswersKept(p, AllEvents(cached), action, key);
    SameKept(AllEvents(cached), AllEvents(lines));
  }

  /** The completed query likewise: the decision returned has the payload of the one the
      index of this content returns. */
  lemma MatchingHeadCompletes(p: Platform, cached: seq<Line>, lines: seq<Line>, action: Text, key: Text, prior: Option<nat>)
    requires InjectiveDigest(p) && Intact(p, cached) && Intact(p, lines) && TailOf(cached) == TailOf(lines)
    requires var a := AllEvents(cached);
      KeysTracked(Rebuilt(a, |a|)) && FirstCompleted(KeyState(Rebuilt(a, |a|), (action, key)), prior)
    ensures var a, b := AllEvents(cached), AllEvents(lines);
      var t, place := Rebuilt(a, |a|), IndexPlace(b, action, key);
      && (prior.Some? <==> place.Some?)
      && (prior.Some? ==>
            && KeyLookup(t.byKey, (action, key))[prior.value] in t.decisions
            && Unsigned(t.decisions[KeyLookup(t.byKey, (action, key))[prior.value]]) == Unsigned(b[place.value]))
  {
    hide Rebuilt, Intact, TailOf, Stripped, Visible, FactsOf, KeysTracked, KeyLookup, CompletedPrior, Indexes, CompletesIn, Unsigned;
    MatchingHeadMeansFresh(p, cached, lines);
    IndexReturnsPlace(AllEvents(cached), action, key, prior);
    SameKept(AllEvents(cached), AllEvents(lines));
  }

  // ---- The tables and the cache ----------------------------------------

  class IdemTables {
    var decisions: map<Text, Event>
    var byKey: ByKey
    var outcomes: Rows
    var resolutions: Rows

    function Value(): Tables
      reads this
    {
      Tables(decisions, byKey, outcomes, resolutions)
    }

    constructor ()
      ensures Value() == EMPTY
    {
      decisions, byKey, outcomes, resolutions := map[], map[], map[], map[];
    }

    /** Folds one appended event into the tables. */
    method Evolve(event: Event)
      modifies this
      ensures Value() == Evolved(old(Value()), event)
    {
      if KindOf(event) == W(DECISION) {
        if Get(event, Verdict) != W(ALLOWED) || Get(event, DryRun) == Bool(true) {
          return;
        }
        if IdempotencyKey !in event || !IsText(Get(event, ActionName)) {
          return;
        }
        var id := Get(event, EventId);
        if !IsText(id) || id.t in decisions {
          return;
        }
        decisions := decisions[id.t := event];
        var key, action := Get(event, IdempotencyKey), Get(event, ActionName);
        if IsText(key) {
          byKey := byKey[(action.t, key.t) := KeyLookup(byKey, (action.t, key.t)) + [id.t]];
        }
      } else if KindOf(event) == W(OUTCOME) {
        var ref, status := Get(event, DecisionEventId), Get(event, Status);
        if IsText(ref) && IsText(status) && ref.t in decisions {
          outcomes := Add(outcomes, ref.t, map[Status := status]);
        }
      } else if KindOf(event) == W(RESOLUTION) {
        var ref, resolution := Get(event, DecisionEventId), Get(event, ResolutionValue);
        if IsText(ref) && IsText(resolution) && ref.t in decisions {
          resolutions := Add(resolutions, ref.t, map[ResolutionValue := resolution]);
        }
      }
    }
  }

  /** Rebuilds the tables from a full scan. */
  method CollectIdemTables(lines: seq<Line>) returns (tables: IdemTables)
    ensures fresh(tables) && tables.Value() == Rebuilt(AllEvents(lines), |AllEvents(lines)|)
  {
    hide Evolved;
    tables := new IdemTables();
    ghost var es := AllEvents(lines);
    for i := 0 to |lines|
      invariant fresh(tables)
      invariant Events(lines, i) <= es
      invariant tables.Value() == Rebuilt(es, |Events(lines, i)|)
    {
      EventsPrefixOf(lines, i + 1);
      match lines[i]
      case Object(event) => tables.Evolve(event);
      case _ =>
    }
  }

  lemma {:induction false} EventsPrefixOf(lines: seq<Line>, n: nat)
    requires n <= |lines|
    ensures Events(lines, n) <= AllEvents(lines)
    decreases |lines| - n
  {
    if n < |lines| {
      EventsPrefixOf(lines, n + 1);
    }
  }

  type Path = string

  datatype Slot = Slot(size: nat, head: Json, tables: IdemTables)

  const MAX_PATHS: nat := 128

  type Slots = map<Path, Slot>

  ghost predicate NoDups(order: seq<Path>) {
    forall i, j :: 0 <= i < j < |order| ==> order[i] != order[j]
  }

  /** Dictionary order: the keys, each once, oldest first. */
  ghost predicate Lists(order: seq<Path>, keys: set<Path>) {
    NoDups(order) && forall path :: path in keys <==> path in order
  }

  ghost predicate Separate(slots: Slots) {
    forall a, b :: a in slots && b in slots && a != b ==> slots[a].tables != slots[b].tables
  }

  function TablesOf(slots: Slots): set<IdemTables> {
    set path | path in slots :: slots[path].tables
  }

  /** The slot holds the tables of this content, filed under its head. */
  ghost predicate Fits(slot: Slot, content: seq<Line>)
    reads slot.tables
  {
    && slot.tables.Value() == Rebuilt(AllEvents(content), |AllEvents(content)|)
    && TailOf(content) == Hash(slot.head)
  }

  ghost predicate AllFit(slots: Slots, described: map<Path, seq<Line>>)
    reads TablesOf(slots)
  {
    slots.Keys == described.Keys
    && forall path :: path in slots ==> Fits(slots[path], described[path])
  }

  function Without(order: seq<Path>, path: Path): (rest: seq<Path>)
    ensures |rest| <= |order|
    ensures path in order ==> |rest| < |order|
    ensures forall q :: q in rest <==> q in order && q != path
  {
    if order == [] then []
    else if order[|order| - 1] == path then Without(order[..|order| - 1], path)
    else Without(order[..|order| - 1], path) + [order[|order| - 1]]
  }

  lemma {:induction false} WithoutKeepsNoDups(order: seq<Path>, path: Path)
    requires NoDups(order)
    ensures NoDups(Without(order, path))
  {
    if order != [] {
      var before, last := order[..|order| - 1], order[|order| - 1];
      WithoutKeepsNoDups(before, path);
      assert last !in before;
      assert last !in Without(before, path);
    }
  }

  /** Dropping the first key of a duplicate-free list leaves its tail. */
  lemma WithoutFirst(order: seq<Path>)
    requires NoDups(order) && order != []
    ensures Without(order, order[0]) == order[1..]
  {
    if |order| > 1 {
      var before := order[..|order| - 1];
      WithoutFirst(before);
      assert before[0] == order[0] && order[|order| - 1] != order[0];
      assert order[1..] == before[1..] + [order[|order| - 1]];
    }
  }

  lemma AllFitUpdate(slots: Slots, described: map<Path, seq<Line>>, path: Path, slot: Slot, content: seq<Line>)
    requires AllFit(slots - {path}, described - {path}) && Fits(slot, content)
    ensures AllFit(slots[path := slot], described[path := content])
  {
    hide Fits;
    var others, contents := slots - {path}, described - {path};
    assert slots[path := slot] == others[path := slot] && described[path := content] == contents[path := content];
  }

  method Grow(slot: Slot, event: Event, size: nat, ghost content: seq<Line>)
    requires Fits(slot, content) && EventHash in event && IsText(event[EventHash])
    modifies slot.tables
    ensures Fits(Slot(size, event[EventHash], slot.tables), content + [Object(event)])
  {
    hide Rebuilt, TailOf, Evolved;
    AppendFits(content, event);
    slot.tables.Evolve(event);
  }

  /** The newest paths, as many as the cache may hold. */
  function Newest(order: seq<Path>): (newest: seq<Path>)
    ensures |newest| <= MAX_PATHS && |newest| <= |order| && newest == order[|order| - |newest|..]
  {
    if |order| <= MAX_PATHS then order else order[|order| - MAX_PATHS..]
  }

  /** `_IDEM_TABLES_CACHE`: one slot per path. */
  class IdemCache {
    var slots: Slots
    var order: seq<Path>
    /** For each path, some content whose tables the slot holds. */
    ghost var described: map<Path, seq<Line>>

    ghost predicate Valid()
      reads this, TablesOf(slots)
    {
      |order| <= MAX_PATHS && Consistent()
    }

    ghost predicate Consistent()
      reads this, TablesOf(slots)
    {
      Lists(order, slots.Keys) && Separate(slots) && AllFit(slots, described)
    }

    /** Every slot describes hash-chained content. */
    ghost predicate Sound(p: Platform)
      reads this
    {
      forall path :: path in described ==> Intact(p, described[path])
    }

    constructor ()
      ensures Valid() && slots == map[] && described == map[]
    {
      slots, order, described := map[], [], map[];
    }

    /** The tables cached for `path` if they are filed under this size and head. */
    method Cached(path: Path, size: nat, head: Json) returns (tables: Option<IdemTables>)
      requires Valid()
      ensures tables.Some? <==> path in slots && slots[path].size == size && slots[path].head == head
      ensures tables.Some? ==> tables.value == slots[path].tables
    {
      if path !in slots || slots[path].size != size || slots[path].head != head {
        return None;
      }
      tables := Some(slots[path].tables);
    }

    lemma NotTables(s: Slots)
      ensures forall t: object :: t in TablesOf(s) ==> t != this
    {
    }

    /** Forgets a path. */
    method Drop(path: Path)
      requires Consistent()
      modifies this
      ensures Consistent() && slots == old(slots) - {path} && described == old(described) - {path}
      ensures order == Without(old(order), path)
    {
      hide Fits, NoDups, Without, AllFit;
      WithoutKeepsNoDups(order, path);
      OthersFit(path);
      NotTables(slots - {path});
      slots, described, order := slots - {path}, described - {path}, Without(order, path);
    }

    /** Files tables under a path; a path filed before keeps its place. */
    method Put(path: Path, size: nat, head: Json, tables: IdemTables, ghost content: seq<Line>)
      requires Lists(order, slots.Keys) && Separate(slots) && AllFit(slots - {path}, described - {path})
      requires Fits(Slot(size, head, tables), content)
      requires forall q :: q in slots && q != path ==> slots[q].tables != tables
      modifies this
      ensures Consistent() && slots == old(slots)[path := Slot(size, head, tables)]
      ensures described == old(described)[path := content]
      ensures order == if path in old(slots) then old(order) else old(order) + [path]
    {
      hide Fits, Lists, AllFit;
      ListsAdd(order, slots.Keys, path);
      AllFitUpdate(slots, described, path, Slot(size, head, tables), content);
      NotTables(slots[path := Slot(size, head, tables)]);
      order := if path in slots then order else order + [path];
      slots, described := slots[path := Slot(size, head, tables)], described[path := content];
      assert slots.Keys == old(slots).Keys + {path};
    }

    /** Files tables under a path, then evicts the oldest paths past the cap. */
    method Publish(path: Path, size: nat, head: Json, tables: IdemTables, ghost content: seq<Line>)
      requires Valid() && Fits(Slot(size, head, tables), content)
      requires forall q :: q in slots && q != path ==> slots[q].tables != tables
      modifies this
      ensures Valid()
      ensures slots.Keys <= old(slots).Keys + {path} && slots.Keys == described.Keys
      ensures forall q :: q in slots && q != path ==> slots[q] == old(slots)[q] && described[q] == old(described)[q]
      ensures path in slots && slots[path] == Slot(size, head, tables) && described[path] == content
      ensures order == Newest(if path in old(slots) then old(order) else old(order) + [path])
      ensures TablesOf(slots) <= old(TablesOf(slots)) + {tables}
    {
      hide Fits, Separate;
      OthersFit(path);
      Put(path, size, head, tables, content);
      Evict();
      assert path in order;
      hide Lists;
    }

    /** Drops the oldest paths past the cap, and no other. */
    method Evict()
      requires Consistent()
      modifies this
      ensures Valid() && slots.Keys <= old(slots).Keys && slots.Keys == described.Keys
      ensures forall q :: q in slots ==> slots[q] == old(slots)[q] && described[q] == old(described)[q]
      ensures order == Newest(old(order))
    {
      hide Fits, Lists, Separate, AllFit;
      OneSlotEach();
      while |order| > MAX_PATHS
        invariant Consistent() && slots.Keys == described.Keys
        invariant slots.Keys <= old(slots).Keys
        invariant forall q :: q in slots ==> slots[q] == old(slots)[q] && described[q] == old(described)[q]
        invariant |order| <= |old(order)| && order == old(order)[|old(order)| - |order|..]
        invariant |order| == |old(order)| || |order| >= MAX_PATHS
        decreases |order|
      {
        DropOldest();
      }
    }

    lemma OneSlotEach()
      requires Consistent()
      ensures slots.Keys == described.Keys && forall path :: path in slots <==> path in order
    {
      hide Fits, NoDups, Separate;
    }

    method DropOldest()
      requires Consistent() && order != []
      modifies this
      ensures Consistent() && slots.Keys == described.Keys && order == old(order)[1..]
      ensures slots == old(slots) - {old(order)[0]} && described == old(described) - {old(order)[0]}
    {
      hide Fits, Separate, AllFit;
      OneSlotEach();
      WithoutFirst(order);
      hide NoDups;
      Drop(order[0]);
    }

    /** Evolves the slot of a path and files it under the new size and head. */
    method EvolveSlot(path: Path, event: Event, size: nat)
      requires Consistent() && path in slots && EventHash in event && IsText(event[EventHash])
      modifies this, slots[path].tables
      ensures Consistent() && described == old(described)[path := old(described)[path] + [Object(event)]]
      ensures slots == old(slots)[path := Slot(size, event[EventHash], old(slots)[path].tables)] && order == old(order)
    {
      hide Lists, Fits;
      var tables := slots[path].tables;
      ghost var content := described[path];
      OthersFit(path);
      hide AllFit, Separate;
      Grow(slots[path], event, size, content);
      Put(path, size, event[EventHash], tables, content + [Object(event)]);
    }

    lemma OthersFit(path: Path)
      requires Consistent()
      ensures AllFit(slots - {path}, described - {path})
      ensures path in slots ==> slots[path].tables !in TablesOf(slots - {path})
      ensures path in slots ==> forall q :: q in slots && q != path ==> slots[q].tables != slots[path].tables
    {
    }

    /** After an own append: evolve the entry that described exactly the file before
        it, forget any other. */
    method NoteAppend(path: Path, event: Event, preSize: nat, preHead: Json, postSize: nat)
      requires Valid()
      modifies this, TablesOf(slots)
      ensures Valid() && described.Keys <= old(described).Keys && TablesOf(slots) <= old(TablesOf(slots))
      ensures forall q :: q in described && q != path ==> described[q] == old(described)[q]
      ensures path in described <==>
        && path in old(slots) && old(slots)[path].size == preSize && old(slots)[path].head == preHead
        && EventHash in event && IsText(event[EventHash])
      ensures path in described ==>
        && path in slots && old(slots)[path].size == preSize && old(slots)[path].head == preHead
        && slots[path].size == postSize && EventHash in event && slots[path].head == event[EventHash]
        && described[path] == old(described)[path] + [Object(event)]
    {
      hide Fits, Lists, Separate, AllFit;
      OneSlotEach();
      if EventHash !in event || !IsText(event[EventHash]) {
        Drop(path);
        return;
      }
      if path !in slots {
        return;
      }
      if slots[path].size != preSize || slots[path].head != preHead {
        Drop(path);
        return;
      }
      EvolveSlot(path, event, postSize);
      OneSlotEach();
      Evict();
      OneSlotEach();
    }
  }

  /** Appending one event to content appends it to what the tables say and moves the head. */
  lemma AppendFits(content: seq<Line>, e: Event)
    requires EventHash in e && IsText(e[EventHash])
    ensures var before, after := AllEvents(content), AllEvents(content + [Object(e)]);
      Rebuilt(after, |after|) == Evolved(Rebuilt(before, |before|), e)
    ensures TailOf(content + [Object(e)]) == Hash(e[EventHash])
  {
    EventsAppend(content, e);
    RebuiltPrefix(AllEvents(content), AllEvents(content + [Object(e)]), |AllEvents(content)|);
  }

  lemma {:induction false} RebuiltPrefix(a: seq<Event>, b: seq<Event>, n: nat)
    requires a <= b && n <= |a|
    ensures Rebuilt(a, n) == Rebuilt(b, n)
  {
    hide Evolved;
    if n > 0 {
      RebuiltPrefix(a, b, n - 1);
    }
  }

  lemma ListsAdd(order: seq<Path>, keys: set<Path>, path: Path)
    requires Lists(order, keys)
    ensures Lists(if path in keys then order else order + [path], keys + {path})
  {
  }

  // ---- The journal file ------------------------------------------------

  datatype Check = Prior(id: Option<Text>) | CheckCrashed

  datatype Lookup = Found(event: Option<Event>) | LookupCrashed

  datatype Append = Appended(event: Event) | JournalError | AppendCrashed

  /** One journal file and the operations that append to it. Other processes may change
      `lines` and `size` between any two calls. */
  class FileJournal {
    const path: Path
    var lines: seq<Line>
    var size: nat

    predicate Valid()
      reads this
    {
      size == 0 <==> lines == []
    }

    constructor (path: Path)
      ensures Valid() && lines == [] && this.path == path
    {
      this.path, lines, size := path, [], 0;
    }

    /** The tables of this file: the cached ones if they are filed under its size and
        head, rebuilt and filed ones otherwise. */
    method TablesNow(p: Platform, cache: IdemCache, head: Json) returns (tables: IdemTables, ghost content: seq<Line>)
      requires Valid() && cache.Valid() && TailOf(lines) == Hash(head)
      modifies cache
      ensures cache.Valid() && fresh(TablesOf(cache.slots) - old(TablesOf(cache.slots)))
      ensures forall q :: q in cache.described && q != path ==> q in old(cache.described) && cache.described[q] == old(cache.described)[q]
      ensures path in cache.described ==> cache.described[path] == content
      ensures content == lines || (path in old(cache.described) && content == old(cache.described)[path])
      ensures TailOf(content) == Hash(head)
      ensures tables.Value() == Rebuilt(AllEvents(content), |AllEvents(content)|)
      ensures path in cache.slots && cache.slots[path] == Slot(size, head, tables)
      ensures InjectiveDigest(p) && old(cache.Sound(p)) && Intact(p, lines) ==>
                Stripped(tables.Value()) == Stripped(Rebuilt(AllEvents(lines), |AllEvents(lines)|))
    {
      hide Rebuilt, IdemCache.Valid;
      KnownPaths(cache);
      assert forall t: object :: t in TablesOf(cache.slots) ==> allocated(t);
      var cached := cache.Cached(path, size, head);
      if cached.Some? {
        SlotFits(cache);
        content := cache.described[path];
        if InjectiveDigest(p) && old(cache.Sound(p)) && Intact(p, lines) {
          MatchingHeadMeansFresh(p, content, lines);
        }
        return cached.value, content;
      }
      tables := CollectIdemTables(lines);
      content := lines;
      assert Fits(Slot(size, head, tables), lines);
      cache.Publish(path, size, head, tables, lines);
    }

    lemma KnownPaths(cache: IdemCache)
      requires cache.Valid()
      ensures cache.slots.Keys == cache.described.Keys
    {
    }

    lemma SlotFits(cache: IdemCache)
      requires cache.Valid() && path in cache.slots
      ensures path in cache.described && Fits(cache.slots[path], cache.described[path])
    {
    }

    /** The authoritative blocking check: index first, full scan when the index fails. */
    method LockedBlockingPriorId(p: Platform, cache: IdemCache, useIndex: bool, action: Text, key: Text) returns (check: Check)
      requires Valid() && cache.Valid()
      modifies cache
      ensures cache.Valid() && fresh(TablesOf(cache.slots) - old(TablesOf(cache.slots)))
      ensures old(cache.Sound(p)) && Intact(p, lines) ==> cache.Sound(p)
      ensures check.CheckCrashed? <==> useIndex && TailOf(lines).Crash?
      ensures check.Prior? && InjectiveDigest(p) && old(cache.Sound(p)) && Intact(p, lines) ==>
                check.id == Answered(p, useIndex, AllEvents(lines), action, key)
    {
      hide IdemCache.Valid, Rebuilt, Intact, BlockingId, IndexedBlocking, KeysTracked, Visible;
      if useIndex {
        if Intact(p, lines) {
          IntactTail(p, lines);
        }
        match TailOf(lines)
        case Crash => return CheckCrashed;
        case CorruptTail =>
        case Hash(head) =>
          var tables, content := TablesNow(p, cache, head);
          RebuiltIsTracked(AllEvents(content), |AllEvents(content)|);
          assert forall t: object :: t in TablesOf(cache.slots) ==> allocated(t);
          var id := IndexedBlockingPrior(p, tables.Value(), action, key);
          if InjectiveDigest(p) && old(cache.Sound(p)) && Intact(p, lines) {
            MatchingHeadAnswers(p, content, lines, action, key);
          }
          return Prior(id);
      }
      assert forall t: object :: t in TablesOf(cache.slots) ==> allocated(t);
      var scanned := ScanBlockingIdempotent(p, AllEvents(lines), action, key);
      check := Prior(scanned);
    }

    /** The tables that the unlocked queries may use: cached ones under the file's size and head. */
    method TablesForUnlockedPath(cache: IdemCache) returns (tables: Option<IdemTables>)
      requires Valid() && cache.Valid() && !TailOf(lines).Crash?
      ensures tables.Some? ==> path in cache.slots && tables.value == cache.slots[path].tables && TailOf(lines) == Hash(cache.slots[path].head)
    {
      match TailOf(lines)
      case CorruptTail => tables := None;
      case Hash(head) => tables := cache.Cached(path, size, head);
    }

    /** The unlocked completed query: the index when it describes the file, the scan otherwise. */
    method FindCompleted(p: Platform, cache: IdemCache, useIndex: bool, action: Text, key: Text) returns (found: Lookup)
      requires Valid() && cache.Valid()
      ensures found.LookupCrashed? <==> useIndex && TailOf(lines).Crash?
      ensures !useIndex ==> ScanReturns(AllEvents(lines), action, key, found.event)
      ensures found.Found? && InjectiveDigest(p) && cache.Sound(p) && Intact(p, lines) ==>
        ScanReturns(AllEvents(lines), action, key, found.event) || ReturnsPlace(AllEvents(lines), action, key, found.event)
    {
      hide IdemCache.Valid, Rebuilt, Intact, KeysTracked, ScanReturns, IndexPlace, KeyLookup;
      if useIndex {
        if TailOf(lines).Crash? {
          return LookupCrashed;
        }
        assert forall t: object :: t in TablesOf(cache.slots) ==> allocated(t);
        var tables := TablesForUnlockedPath(cache);
        if tables.Some? {
          SlotFits(cache);
          ghost var content := cache.described[path];
          RebuiltIsTracked(AllEvents(content), |AllEvents(content)|);
          var prior, event := IndexedCompletedPrior(tables.value.Value(), action, key);
          if InjectiveDigest(p) && cache.Sound(p) && Intact(p, lines) {
            MatchingHeadCompletes(p, content, lines, action, key, prior);
          }
          return Found(event);
        }
      }
      var scanned := ScanCompletedIdempotent(AllEvents(lines), action, key);
      found := Found(scanned);
    }

    /** The unlocked blocking query, likewise. */
    method FindBlocking(p: Platform, cache: IdemCache, useIndex: bool, action: Text, key: Text) returns (check: Check)
      requires Valid() && cache.Valid()
      ensures check.CheckCrashed? <==> useIndex && TailOf(lines).Crash?
      ensures !useIndex ==> check.id == BlockingId(p, AllEvents(lines), action, key)
      ensures check.Prior? && InjectiveDigest(p) && cache.Sound(p) && Intact(p, lines) ==>
        exists indexed :: check.id == Answered(p, indexed, AllEvents(lines), action, key)
    {
      hide IdemCache.Valid, Rebuilt, Intact, KeysTracked, IndexedBlocking, BlockingId, Visible;
      if useIndex {
        if TailOf(lines).Crash? {
          return CheckCrashed;
        }
        assert forall t: object :: t in TablesOf(cache.slots) ==> allocated(t);
        var tables := TablesForUnlockedPath(cache);
        if tables.Some? {
          SlotFits(cache);
          ghost var content := cache.described[path];
          RebuiltIsTracked(AllEvents(content), |AllEvents(content)|);
          var id := IndexedBlockingPrior(p, tables.value.Value(), action, key);
          if InjectiveDigest(p) && cache.Sound(p) && Intact(p, lines) {
            MatchingHeadAnswers(p, content, lines, action, key);
            assert id == Answered(p, true, AllEvents(lines), action, key);
          }
          return Prior(id);
        }
      }
      var scanned := ScanBlockingIdempotent(p, AllEvents(lines), action, key);
      assert scanned == Answered(p, false, AllEvents(lines), action, key);
      check := Prior(scanned);
    }

    lemma NotedIsSound(p: Platform, cache: IdemCache, before: map<Path, seq<Line>>, slots: Slots, head: Json, event: Event)
      requires forall q :: q in before ==> Intact(p, before[q])
      requires cache.described.Keys <= before.Keys
      requires forall q :: q in cache.described && q != path ==> cache.described[q] == before[q]
      requires path in cache.described ==>
                 cache.described[path] == before[path] + [Object(event)] && TailOf(before[path]) == Hash(head)
      requires Sealed(p, event, head)
      ensures cache.Sound(p)
    {
      hide Intact, Sealed, TailOf;
      if path in cache.described {
        IntactAppend(p, before[path], event);
      }
    }

    /** The common end of every append: write the line, then tell the index. */
    method Write(p: Platform, cache: IdemCache, event: Event, head: Json, width: Event -> nat)
      requires Valid() && cache.Valid() && TailOf(lines) == Hash(head)
      modifies this, cache, TablesOf(cache.slots)
      ensures Valid() && cache.Valid() && TablesOf(cache.slots) <= old(TablesOf(cache.slots))
      ensures lines == old(lines) + [Object(event)] && size == old(size) + width(event) + 1
      ensures old(cache.Sound(p)) && Sealed(p, event, head) ==> cache.Sound(p)
      ensures Intact(p, old(lines)) && Sealed(p, event, head) ==> Intact(p, lines)
    {
      hide IdemCache.Valid, Intact, Sealed, TailOf;
      KnownPaths(cache);
      assert forall t: object :: t in TablesOf(cache.slots) ==> allocated(t) && t != this;
      ghost var before, slots := cache.described, cache.slots;
      if path in cache.slots {
        SlotFits(cache);
      }
      var sizeBefore := size;
      if Intact(p, lines) && Sealed(p, event, head) {
        IntactAppend(p, lines, event);
      }
      lines, size := lines + [Object(event)], size + width(event) + 1;
      cache.NoteAppend(path, event, sizeBefore, head, size);
      if old(cache.Sound(p)) && Sealed(p, event, head) {
        NotedIsSound(p, cache, before, slots, head, event);
      }
    }

    /** Reads the tail, builds the event on top of it and appends it. */
    method AppendEvent(p: Platform, cache: IdemCache, build: Json -> Event, width: Event -> nat) returns (r: Append)
      requires Valid() && cache.Valid()
      modifies this, cache, TablesOf(cache.slots)
      ensures Valid() && cache.Valid() && fresh(TablesOf(cache.slots) - old(TablesOf(cache.slots)))
      ensures r.Appended? <==> TailOf(old(lines)).Hash?
      ensures r.Appended? ==>
        && r.event == build(TailOf(old(lines)).head) && lines == old(lines) + [Object(r.event)]
        && size == old(size) + width(r.event) + 1
      ensures !r.Appended? ==> lines == old(lines) && size == old(size)
      ensures old(cache.Sound(p)) && (r.Appended? ==> Sealed(p, r.event, TailOf(old(lines)).head)) ==> cache.Sound(p)
      ensures Intact(p, old(lines)) && (r.Appended? ==> Sealed(p, r.event, TailOf(old(lines)).head)) ==> Intact(p, lines)
    {
      hide IdemCache.Valid, Intact, Sealed, TailOf;
      match TailOf(lines)
      case Crash => r := AppendCrashed;
      case CorruptTail => r := JournalError;
      case Hash(head) =>
        var event := build(head);
        Write(p, cache, event, head, width);
        r := Appended(event);
    }

    /** Counts the file and reads its tail, builds a checkpoint of both and appends it. */
    method AppendCheckpoint(p: Platform, cache: IdemCache, build: (nat, Json) -> Event, width: Event -> nat) returns (r: Append)
      requires Valid() && cache.Valid()
      modifies this, cache, TablesOf(cache.slots)
      ensures Valid() && cache.Valid() && fresh(TablesOf(cache.slots) - old(TablesOf(cache.slots)))
      ensures r.Appended? <==> TailOf(old(lines)).Hash?
      ensures r.Appended? ==>
        && r.event == build(NonBlank(old(lines)), TailOf(old(lines)).head) && lines == old(lines) + [Object(r.event)]
        && size == old(size) + width(r.event) + 1
      ensures r.Appended? && Intact(p, old(lines)) ==>
        r.event == build(|AllEvents(old(lines))|, Head(AllEvents(old(lines))))
      ensures !r.Appended? ==> lines == old(lines) && size == old(size)
      ensures old(cache.Sound(p)) && (r.Appended? ==> Sealed(p, r.event, TailOf(old(lines)).head)) ==> cache.Sound(p)
      ensures Intact(p, old(lines)) && (r.Appended? ==> Sealed(p, r.event, TailOf(old(lines)).head)) ==> Intact(p, lines)
    {
      hide IdemCache.Valid, Sealed, TailOf, NonBlank;
      assert forall t: object :: t in TablesOf(cache.slots) ==> allocated(t);
      var count := CountLines(lines);
      if Intact(p, lines) {
        IntactTail(p, lines);
        IntactCount(p, lines);
      }
      match TailOf(lines)
      case Crash => r := AppendCrashed;
      case CorruptTail => r := JournalError;
      case Hash(head) =>
        var event := build(count, head);
        Write(p, cache, event, head, width);
        r := Appended(event);
    }

    /** Checks the key and appends under one lock: the builder is told which decision of
        this very file blocks the key. */
    method AppendEventAtomic(p: Platform, cache: IdemCache, useIndex: bool, build: (Json, Option<Text>) -> Event, width: Event -> nat,
                             action: Option<Text>, key: Option<Text>)
      returns (r: Append, blocking: Option<Text>)
      requires Valid() && cache.Valid()
      modifies this, cache, TablesOf(cache.slots)
      ensures Valid() && cache.Valid() && fresh(TablesOf(cache.slots) - old(TablesOf(cache.slots)))
      ensures r.Appended? <==> TailOf(old(lines)).Hash?
      ensures r.Appended? ==>
        && r.event == build(TailOf(old(lines)).head, blocking) && lines == old(lines) + [Object(r.event)]
        && size == old(size) + width(r.event) + 1
      ensures action.None? || key.None? ==> blocking == None
      ensures r.Appended? && action.Some? && key.Some? && InjectiveDigest(p) && old(cache.Sound(p)) && Intact(p, old(lines)) ==>
                blocking == Answered(p, useIndex, AllEvents(old(lines)), action.value, key.value)
      ensures !r.Appended? ==> lines == old(lines) && size == old(size)
      ensures old(cache.Sound(p)) && Intact(p, old(lines)) && (r.Appended? ==> Sealed(p, r.event, TailOf(old(lines)).head)) ==>
                cache.Sound(p) && Intact(p, lines)
    {
      hide IdemCache.Valid, Intact, Sealed, TailOf, Answered, IdemCache.Sound;
      blocking := None;
      if action.Some? && key.Some? {
        var check := LockedBlockingPriorId(p, cache, useIndex, action.value, key.value);
        if check.CheckCrashed? {
          return AppendCrashed, None;
        }
        blocking := check.id;
      }
      match TailOf(lines)
      case Crash => r := AppendCrashed;
      case CorruptTail => r := JournalError;
      case Hash(head) =>
        var event := build(head, blocking);
        Write(p, cache, event, head, width);
        r := Appended(event);
    }
  }
}
