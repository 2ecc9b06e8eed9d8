/** The operator's commands on a journal file: resolve, checkpoint, countersign. What
    each of them appends is a step of the honest writer. */
module Operators {
  import opened Evidence
  import opened Writer
  import opened Verification
  import opened JournalContent
  import opened Facts
  import opened IdempotencyCache
  import Acceptance
  import Recorded

  /** What a signer brings: a fresh id, a trusted key and signatures that check. */
  ghost predicate Honest(p: Platform, trusted: Keyring, stamp: Stamp, sign: Event -> Text, journal: seq<Event>) {
    && stamp.keyId in trusted && Fresh(stamp.id, journal)
    && forall payload :: p.checks(stamp.keyId, p.digest(payload), sign(payload))
  }

  /** The event built on top of `previous` from fields fixed beforehand. */
  function Build(p: Platform, b: Body, fields: Event, stamp: Stamp, sign: Event -> Text, previous: Json): Event {
    var payload := fields + Base(b, stamp, previous);
    Finalize(p, payload, sign(payload))
  }

  /** The event says what it was built from, and where it was appended by whom. */
  lemma BuildReads(p: Platform, b: Body, fields: Event, stamp: Stamp, sign: Event -> Text, previous: Json)
    ensures var e := Build(p, b, fields, stamp, sign, previous);
      && (forall f :: f !in BASE && f != EventHash && f != Signature ==> Get(e, f) == Get(fields, f))
      && KindOf(e) == W(KindWord(b)) && Get(e, EventId) == Str(stamp.id) && Get(e, KeyId) == Str(stamp.keyId)
      && Get(e, TimestampUtc) == Str(stamp.time) && Get(e, PreviousEventHash) == previous
  {
    assert Base(b, stamp, previous).Keys == BASE;
  }

  /** The command may append, and these are the fields it appends. */
  predicate Fitting(body: Body, fields: Event, stamp: Stamp, journal: seq<Event>) {
    Enabled(body, stamp, journal) && fields == BodyFields(body, stamp, journal)
  }

  /** Appends one event whose fields were fixed beforehand. */
  method AppendSealed(p: Platform, ghost trusted: Keyring, file: FileJournal, cache: IdemCache, body: Body, fields: Event,
                      stamp: Stamp, sign: Event -> Text, width: Event -> nat) returns (r: Append, entry: Entry)
    requires file.Valid() && cache.Valid()
    modifies file, cache, TablesOf(cache.slots)
    ensures file.Valid() && cache.Valid()
    ensures r.Appended? <==> TailOf(old(file.lines)).Hash?
    ensures r.Appended? ==> file.lines == old(file.lines) + [Object(r.event)]
    ensures r.Appended? ==>
      var head := TailOf(old(file.lines)).head;
      r.event == Build(p, body, fields, stamp, sign, head) && entry == Entry(stamp, body, sign(fields + Base(body, stamp, head)))
    ensures !r.Appended? ==> file.lines == old(file.lines)
    ensures entry.body == body
    ensures r.Appended? && Intact(p, old(file.lines)) ==>
      var es := AllEvents(old(file.lines));
      Honest(p, trusted, stamp, sign, es) && Fitting(body, fields, stamp, es) ==> WrittenAs(p, trusted, es, r.event, entry)
  {
    hide IdemCache.Valid, Intact, TailOf, Honest, WrittenAs, Finalize, Base, Fitting;
    ghost var es := AllEvents(file.lines);
    var tail := TailOf(file.lines);
    r := file.AppendEvent(p, cache, previous => Build(p, body, fields, stamp, sign, previous), width);
    entry := Entry(stamp, body, if tail.Hash? then sign(fields + Base(body, stamp, tail.head)) else Other(""));
    if r.Appended? && Intact(p, old(file.lines)) && Honest(p, trusted, stamp, sign, es) && Fitting(body, fields, stamp, es) {
      IntactTail(p, old(file.lines));
      FittingIsWritten(p, trusted, body, fields, stamp, sign, es);
    }
  }

  lemma FittingIsWritten(p: Platform, trusted: Keyring, b: Body, fields: Event, stamp: Stamp, sign: Event -> Text, journal: seq<Event>)
    requires Fitting(b, fields, stamp, journal) && Honest(p, trusted, stamp, sign, journal)
    ensures WrittenAs(p, trusted, journal, Build(p, b, fields, stamp, sign, Head(journal)),
                      Entry(stamp, b, sign(fields + Base(b, stamp, Head(journal)))))
  {
    hide Base, Finalize, Fresh;
    assert fields + Base(b, stamp, Head(journal)) == Payload(b, stamp, journal);
  }

  // ---- Resolve ---------------------------------------------------------

  predicate IsDecisionUnder(e: Event, id: Text) {
    KindOf(e) == W(DECISION) && Get(e, EventId) == Str(id)
  }

  function FirstUnder(es: seq<Event>, id: Text, from: nat := 0): (d: Option<nat>)
    requires from <= |es|
    ensures d.Some? ==> from <= d.value < |es| && KindOf(es[d.value]) == W(DECISION) && Get(es[d.value], EventId) == Str(id)
    ensures forall i :: from <= i < (if d.Some? then d.value else |es|) ==>
      !(KindOf(es[i]) == W(DECISION) && Get(es[i], EventId) == Str(id))
    decreases |es| - from
  {
    if from == |es| then None
    else if IsDecisionUnder(es[from], id) then Some(from)
    else FirstUnder(es, id, from + 1)
  }

  /** The first decision event under an id; lines that do not parse are skipped. */
  method FindDecision(lines: seq<Line>, id: Text) returns (d: Option<nat>)
    ensures d == FirstUnder(AllEvents(lines), id)
  {
    hide KindOf;
    ghost var es := AllEvents(lines);
    var at := 0;
    for i := 0 to |lines|
      invariant Events(lines, i) <= es && at == |Events(lines, i)|
      invariant forall j :: 0 <= j < at ==> !IsDecisionUnder(es[j], id)
    {
      EventsAreEarlier(lines, i + 1);
      match lines[i]
      case Object(event) =>
        assert es[at] == event;
        if IsDecisionUnder(event, id) {
          return Some(at);
        }
        at := at + 1;
      case _ =>
    }
    d := None;
  }

  lemma {:induction false} EventsAreEarlier(lines: seq<Line>, n: nat)
    requires n <= |lines|
    ensures Events(lines, n) <= AllEvents(lines)
    decreases |lines| - n
  {
    if n < |lines| {
      EventsAreEarlier(lines, n + 1);
    }
  }

  datatype Resolution =
    | BadValue | UnknownDecision | NotAllowed | WasDryRun | ResolutionFailed
    | Resolved(event: Event, entry: Entry, d: nat)

  const MAX_NOTE: nat := 1000

  function ShortNote(note: string): (short: string)
    ensures |note| <= MAX_NOTE ==> short == note
    ensures |note| > MAX_NOTE ==> |short| == MAX_NOTE && short[..MAX_NOTE - 1] <= note && short[MAX_NOTE - 1] == '\U{2026}'
  {
    if |note| > MAX_NOTE then note[..MAX_NOTE - 1] + "\U{2026}" else note
  }

  /** The resolution of a decision: its action, and the note cut to length. */
  function ResolutionOf(decision: Event, id: Text, value: Text, note: string): Body
    requires {ActionId, ActionName, ContractHash} <= decision.Keys
  {
    ResolutionBody(decision[ActionId], decision[ActionName], decision[ContractHash], id,
                   value == Known(CONFIRMED_COMPLETED), Other(ShortNote(note)))
  }

  /** The event is this resolution of the decision: who, what and why. */
  predicate SaysResolution(e: Event, decision: Event, id: Text, value: Text, note: string) {
    && KindOf(e) == W(RESOLUTION) && Get(e, DecisionEventId) == Str(id) && Get(e, ResolutionValue) == Str(value)
    && Get(e, ActionId) == Get(decision, ActionId) && Get(e, ActionName) == Get(decision, ActionName)
    && Get(e, ContractHash) == Get(decision, ContractHash)
    && Get(e, Note) == Str(Other(ShortNote(note)))
  }

  lemma NoneIsBase()
    ensures BASE !! {DecisionEventId, ResolutionValue, ActionId, ActionName, ContractHash, Note}
  {
  }

  lemma ResolutionNames(decision: Event, id: Text, value: Text, note: string)
    requires {ActionId, ActionName, ContractHash} <= decision.Keys
    ensures var body := ResolutionOf(decision, id, value, note);
      && body.ResolutionBody? && body.actionId == Get(decision, ActionId) && body.actionName == Get(decision, ActionName)
      && body.contractHash == Get(decision, ContractHash) && body.decisionId == id && body.note == Other(ShortNote(note))
      && body.completed == (value == Known(CONFIRMED_COMPLETED))
  {
  }

  lemma ResolutionSaid(p: Platform, decision: Event, id: Text, value: Text, note: string,
                       stamp: Stamp, sign: Event -> Text, previous: Json)
    requires {ActionId, ActionName, ContractHash} <= decision.Keys
    requires value == Known(CONFIRMED_COMPLETED) || value == Known(CONFIRMED_NOT_COMPLETED)
    ensures var body := ResolutionOf(decision, id, value, note);
      SaysResolution(Build(p, body, ResolutionFields(body), stamp, sign, previous), decision, id, value, note)
  {
    hide Build, ShortNote, ResolutionFields, Get, BASE, ResolutionOf;
    ResolutionNames(decision, id, value, note);
    var body := ResolutionOf(decision, id, value, note);
    BuildReads(p, body, ResolutionFields(body), stamp, sign, previous);
    Recorded.ResolutionFieldsRead(body);
    NoneIsBase();
  }

  /** Appends a signed resolution for an allowed decision that really executed. Others
      append `slipped` between the lookup and the append. */
  method ResolveJournal(p: Platform, ghost trusted: Keyring, file: FileJournal, cache: IdemCache, id: Text, value: Text, note: string,
                        slipped: seq<Event>, stamp: Stamp, sign: Event -> Text, width: Event -> nat) returns (r: Resolution)
    requires file.Valid() && cache.Valid()
    modifies file, cache, TablesOf(cache.slots)
    ensures file.Valid() && cache.Valid()
    ensures r.BadValue? <==> value != Known(CONFIRMED_COMPLETED) && value != Known(CONFIRMED_NOT_COMPLETED)
    ensures var es := AllEvents(old(file.lines)); var d := FirstUnder(es, id);
      !r.BadValue? ==>
        && (r.UnknownDecision? <==> d.None?)
        && (r.NotAllowed? <==> d.Some? && Get(es[d.value], Verdict) != W(ALLOWED))
        && (r.WasDryRun? <==> d.Some? && Get(es[d.value], Verdict) == W(ALLOWED) && Get(es[d.value], DryRun) == Bool(true))
    ensures !r.Resolved? ==> file.lines == old(file.lines) || file.lines == old(file.lines) + Appendix(slipped)
    ensures r.Resolved? ==>
      var es, before := AllEvents(old(file.lines)), old(file.lines) + Appendix(slipped); var d := FirstUnder(es, id);
      && d.Some? && {ActionId, ActionName, ContractHash} <= es[d.value].Keys
      && r.d == d.value && r.entry.body == ResolutionOf(es[d.value], id, value, note)
      && TailOf(before).Hash? && file.lines == before + [Object(r.event)]
      && r.event == Build(p, r.entry.body, ResolutionFields(r.entry.body), stamp, sign, TailOf(before).head)
      && SaysResolution(r.event, es[d.value], id, value, note)
    ensures r.Resolved? && Intact(p, old(file.lines) + Appendix(slipped)) ==>
      var es := AllEvents(old(file.lines) + Appendix(slipped));
      Honest(p, trusted, stamp, sign, es) ==> WrittenAs(p, trusted, es, r.event, r.entry)
  {
    hide IdemCache.Valid, Intact, TailOf, Honest, WrittenAs, ResolutionFields, AllEvents, IsDecisionUnder, Build, SaysResolution;
    if value != Known(CONFIRMED_COMPLETED) && value != Known(CONFIRMED_NOT_COMPLETED) {
      return BadValue;
    }
    var d := FindDecision(file.lines, id);
    if d.None? {
      return UnknownDecision;
    }
    var decision := AllEvents(file.lines)[d.value];
    if Get(decision, Verdict) != W(ALLOWED) {
      return NotAllowed;
    }
    if Get(decision, DryRun) == Bool(true) {
      return WasDryRun;
    }
    OthersAppend(file, cache, slipped, width);
    if !({ActionId, ActionName, ContractHash} <= decision.Keys) {
      return ResolutionFailed;
    }
    var body := ResolutionOf(decision, id, value, note);
    assert forall t: object :: t in TablesOf(cache.slots) ==> allocated(t);
    ghost var tail := TailOf(file.lines);
    var appended, entry := AppendSealed(p, trusted, file, cache, body, ResolutionFields(body), stamp, sign, width);
    if !appended.Appended? {
      return ResolutionFailed;
    }
    ResolutionSaid(p, decision, id, value, note, stamp, sign, tail.head);
    r := Resolved(appended.event, entry, d.value);
  }

  // ---- Checkpoint ------------------------------------------------------

  function CheckpointFields(count: nat, head: Json): Event {
    map[CheckpointCount := Num(count), HeadSha256 := head]
  }

  /** The event commits to this many events and this head. */
  predicate SaysCheckpoint(e: Event, count: nat, head: Json) {
    KindOf(e) == W(CHECKPOINT) && Get(e, CheckpointCount) == Num(count) && Get(e, HeadSha256) == head
  }

  lemma CheckpointSaid(p: Platform, count: nat, head: Json, stamp: Stamp, sign: Event -> Text)
    ensures SaysCheckpoint(Build(p, CheckpointBody, CheckpointFields(count, head), stamp, sign, head), count, head)
  {
    hide Build;
    BuildReads(p, CheckpointBody, CheckpointFields(count, head), stamp, sign, head);
  }

  /** Appends a checkpoint of the file as it stands; the event itself is the witness. */
  method CheckpointJournal(p: Platform, ghost trusted: Keyring, file: FileJournal, cache: IdemCache,
                           stamp: Stamp, sign: Event -> Text, width: Event -> nat) returns (r: Append, entry: Entry, shipped: WitnessFile)
    requires file.Valid() && cache.Valid()
    modifies file, cache, TablesOf(cache.slots)
    ensures file.Valid() && cache.Valid()
    ensures r.Appended? ==> file.lines == old(file.lines) + [Object(r.event)] && shipped == Witness(r.event)
    ensures r.Appended? <==> TailOf(old(file.lines)).Hash?
    ensures r.Appended? ==> SaysCheckpoint(r.event, NonBlank(old(file.lines)), TailOf(old(file.lines)).head)
    ensures !r.Appended? ==> file.lines == old(file.lines) && shipped == NoWitness
    ensures entry.body == CheckpointBody
    ensures r.Appended? && Intact(p, old(file.lines)) ==>
      var es := AllEvents(old(file.lines));
      Honest(p, trusted, stamp, sign, es) ==> WrittenAs(p, trusted, es, r.event, entry)
  {
    hide IdemCache.Valid, Intact, TailOf, Honest, WrittenAs, Finalize, Base, NonBlank, SaysCheckpoint;
    ghost var es := AllEvents(file.lines);
    var tail := TailOf(file.lines);
    var count := CountLines(file.lines);
    assert forall t: object :: t in TablesOf(cache.slots) ==> allocated(t);
    r := file.AppendCheckpoint(
      p, cache, (n: nat, previous: Json) => Build(p, CheckpointBody, CheckpointFields(n, previous), stamp, sign, previous), width);
    entry := Entry(stamp, CheckpointBody,
                   if tail.Hash? then sign(CheckpointFields(count, tail.head) + Base(CheckpointBody, stamp, tail.head)) else Other(""));
    shipped := if r.Appended? then Witness(r.event) else NoWitness;
    CheckpointSaid(p, count, if tail.Hash? then tail.head else Null, stamp, sign);
    if r.Appended? && Intact(p, old(file.lines)) && Honest(p, trusted, stamp, sign, es) {
      IntactTail(p, old(file.lines));
      CountIsLength(p, old(file.lines));
      FittingIsWritten(p, trusted, CheckpointBody, CheckpointFields(|es|, Head(es)), stamp, sign, es);
    }
  }

  lemma CountIsLength(p: Platform, lines: seq<Line>)
    requires Intact(p, lines)
    ensures NonBlank(lines) == |AllEvents(lines)|
  {
    IntactCount(p, lines);
  }

  // ---- Countersign -----------------------------------------------------

  /** Where the last checkpoint event stands; lines that do not parse are skipped. */
  method NewestCheckpoint(lines: seq<Line>) returns (newest: Option<nat>)
    ensures newest == NewestAt(AllEvents(lines))
  {
    ghost var es := AllEvents(lines);
    var at := 0;
    newest := None;
    for i := 0 to |lines|
      invariant Events(lines, i) <= es && at == |Events(lines, i)|
      invariant newest == NewestAt(es[..at])
    {
      EventsAreEarlier(lines, i + 1);
      match lines[i]
      case Object(event) =>
        assert es[..at + 1][..at] == es[..at];
        if KindOf(event) == W(CHECKPOINT) {
          newest := Some(at);
        }
        at := at + 1;
      case _ =>
    }
    assert es[..at] == es;
  }

  function NewestAt(es: seq<Event>): (newest: Option<nat>)
    ensures newest.Some? ==> newest.value < |es| && KindOf(es[newest.value]) == W(CHECKPOINT)
    ensures forall i :: (if newest.Some? then newest.value + 1 else 0) <= i < |es| ==> KindOf(es[i]) != W(CHECKPOINT)
  {
    if es == [] then None
    else if KindOf(es[|es| - 1]) == W(CHECKPOINT) then Some(|es| - 1)
    else NewestAt(es[..|es| - 1])
  }

  datatype Countersignature =
    | NoCheckpoint | CountersignFailed
    | Countersigned(event: Event, entry: Entry, superseded: bool)

  /** What a countersignature says of a checkpoint. */
  function CountersignatureFields(p: Platform, checkpoint: Event): Event
    requires {EventId, CheckpointCount, HeadSha256} <= checkpoint.Keys
  {
    map[CheckpointEventId := Str(p.show(checkpoint[EventId])), CheckpointCount := checkpoint[CheckpointCount],
        HeadSha256 := checkpoint[HeadSha256]]
  }

  lemma CountersignatureFits(p: Platform, es: seq<Event>, more: seq<Event>, c: nat, stamp: Stamp)
    requires c < |es| && KindOf(es[c]) == W(CHECKPOINT) && {EventId, CheckpointCount, HeadSha256} <= es[c].Keys
    requires ShowsTexts(p) && IsText(es[c][EventId])
    ensures Fitting(CountersignatureBody(c), CountersignatureFields(p, es[c]), stamp, es + more)
  {
    assert (es + more)[c] == es[c];
  }

  /** The whole effect of a countersignature, honest or not. */
  ghost predicate CountersignedAs(p: Platform, lines: seq<Line>, slipped: seq<Event>, later: seq<Event>, stamp: Stamp, sign: Event -> Text,
                                  r: Countersignature, after: seq<Line>)
    requires r.Countersigned?
  {
    var es, before := AllEvents(lines), lines + Appendix(slipped); var newest := NewestAt(es);
    && newest.Some? && {EventId, CheckpointCount, HeadSha256} <= es[newest.value].Keys && TailOf(before).Hash?
    && after == before + [Object(r.event)] + Appendix(later)
    && var head, body, fields := TailOf(before).head, CountersignatureBody(newest.value), CountersignatureFields(p, es[newest.value]);
    && r.event == Build(p, body, fields, stamp, sign, head)
    && r.entry == Entry(stamp, body, sign(fields + Base(body, stamp, head)))
    && SaysCountersignature(p, r.event, es[newest.value])
    && (r.superseded <==> Supersedes(p, AllEvents(after), es[newest.value]))
  }

  /** The event names this checkpoint and repeats its count and head. */
  predicate SaysCountersignature(p: Platform, e: Event, checkpoint: Event) {
    && KindOf(e) == W(COUNTERSIGNATURE) && Get(e, CheckpointEventId) == Str(p.show(Get(checkpoint, EventId)))
    && Get(e, CheckpointCount) == Get(checkpoint, CheckpointCount) && Get(e, HeadSha256) == Get(checkpoint, HeadSha256)
  }

  lemma CountersignatureSaid(p: Platform, checkpoint: Event, c: nat, stamp: Stamp, sign: Event -> Text, previous: Json)
    requires {EventId, CheckpointCount, HeadSha256} <= checkpoint.Keys
    ensures SaysCountersignature(
      p, Build(p, CountersignatureBody(c), CountersignatureFields(p, checkpoint), stamp, sign, previous), checkpoint)
  {
    hide Build;
    BuildReads(p, CountersignatureBody(c), CountersignatureFields(p, checkpoint), stamp, sign, previous);
  }

  /** With an honest signer, on hash-chained content, it is a step of the honest writer. */
  lemma CountersignedIsWritten(p: Platform, trusted: Keyring, lines: seq<Line>, slipped: seq<Event>, later: seq<Event>,
                               stamp: Stamp, sign: Event -> Text, r: Countersignature, after: seq<Line>)
    requires r.Countersigned? && CountersignedAs(p, lines, slipped, later, stamp, sign, r, after)
    requires ShowsTexts(p) && Intact(p, lines + Appendix(slipped))
    requires Honest(p, trusted, stamp, sign, AllEvents(lines) + slipped)
    requires IsText(Get(AllEvents(lines)[NewestAt(AllEvents(lines)).value], EventId))
    ensures AllEvents(lines + Appendix(slipped)) == AllEvents(lines) + slipped
    ensures WrittenAs(p, trusted, AllEvents(lines) + slipped, r.event, r.entry)
  {
    hide Intact, TailOf, Honest, WrittenAs, AllEvents, Build, CountersignatureFields, Fitting, Supersedes, NewestAt;
    AppendixEvents(lines, slipped);
    IntactTail(p, lines + Appendix(slipped));
    var es, c := AllEvents(lines), NewestAt(AllEvents(lines)).value;
    CountersignatureFits(p, es, slipped, c, stamp);
    FittingIsWritten(p, trusted, CountersignatureBody(c), CountersignatureFields(p, es[c]), stamp, sign, es + slipped);
  }

  /** Countersigns the newest checkpoint. Others append `slipped` between the lookup
      and the append, and `later` between the append and the second lookup. */
  method CountersignJournal(p: Platform, ghost trusted: Keyring, file: FileJournal, cache: IdemCache,
                            slipped: seq<Event>, later: seq<Event>,
                            stamp: Stamp, sign: Event -> Text, width: Event -> nat) returns (r: Countersignature)
    requires file.Valid() && cache.Valid()
    modifies file, cache, TablesOf(cache.slots)
    ensures file.Valid() && cache.Valid()
    ensures r.NoCheckpoint? <==> NewestAt(AllEvents(old(file.lines))).None?
    ensures r.Countersigned? ==> CountersignedAs(p, old(file.lines), slipped, later, stamp, sign, r, file.lines)
  {
    hide IdemCache.Valid, Intact, TailOf, Honest, WrittenAs, AllEvents, Build, CountersignatureFields, Fitting, NewestAt, Base,
         SaysCountersignature;
    assert forall t: object :: t in TablesOf(cache.slots) ==> allocated(t);
    var newest := NewestCheckpoint(file.lines);
    if newest.None? {
      return NoCheckpoint;
    }
    ghost var lines := file.lines;
    var checkpoint := AllEvents(file.lines)[newest.value];
    if !({EventId, CheckpointCount, HeadSha256} <= checkpoint.Keys) {
      return CountersignFailed;
    }
    OthersAppend(file, cache, slipped, width);
    assert forall t: object :: t in TablesOf(cache.slots) ==> allocated(t);
    ghost var tail := TailOf(file.lines);
    var appended, entry := AppendSealed(p, trusted, file, cache, CountersignatureBody(newest.value),
                                        CountersignatureFields(p, checkpoint), stamp, sign, width);
    if !appended.Appended? {
      return CountersignFailed;
    }
    CountersignatureSaid(p, checkpoint, newest.value, stamp, sign, tail.head);
    OthersAppend(file, cache, later, width);
    assert forall t: object :: t in TablesOf(cache.slots) ==> allocated(t);
    var latest := NewestCheckpoint(file.lines);
    var superseded := latest.None? || p.show(Get(AllEvents(file.lines)[latest.value], EventId)) != p.show(checkpoint[EventId]);
    r := Countersigned(appended.event, entry, superseded);
  }

  /** Other processes append; this process's cache does not notice. */
  method OthersAppend(file: FileJournal, cache: IdemCache, events: seq<Event>, width: Event -> nat)
    requires file.Valid() && cache.Valid()
    modifies file
    ensures file.Valid() && cache.Valid()
    ensures file.lines == old(file.lines) + Appendix(events)
  {
    hide IdemCache.Valid;
    assert forall t: object :: t in TablesOf(cache.slots) ==> allocated(t);
    file.lines, file.size := file.lines + Appendix(events), file.size + Width(events, width);
  }

  /** The newest checkpoint of the file is another one than `checkpoint`. */
  predicate Supersedes(p: Platform, es: seq<Event>, checkpoint: Event) {
    NewestAt(es).None? || p.show(Get(es[NewestAt(es).value], EventId)) != p.show(Get(checkpoint, EventId))
  }

  /** The newest checkpoint is the last event of that kind. */
  lemma {:induction false} NewestMeans(es: seq<Event>, n: nat)
    ensures NewestAt(es) == Some(n) <==>
      n < |es| && KindOf(es[n]) == W(CHECKPOINT) && forall i :: n < i < |es| ==> KindOf(es[i]) != W(CHECKPOINT)
  {
    if es != [] {
      NewestMeans(es[..|es| - 1], n);
    }
  }

  /** The warning is given exactly when others added a checkpoint in the meantime. */
  lemma SupersededMeans(p: Platform, trusted: Keyring, es: seq<Event>, slipped: seq<Event>, e: Event, later: seq<Event>)
    requires ShowsTexts(p)
    requires Produced(p, trusted, es + slipped + [e] + later) && NewestAt(es).Some? && KindOf(e) != W(CHECKPOINT)
    ensures Supersedes(p, es + slipped + [e] + later, es[NewestAt(es).value])
            <==> NewestAt(slipped).Some? || NewestAt(later).Some?
  {
    hide Produced, NewestAt, KindOf;
    var all, c := es + slipped + [e] + later, NewestAt(es).value;
    NewestPast(es + slipped, e);
    NewestOfSum(es, slipped);
    NewestOfSum(es + slipped + [e], later);
    assert all[c] == es[c];
    if NewestAt(slipped).Some? || NewestAt(later).Some? {
      var n := NewestAt(all).value;
      ProducedIdsDistinct(p, trusted, all, c, n);
      Acceptance.ProducedIdIsText(p, trusted, all, c);
      Acceptance.ProducedIdIsText(p, trusted, all, n);
    }
  }

  lemma NewestPast(es: seq<Event>, e: Event)
    requires KindOf(e) != W(CHECKPOINT)
    ensures NewestAt(es + [e]) == NewestAt(es)
  {
    assert (es + [e])[..|es|] == es;
  }

  lemma {:induction false} NewestOfSum(es: seq<Event>, more: seq<Event>)
    ensures NewestAt(es + more) == if NewestAt(more).Some? then Some(|es| + NewestAt(more).value) else NewestAt(es)
  {
    if more == [] {
      assert es + more == es;
    } else {
      NewestOfSum(es, more[..|more| - 1]);
      assert (es + more)[..|es + more| - 1] == es + more[..|more| - 1];
    }
  }

  /** How many bytes the lines of these events take. */
  function Width(es: seq<Event>, width: Event -> nat): (bytes: nat)
    ensures bytes == 0 <==> es == []
  {
    if es == [] then 0 else Width(es[..|es| - 1], width) + width(es[|es| - 1]) + 1
  }

  function Appendix(es: seq<Event>): (lines: seq<Line>)
    ensures |lines| == |es| && forall i :: 0 <= i < |es| ==> lines[i] == Object(es[i])
  {
    seq(|es|, i requires 0 <= i < |es| => Object(es[i]))
  }

  lemma {:induction false} AppendixEvents(lines: seq<Line>, es: seq<Event>)
    ensures AllEvents(lines + Appendix(es)) == AllEvents(lines) + es
  {
    if es == [] {
      assert lines + Appendix(es) == lines;
    } else {
      var before, last := es[..|es| - 1], es[|es| - 1];
      AppendixEvents(lines, before);
      EventsAppend(lines + Appendix(before), last);
      assert lines + Appendix(es) == lines + Appendix(before) + [Object(last)];
      assert AllEvents(lines) + before + [last] == AllEvents(lines) + es;
    }
  }
}
