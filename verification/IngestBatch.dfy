/** Batch ingest: deliveries queue a batch file, cycles turn files into stored events and journal
    rows, replays store again. Any write can be the last before a failure or a crash. */
module IngestBatch {
  import opened Common

  // ------------------------------------------------------------------
  // File keys
  // ------------------------------------------------------------------

  predicate IsSpace(c: char) { c == ' ' || c == '\t' || c == '\n' || c == '\r' }

  predicate IsSafe(c: char) {
    ('a' <= c <= 'z') || ('A' <= c <= 'Z') || ('0' <= c <= '9') || c == '-' || c == '_'
  }

  function TrimLeft(s: string): string {
    if s != "" && IsSpace(s[0]) then TrimLeft(s[1..]) else s
  }

  function TrimRight(s: string): string {
    if s != "" && IsSpace(Last(s)) then TrimRight(Front(s)) else s
  }

  function Trim(s: string): string { TrimRight(TrimLeft(s)) }

  function Mask(c: char): char {
    if IsSafe(c) then c else '_'
  }

  function Masked(s: string): string {
    seq(|s|, i requires 0 <= i < |s| => Mask(s[i]))
  }

  /** The file name an id is stored under: unsafe characters become underscores. */
  function SafeComponent(s: string): string {
    if Trim(s) == "" then "unknown" else Masked(Trim(s))
  }

  function OrUnknown(s: string): string {
    if Trim(s) == "" then "unknown" else Trim(s)
  }

  // ------------------------------------------------------------------
  // Batches and their events
  // ------------------------------------------------------------------

  /** An entry of a batch payload. `time` is None when it is not a number. */
  datatype RawEvent =
    | NotAnObject
    | RawEvent(id: string, side: string, time: Option<int>, micro: nat, macro: nat)

  datatype Record = Record(batchId: string, events: seq<RawEvent>)

  datatype Event = Event(batchId: string, id: string, order: nat, time: int, side: Side, micro: nat, macro: nat)

  function Lower(s: string): string {
    seq(|s|, i requires 0 <= i < |s| => if 'A' <= s[i] <= 'Z' then (s[i] as int + 32) as char else s[i])
  }

  /** Anything that is not a sale counts as long. */
  function NormalizeEventSide(side: string): Side {
    var cleaned := Lower(Trim(side));
    if cleaned == "sell" || cleaned == "short" then Short else Long
  }

  function NormalizeOne(r: Record, i: nat): Event
    requires i < |r.events| && r.events[i].RawEvent? && r.events[i].time.Some?
  {
    var e := r.events[i];
    Event(r.batchId, e.id, i, e.time.value, NormalizeEventSide(e.side), e.micro, e.macro)
  }

  /** The normalized events of the first `n` entries, or None when a time is not a number. */
  function Normalize(r: Record, n: nat): Option<seq<Event>>
    requires n <= |r.events|
  {
    if n == 0 then Some([]) else
    var before := Normalize(r, n - 1);
    var e := r.events[n - 1];
    if before.None? || e.NotAnObject? then before
    else if e.time.None? then None
    else Some(before.value + [NormalizeOne(r, n - 1)])
  }

  /** A normalized event carries the entry of its own place, and the events of a batch come from its objects,
      one each and in order. */
  ghost predicate EventOf(r: Record, e: Event) {
    && e.order < |r.events| && r.events[e.order].RawEvent? && r.events[e.order].time == Some(e.time)
    && e.batchId == r.batchId && e.id == r.events[e.order].id
    && e.micro == r.events[e.order].micro && e.macro == r.events[e.order].macro
    && e.side == NormalizeEventSide(r.events[e.order].side)
  }

  lemma {:induction false} NormalizeIsExact(r: Record, n: nat)
    requires n <= |r.events|
    ensures Normalize(r, n).None? <==> exists i :: 0 <= i < n && r.events[i].RawEvent? && r.events[i].time.None?
    ensures Normalize(r, n).Some? ==>
      && (forall e :: e in Normalize(r, n).value <==> EventOf(r, e) && e.order < n)
      && (forall i, j :: 0 <= i < j < |Normalize(r, n).value| ==>
            Normalize(r, n).value[i].order < Normalize(r, n).value[j].order)
  {
    if n > 0 {
      NormalizeIsExact(r, n - 1);
      var before := Normalize(r, n - 1);
      if before.Some? && Normalize(r, n).Some? && r.events[n - 1].RawEvent? {
        assert forall i :: 0 <= i < |before.value| ==> before.value[i] in before.value;
      }
    }
  }

  method NormalizeBatchRecord(r: Record) returns (events: Option<seq<Event>>)
    ensures events == Normalize(r, |r.events|)
  {
    var done: seq<Event> := [];
    for i := 0 to |r.events|
      invariant Normalize(r, i) == Some(done)
    {
      var e := r.events[i];
      if e.NotAnObject? {
        continue;
      }
      if e.time.None? {
        NormalizeFails(r, i + 1, |r.events|);
        return None;
      }
      done := done + [NormalizeOne(r, i)];
    }
    events := Some(done);
  }

  lemma {:induction false} NormalizeFails(r: Record, n: nat, m: nat)
    requires n <= m <= |r.events| && Normalize(r, n).None?
    ensures Normalize(r, m).None?
    decreases m - n
  {
    if n < m {
      NormalizeFails(r, n, m - 1);
    }
  }

  // ------------------------------------------------------------------
  // The files
  // ------------------------------------------------------------------

  datatype BatchState = Queued | Processed | Failed | Replayed | ReplayedOverwrite

  datatype StatusRow = StatusRow(state: BatchState, activePath: Option<nat>, usedPath: Option<nat>)

  datatype BatchFile = BatchFile(name: nat, record: Record)

  /** `next` names the next active file, so the files queued so far are those below it; `written`
      logs the key of every event file written. */
  datatype Files = Files(
    next: nat,
    status: map<string, StatusRow>, raw: map<string, Record>,
    active: seq<BatchFile>, used: seq<BatchFile>,
    events: map<string, Event>, micro: map<string, nat>, macro: map<string, nat>,
    journal: seq<string>,
    written: seq<string>)

  const NO_FILES := Files(0, map[], map[], [], [], map[], map[], map[], [], [])

  datatype Write =
    | EventFile(key: string, event: Event)
    | MicroFile(key: string, value: nat)
    | MacroFile(key: string, value: nat)

  function ApplyWrite(s: Files, w: Write): Files {
    match w
    case EventFile(key, event) => s.(events := s.events[key := event], written := s.written + [key])
    case MicroFile(key, value) => s.(micro := s.micro[key := value])
    case MacroFile(key, value) => s.(macro := s.macro[key := value])
  }

  function ApplyWrites(s: Files, ws: seq<Write>): Files {
    if ws == [] then s else ApplyWrite(ApplyWrites(s, Front(ws)), Last(ws))
  }

  function Keys(es: seq<Event>): set<string> {
    set i | 0 <= i < |es| && es[i].id != "" :: SafeComponent(es[i].id)
  }

  /** The three files of an event. */
  function Trio(e: Event): seq<Write> {
    var key := SafeComponent(e.id);
    [EventFile(key, e), MicroFile(key, e.micro), MacroFile(key, e.macro)]
  }

  /** The writes that store `es` next to what is stored already: three files per new key. */
  function Plan(es: seq<Event>, stored: set<string>): seq<Write> {
    if es == [] then [] else
    var e := Last(es);
    var key := SafeComponent(e.id);
    if e.id == "" || key in stored || key in Keys(Front(es)) then Plan(Front(es), stored)
    else Plan(Front(es), stored) + Trio(e)
  }

  /** The writes of a store that overwrites: three files per named event, whatever is stored. */
  function RewritePlan(es: seq<Event>): seq<Write> {
    if es == [] then [] else
    RewritePlan(Front(es)) + if Last(es).id == "" then [] else Trio(Last(es))
  }

  function NamedCount(es: seq<Event>): nat {
    if es == [] then 0 else NamedCount(Front(es)) + if Last(es).id != "" then 1 else 0
  }

  lemma {:induction false} RewriteLength(es: seq<Event>)
    ensures |RewritePlan(es)| == 3 * NamedCount(es)
  {
    if es != [] {
      RewriteLength(Front(es));
    }
  }

  function PlanOf(es: seq<Event>, stored: set<string>, overwrite: bool): seq<Write> {
    if overwrite then RewritePlan(es) else Plan(es, stored)
  }

  /** Signal ids that get a journal row, in order. */
  function JournalPlan(es: seq<Event>, known: set<string>): seq<string> {
    if es == [] then [] else
    var ids := JournalPlan(Front(es), known);
    var id := Trim(Last(es).id);
    if id == "" || id in known || id in ids then ids else ids + [id]
  }

  function Take<T>(xs: seq<T>, n: nat): seq<T> {
    if n < |xs| then xs[..n] else xs
  }

  function Without(fs: seq<BatchFile>, name: nat): seq<BatchFile> {
    if fs == [] then [] else Without(Front(fs), name) + if Last(fs).name == name then [] else [Last(fs)]
  }

  function StatusOf(s: Files, key: string): StatusRow {
    if key in s.status then s.status[key] else StatusRow(Queued, None, None)
  }

  // ------------------------------------------------------------------
  // The steps
  // ------------------------------------------------------------------

  /** How far the work on one active file gets: event writes before a failure, journal rows before
      a failure (which is swallowed), whether the move and the status update succeed, and whether
      the error handler gets to record a failure. */
  datatype Attempt = Attempt(eventWrites: nat, journalWrites: nat, moved: bool, statusWritten: bool, caught: bool)

  datatype Step =
    | Deliver(record: Record, writes: nat)
    | Consume(name: nat, attempt: Attempt)
    | Replay(batchId: string, overwrite: bool, writes: nat, statusWritten: bool)

  function PutRaw(s: Files, key: string, r: Record): Files {
    s.(raw := s.raw[key := r])
  }

  function Queue(s: Files, r: Record): Files {
    s.(active := s.active + [BatchFile(s.next, r)], next := s.next + 1)
  }

  function SetStatus(s: Files, key: string, row: StatusRow): Files {
    s.(status := s.status[key := row])
  }

  function SaveBatch(s: Files, r: Record, writes: nat): Files {
    var key := SafeComponent(r.batchId);
    if r.batchId == "" || key in s.status || writes == 0 then s else
    var s1 := PutRaw(s, key, r);
    if writes == 1 then s1 else
    var s2 := Queue(s1, r);
    if writes == 2 then s2 else
    SetStatus(s2, key, StatusRow(Queued, Some(s.next), None))
  }

  function MarkFailed(s: Files, key: string, caught: bool): Files {
    if caught then SetStatus(s, key, StatusOf(s, key).(state := Failed)) else s
  }

  function Store(s: Files, es: seq<Event>, writes: nat): Files {
    ApplyWrites(s, Take(Plan(es, s.events.Keys), writes))
  }

  function Rewrite(s: Files, es: seq<Event>, writes: nat): Files {
    ApplyWrites(s, Take(RewritePlan(es), writes))
  }

  function Persist(s: Files, es: seq<Event>, overwrite: bool, writes: nat): Files {
    if overwrite then Rewrite(s, es, writes) else Store(s, es, writes)
  }

  function Archive(s: Files, f: BatchFile): Files {
    s.(active := Without(s.active, f.name), used := s.used + [f])
  }

  function ConsumeFile(s: Files, f: BatchFile, a: Attempt): Files {
    var key := SafeComponent(f.record.batchId);
    var es := Normalize(f.record, |f.record.events|);
    if es.None? then MarkFailed(s, key, a.caught) else
    var s1 := Store(s, es.value, a.eventWrites);
    if a.eventWrites < |Plan(es.value, s.events.Keys)| then MarkFailed(s1, key, a.caught) else
    var s2 := s1.(journal := s1.journal + Take(JournalPlan(es.value, set x | x in s1.journal), a.journalWrites));
    if !a.moved then MarkFailed(s2, key, a.caught) else
    var s3 := Archive(s2, f);
    if !a.statusWritten then MarkFailed(s3, key, a.caught) else
    s3.(status := s3.status[key := StatusRow(Processed, None, Some(f.name))])
  }

  function ReplayBatch(s: Files, batchId: string, overwrite: bool, writes: nat, statusWritten: bool): Files {
    var key := SafeComponent(batchId);
    if key !in s.raw then s else
    var r := s.raw[key];
    var es := Normalize(r, |r.events|);
    if es.None? then s else
    var s1 := Persist(s, es.value, overwrite, writes);
    if writes < |PlanOf(es.value, s.events.Keys, overwrite)| || !statusWritten then s1 else
    SetStatus(s1, key, StatusOf(s1, key).(state := if overwrite then ReplayedOverwrite else Replayed))
  }

  /** Place of the file called `name`, or -1. */
  function FindFile(fs: seq<BatchFile>, name: nat): (i: int)
    ensures -1 <= i < |fs|
    ensures i >= 0 ==> fs[i].name == name
    ensures i < 0 ==> forall j :: 0 <= j < |fs| ==> fs[j].name != name
  {
    if fs == [] then -1 else if Last(fs).name == name then |fs| - 1 else FindFile(Front(fs), name)
  }

  function Do(s: Files, step: Step): Files {
    match step
    case Deliver(r, writes) => SaveBatch(s, r, writes)
    case Consume(name, a) =>
      var i := FindFile(s.active, name);
      if i < 0 then s else ConsumeFile(s, s.active[i], a)
    case Replay(batchId, overwrite, writes, statusWritten) =>
      ReplayBatch(s, batchId, overwrite, writes, statusWritten)
  }

  function Run(s: Files, steps: seq<Step>): Files {
    if steps == [] then s else Do(Run(s, Front(steps)), Last(steps))
  }

  // ------------------------------------------------------------------
  // The invariant
  // ------------------------------------------------------------------

  ghost predicate Distinct(ids: seq<string>) {
    forall i, j :: 0 <= i < j < |ids| ==> ids[i] != ids[j]
  }

  /** The event files are those the log names, and contexts belong to stored events. */
  ghost predicate EventsLogged(s: Files) {
    && (forall k :: k in s.events <==> k in s.written)
    && s.micro.Keys <= s.events.Keys && s.macro.Keys <= s.events.Keys
  }

  /** Each event file was written once, and a context file holds what the event of its key says. */
  ghost predicate EventsOnce(s: Files) {
    && Distinct(s.written)
    && (forall k :: k in s.events <==> k in s.written)
    && (forall k :: k in s.micro ==> k in s.events && s.micro[k] == s.events[k].micro)
    && (forall k :: k in s.macro ==> k in s.events && s.macro[k] == s.events[k].macro)
  }

  predicate Holds(fs: seq<BatchFile>, name: nat) {
    FindFile(fs, name) >= 0
  }

  /** Every file ever queued is in active or in used, and statuses point at such files. */
  ghost predicate FilesKept(s: Files) {
    && (forall n :: 0 <= n < s.next ==> Holds(s.active, n) || Holds(s.used, n))
    && (forall k :: k in s.status && s.status[k].activePath.Some? ==> s.status[k].activePath.value < s.next)
  }

  /** Every event of the record is stored under its key. */
  ghost predicate Stored(s: Files, r: Record) {
    var es := Normalize(r, |r.events|);
    es.Some? && Keys(es.value) <= s.events.Keys
  }

  ghost predicate ArchivedStored(s: Files) {
    forall i :: 0 <= i < |s.used| ==> Stored(s, s.used[i].record)
  }

  ghost predicate ValidFiles(s: Files) {
    EventsLogged(s) && Distinct(s.journal) && FilesKept(s) && ArchivedStored(s)
  }

  /** What is stored, written, journaled and queued stays so. */
  ghost predicate Keeps(s: Files, s': Files) {
    && s.events.Keys <= s'.events.Keys && s.micro.Keys <= s'.micro.Keys && s.macro.Keys <= s'.macro.Keys
    && s.written <= s'.written && s.journal <= s'.journal && s.next <= s'.next
  }

  // ------------------------------------------------------------------
  // Storing events
  // ------------------------------------------------------------------

  ghost predicate SameElsewhere(s: Files, s': Files) {
    && s.status == s'.status && s.raw == s'.raw && s.active == s'.active && s.used == s'.used
    && s.journal == s'.journal && s.next == s'.next
  }

  lemma {:induction false} WritesFrame(s: Files, ws: seq<Write>)
    ensures SameElsewhere(s, ApplyWrites(s, ws))
  {
    if ws != [] {
      WritesFrame(s, Front(ws));
    }
  }

  lemma KeysStep(es: seq<Event>)
    requires es != []
    ensures Keys(es) == Keys(Front(es)) + if Last(es).id == "" then {} else {SafeComponent(Last(es).id)}
  {
    var front := Front(es);
    assert forall i :: 0 <= i < |front| ==> front[i] == es[i];
    forall k | k in Keys(es) ensures k in Keys(front) || (Last(es).id != "" && k == SafeComponent(Last(es).id)) {
      var i :| 0 <= i < |es| && es[i].id != "" && SafeComponent(es[i].id) == k;
      if i < |front| {
        assert front[i].id != "" && SafeComponent(front[i].id) == k;
      }
    }
    forall k | k in Keys(front) ensures k in Keys(es) {
      var i :| 0 <= i < |front| && front[i].id != "" && SafeComponent(front[i].id) == k;
      assert es[i].id != "" && SafeComponent(es[i].id) == k;
    }
    if Last(es).id != "" {
      assert es[|es| - 1].id != "" && SafeComponent(es[|es| - 1].id) in Keys(es);
    }
  }

  /** What the first `n` of the three writes of an event leave. */
  function OneStored(s: Files, e: Event, n: nat): Files {
    var key := SafeComponent(e.id);
    s.(events := if n > 0 then s.events[key := e] else s.events,
       written := if n > 0 then s.written + [key] else s.written,
       micro := if n > 1 then s.micro[key := e.micro] else s.micro,
       macro := if n > 2 then s.macro[key := e.macro] else s.macro)
  }

  lemma TrioWrites(s: Files, e: Event, n: nat)
    requires n <= 3
    ensures ApplyWrites(s, Trio(e)[..n]) == OneStored(s, e, n)
  {
    var ws := Trio(e);
    if n == 0 {
      assert ws[..0] == [];
    } else {
      TrioWrites(s, e, n - 1);
      assert ws[..n] == ws[..n - 1] + [ws[n - 1]];
      assert Front(ws[..n]) == ws[..n - 1];
    }
  }

  ghost predicate Grown(s: Files, s': Files) {
    EventsLogged(s') && Keeps(s, s') && SameElsewhere(s, s')
  }

  lemma OneStoredGrows(s: Files, e: Event, n: nat)
    requires EventsLogged(s)
    ensures Grown(s, OneStored(s, e, n))
  {
    var key := SafeComponent(e.id);
    var s' := OneStored(s, e, n);
    if n > 0 {
      assert s'.written[|s.written|] == key;
      assert forall i :: 0 <= i < |s.written| ==> s'.written[i] == s.written[i];
    }
  }

  lemma GrownTransitive(a: Files, b: Files, c: Files)
    requires Grown(a, b) && Grown(b, c)
    ensures Grown(a, c)
  {
  }

  lemma {:induction false} ApplySplit(s: Files, a: seq<Write>, b: seq<Write>)
    ensures ApplyWrites(s, a + b) == ApplyWrites(ApplyWrites(s, a), b)
  {
    if b == [] {
      assert a + b == a;
    } else {
      assert Front(a + b) == a + Front(b);
      ApplySplit(s, a, Front(b));
    }
  }

  predicate NewEvent(es: seq<Event>, stored: set<string>)
    requires es != []
  {
    var e := Last(es);
    e.id != "" && SafeComponent(e.id) !in stored && SafeComponent(e.id) !in Keys(Front(es))
  }

  /** Storing a batch is storing all but its last event, and then, when that one is new and writes
      are left, up to three of its files. */
  lemma StoreStep(s: Files, es: seq<Event>, n: nat)
    requires es != []
    ensures
      var front := |Plan(Front(es), s.events.Keys)|;
      Store(s, es, n) ==
        if n <= front || !NewEvent(es, s.events.Keys) then Store(s, Front(es), n)
        else OneStored(Store(s, Front(es), front), Last(es), if n - front < 3 then n - front else 3)
  {
    var stored := s.events.Keys;
    var plan, front := Plan(es, stored), Plan(Front(es), stored);
    if NewEvent(es, stored) {
      assert plan == front + Trio(Last(es));
      if n <= |front| {
        assert Take(plan, n) == Take(front, n);
      } else {
        var k := if n - |front| < 3 then n - |front| else 3;
        assert Take(front, |front|) == front;
        assert Take(plan, n) == front + Trio(Last(es))[..k];
        ApplySplit(s, front, Trio(Last(es))[..k]);
        TrioWrites(ApplyWrites(s, front), Last(es), k);
      }
    }
  }

  /** A plan carried out in full stores every key of the batch. */
  lemma {:induction false} StoreInFull(s: Files, es: seq<Event>, n: nat)
    requires n >= |Plan(es, s.events.Keys)|
    ensures Store(s, es, n).events.Keys == s.events.Keys + Keys(es)
  {
    if es == [] {
      assert Keys(es) == {};
      assert Take(Plan(es, s.events.Keys), n) == [];
    } else {
      var front := |Plan(Front(es), s.events.Keys)|;
      StoreStep(s, es, n);
      KeysStep(es);
      StoreInFull(s, Front(es), n);
      StoreInFull(s, Front(es), front);
    }
  }

  /** Storing with any number of writes keeps what was stored. */
  lemma {:induction false} StoreGrows(s: Files, es: seq<Event>, n: nat)
    requires EventsLogged(s)
    ensures Grown(s, Store(s, es, n))
  {
    if es == [] {
      assert Take(Plan(es, s.events.Keys), n) == [];
    } else {
      var front := |Plan(Front(es), s.events.Keys)|;
      StoreStep(s, es, n);
      StoreGrows(s, Front(es), n);
      if n > front && NewEvent(es, s.events.Keys) {
        StoreGrows(s, Front(es), front);
        var mid := Store(s, Front(es), front);
        OneStoredGrows(mid, Last(es), if n - front < 3 then n - front else 3);
        GrownTransitive(s, mid, Store(s, es, n));
      }
    }
  }

  /** A rewrite is the rewrite of all but the last event, and then, when that one is named and writes
      are left, up to three of its files. */
  lemma RewriteStep(s: Files, es: seq<Event>, n: nat)
    requires es != []
    ensures
      var front := |RewritePlan(Front(es))|;
      Rewrite(s, es, n) ==
        if n <= front || Last(es).id == "" then Rewrite(s, Front(es), n)
        else OneStored(Rewrite(s, Front(es), front), Last(es), if n - front < 3 then n - front else 3)
  {
    var plan, front := RewritePlan(es), RewritePlan(Front(es));
    if Last(es).id == "" {
      assert plan == front;
    } else if n <= |front| {
      assert Take(plan, n) == Take(front, n);
    } else {
      var k := if n - |front| < 3 then n - |front| else 3;
      assert Take(front, |front|) == front;
      assert Take(plan, n) == front + Trio(Last(es))[..k];
      ApplySplit(s, front, Trio(Last(es))[..k]);
      TrioWrites(ApplyWrites(s, front), Last(es), k);
    }
  }

  /** So does rewriting with any number of writes, but for the contents. */
  lemma {:induction false} RewriteGrows(s: Files, es: seq<Event>, n: nat)
    requires EventsLogged(s)
    ensures Grown(s, Rewrite(s, es, n))
  {
    if es == [] {
      assert Take(RewritePlan(es), n) == [];
    } else {
      var front := |RewritePlan(Front(es))|;
      RewriteStep(s, es, n);
      RewriteGrows(s, Front(es), n);
      if n > front && Last(es).id != "" {
        RewriteGrows(s, Front(es), front);
        var mid := Rewrite(s, Front(es), front);
        OneStoredGrows(mid, Last(es), if n - front < 3 then n - front else 3);
        GrownTransitive(s, mid, Rewrite(s, es, n));
      }
    }
  }

  // ------------------------------------------------------------------
  // Every step keeps the invariant
  // ------------------------------------------------------------------

  lemma {:induction false} JournalPlanNew(es: seq<Event>, known: set<string>)
    ensures Distinct(JournalPlan(es, known))
    ensures forall x :: x in JournalPlan(es, known) ==> x !in known && x != ""
  {
    if es != [] {
      JournalPlanNew(Front(es), known);
    }
  }

  lemma JournalGrows(journal: seq<string>, es: seq<Event>, n: nat)
    requires Distinct(journal)
    ensures Distinct(journal + Take(JournalPlan(es, set x | x in journal), n))
  {
    var ids := JournalPlan(es, set x | x in journal);
    JournalPlanNew(es, set x | x in journal);
    var all := journal + Take(ids, n);
    forall i, j | 0 <= i < j < |all| ensures all[i] != all[j] {
      if i < |journal| <= j {
        assert all[i] in journal && all[j] == ids[j - |journal|] && all[j] in ids;
      } else if |journal| <= i {
        assert all[i] == ids[i - |journal|] && all[j] == ids[j - |journal|];
      }
    }
  }

  lemma HoldsAppend(fs: seq<BatchFile>, f: BatchFile, n: nat)
    ensures Holds(fs + [f], n) <==> Holds(fs, n) || f.name == n
  {
    assert Front(fs + [f]) == fs;
  }

  lemma {:induction false} HoldsWithout(fs: seq<BatchFile>, name: nat, n: nat)
    requires n != name
    ensures Holds(Without(fs, name), n) <==> Holds(fs, n)
  {
    if fs != [] {
      HoldsWithout(Front(fs), name, n);
      if Last(fs).name == name {
        assert Without(Front(fs), name) + [] == Without(Front(fs), name);
      } else {
        HoldsAppend(Without(Front(fs), name), Last(fs), n);
      }
    }
  }

  lemma QueueKeeps(s: Files, r: Record)
    requires ValidFiles(s)
    ensures ValidFiles(Queue(s, r)) && Keeps(s, Queue(s, r))
  {
    var s' := Queue(s, r);
    forall n | 0 <= n < s'.next ensures Holds(s'.active, n) || Holds(s'.used, n) {
      HoldsAppend(s.active, BatchFile(s.next, r), n);
    }
    assert forall i :: 0 <= i < |s.used| ==> Stored(s, s.used[i].record);
  }

  lemma StatusKeeps(s: Files, key: string, row: StatusRow)
    requires ValidFiles(s) && (row.activePath.Some? ==> row.activePath.value < s.next)
    ensures ValidFiles(SetStatus(s, key, row)) && Keeps(s, SetStatus(s, key, row))
  {
    assert forall i :: 0 <= i < |s.used| ==> Stored(s, s.used[i].record);
  }

  lemma RawKeeps(s: Files, key: string, r: Record)
    requires ValidFiles(s)
    ensures ValidFiles(PutRaw(s, key, r)) && Keeps(s, PutRaw(s, key, r))
  {
    assert forall i :: 0 <= i < |s.used| ==> Stored(s, s.used[i].record);
  }

  lemma SaveKeeps(s: Files, r: Record, writes: nat)
    requires ValidFiles(s)
    ensures ValidFiles(SaveBatch(s, r, writes)) && Keeps(s, SaveBatch(s, r, writes))
  {
    var key := SafeComponent(r.batchId);
    if !(r.batchId == "" || key in s.status || writes == 0) {
      var s1 := PutRaw(s, key, r);
      RawKeeps(s, key, r);
      if writes > 1 {
        var s2 := Queue(s1, r);
        QueueKeeps(s1, r);
        KeepsChain(s, s1, s2);
        if writes > 2 {
          var row := StatusRow(Queued, Some(s.next), None);
          StatusKeeps(s2, key, row);
          KeepsChain(s, s2, SetStatus(s2, key, row));
        }
      }
    }
  }

  lemma PersistValid(s: Files, es: seq<Event>, overwrite: bool, n: nat)
    requires ValidFiles(s)
    ensures ValidFiles(Persist(s, es, overwrite, n)) && Keeps(s, Persist(s, es, overwrite, n))
  {
    StoreGrows(s, es, n);
    RewriteGrows(s, es, n);
    var s' := Persist(s, es, overwrite, n);
    forall i | 0 <= i < |s'.used| ensures Stored(s', s'.used[i].record) {
      assert Stored(s, s.used[i].record);
    }
  }

  lemma MarkKeeps(s: Files, key: string, caught: bool)
    requires ValidFiles(s)
    ensures ValidFiles(MarkFailed(s, key, caught)) && Keeps(s, MarkFailed(s, key, caught))
  {
    assert forall i :: 0 <= i < |s.used| ==> Stored(s, s.used[i].record);
  }

  lemma ArchiveKeeps(s: Files, f: BatchFile)
    requires ValidFiles(s) && Stored(s, f.record)
    ensures ValidFiles(Archive(s, f)) && Keeps(s, Archive(s, f))
  {
    var s' := Archive(s, f);
    forall n | 0 <= n < s'.next ensures Holds(s'.active, n) || Holds(s'.used, n) {
      HoldsAppend(s.used, f, n);
      if n != f.name {
        HoldsWithout(s.active, f.name, n);
      }
    }
    forall i | 0 <= i < |s'.used| ensures Stored(s', s'.used[i].record) {
      if i < |s.used| {
        assert Stored(s, s.used[i].record);
      }
    }
  }

  lemma JournalKeeps(s: Files, es: seq<Event>, n: nat)
    requires ValidFiles(s)
    ensures
      var s' := s.(journal := s.journal + Take(JournalPlan(es, set x | x in s.journal), n));
      ValidFiles(s') && Keeps(s, s')
  {
    JournalGrows(s.journal, es, n);
    assert forall i :: 0 <= i < |s.used| ==> Stored(s, s.used[i].record);
  }

  lemma KeepsChain(a: Files, b: Files, c: Files)
    requires Keeps(a, b) && Keeps(b, c)
    ensures Keeps(a, c)
  {
  }

  lemma ConsumeKeeps(s: Files, f: BatchFile, a: Attempt)
    requires ValidFiles(s)
    ensures ValidFiles(ConsumeFile(s, f, a)) && Keeps(s, ConsumeFile(s, f, a))
  {
    var key := SafeComponent(f.record.batchId);
    var es := Normalize(f.record, |f.record.events|);
    if es.None? {
      MarkKeeps(s, key, a.caught);
      return;
    }
    var s1 := Store(s, es.value, a.eventWrites);
    PersistValid(s, es.value, false, a.eventWrites);
    if a.eventWrites < |Plan(es.value, s.events.Keys)| {
      MarkKeeps(s1, key, a.caught);
      KeepsChain(s, s1, MarkFailed(s1, key, a.caught));
      return;
    }
    StoreInFull(s, es.value, a.eventWrites);
    AfterStore(s1, f, es.value, a);
    KeepsChain(s, s1, ConsumeFile(s, f, a));
  }

  /** The rest of a consumption once all events are stored. */
  function Finish(s1: Files, f: BatchFile, es: seq<Event>, a: Attempt): Files {
    var key := SafeComponent(f.record.batchId);
    var s2 := s1.(journal := s1.journal + Take(JournalPlan(es, set x | x in s1.journal), a.journalWrites));
    if !a.moved then MarkFailed(s2, key, a.caught) else
    var s3 := Archive(s2, f);
    if !a.statusWritten then MarkFailed(s3, key, a.caught) else
    s3.(status := s3.status[key := StatusRow(Processed, None, Some(f.name))])
  }

  lemma AfterStore(s1: Files, f: BatchFile, es: seq<Event>, a: Attempt)
    requires ValidFiles(s1) && Normalize(f.record, |f.record.events|) == Some(es) && Keys(es) <= s1.events.Keys
    ensures ValidFiles(Finish(s1, f, es, a)) && Keeps(s1, Finish(s1, f, es, a))
  {
    var key := SafeComponent(f.record.batchId);
    var s2 := s1.(journal := s1.journal + Take(JournalPlan(es, set x | x in s1.journal), a.journalWrites));
    JournalKeeps(s1, es, a.journalWrites);
    if !a.moved {
      MarkKeeps(s2, key, a.caught);
      KeepsChain(s1, s2, MarkFailed(s2, key, a.caught));
    } else {
      var s3 := Archive(s2, f);
      ArchiveKeeps(s2, f);
      KeepsChain(s1, s2, s3);
      MarkKeeps(s3, key, a.caught);
      KeepsChain(s1, s3, MarkFailed(s3, key, a.caught));
      assert forall i :: 0 <= i < |s3.used| ==> Stored(s3, s3.used[i].record);
    }
  }

  lemma DoKeeps(s: Files, step: Step)
    requires ValidFiles(s)
    ensures ValidFiles(Do(s, step)) && Keeps(s, Do(s, step))
  {
    match step
    case Deliver(r, writes) => SaveKeeps(s, r, writes);
    case Consume(name, a) =>
      var i := FindFile(s.active, name);
      if i >= 0 {
        ConsumeKeeps(s, s.active[i], a);
      }
    case Replay(batchId, overwrite, writes, statusWritten) =>
      var key := SafeComponent(batchId);
      if key in s.raw {
        var es := Normalize(s.raw[key], |s.raw[key].events|);
        if es.Some? {
          var s1 := Persist(s, es.value, overwrite, writes);
          PersistValid(s, es.value, overwrite, writes);
          var row := StatusOf(s1, key).(state := if overwrite then ReplayedOverwrite else Replayed);
          StatusKeeps(s1, key, row);
          KeepsChain(s, s1, SetStatus(s1, key, row));
        }
      }
  }

  // ------------------------------------------------------------------
  // What a step stores
  // ------------------------------------------------------------------

  /** The events a step stores: those of the active file or of the raw record, when they normalize. */
  function Carried(s: Files, step: Step): seq<Event> {
    match step
    case Deliver(r, writes) => []
    case Consume(name, a) =>
      var i := FindFile(s.active, name);
      if i < 0 then [] else EventsOf(s.active[i].record)
    case Replay(batchId, overwrite, writes, statusWritten) =>
      var key := SafeComponent(batchId);
      if key !in s.raw then [] else EventsOf(s.raw[key])
  }

  function EventsOf(r: Record): seq<Event> {
    var es := Normalize(r, |r.events|);
    if es.None? then [] else es.value
  }

  predicate Overwrites(step: Step) {
    step.Replay? && step.overwrite
  }

  function WritesIn(step: Step): nat {
    match step
    case Deliver(r, writes) => 0
    case Consume(name, a) => a.eventWrites
    case Replay(batchId, overwrite, writes, statusWritten) => writes
  }

  ghost predicate SameEventFiles(s: Files, s': Files) {
    s.events == s'.events && s.micro == s'.micro && s.macro == s'.macro && s.written == s'.written
  }

  lemma StoresNothing(s: Files, overwrite: bool, n: nat)
    ensures Persist(s, [], overwrite, n) == s
  {
    assert Take(Plan([], s.events.Keys), n) == [] == Take(RewritePlan([]), n);
  }

  lemma FinishStores(s1: Files, f: BatchFile, es: seq<Event>, a: Attempt)
    ensures SameEventFiles(s1, Finish(s1, f, es, a))
  {
  }

  lemma ConsumeStores(s: Files, f: BatchFile, a: Attempt)
    ensures SameEventFiles(Store(s, EventsOf(f.record), a.eventWrites), ConsumeFile(s, f, a))
  {
    var es := Normalize(f.record, |f.record.events|);
    if es.None? {
      StoresNothing(s, false, a.eventWrites);
    } else {
      var s1 := Store(s, es.value, a.eventWrites);
      FinishStores(s1, f, es.value, a);
      assert ConsumeFile(s, f, a)
        == if a.eventWrites < |Plan(es.value, s.events.Keys)|
           then MarkFailed(s1, SafeComponent(f.record.batchId), a.caught)
           else Finish(s1, f, es.value, a);
    }
  }

  lemma ReplayStores(s: Files, batchId: string, overwrite: bool, n: nat, statusWritten: bool)
    requires SafeComponent(batchId) in s.raw
    ensures SameEventFiles(Persist(s, EventsOf(s.raw[SafeComponent(batchId)]), overwrite, n),
                           ReplayBatch(s, batchId, overwrite, n, statusWritten))
  {
    StoresNothing(s, overwrite, n);
  }

  /** What a step does to the event files is a store of the events it carries. */
  lemma StepStores(s: Files, step: Step)
    ensures SameEventFiles(Persist(s, Carried(s, step), Overwrites(step), WritesIn(step)), Do(s, step))
  {
    StoresNothing(s, Overwrites(step), WritesIn(step));
    match step
    case Deliver(r, writes) =>
    case Consume(name, a) =>
      var i := FindFile(s.active, name);
      if i >= 0 {
        ConsumeStores(s, s.active[i], a);
      }
    case Replay(batchId, overwrite, writes, statusWritten) =>
      if SafeComponent(batchId) in s.raw {
        ReplayStores(s, batchId, overwrite, writes, statusWritten);
      }
  }

  // ------------------------------------------------------------------
  // Runs
  // ------------------------------------------------------------------

  predicate NoOverwrite(steps: seq<Step>) {
    forall i :: 0 <= i < |steps| ==> !Overwrites(steps[i])
  }

  /** Contents are as they were first, and no key was written again. */
  ghost predicate FirstKept(s: Files, s': Files) {
    && (forall k :: k in s.events ==> k in s'.events && s'.events[k] == s.events[k])
    && s.written <= s'.written
    && (forall i :: |s.written| <= i < |s'.written| ==> s'.written[i] !in s.events)
    && (EventsOnce(s) ==> EventsOnce(s'))
  }

  lemma OneStoredFirst(s: Files, e: Event, n: nat)
    requires SafeComponent(e.id) !in s.events
    ensures FirstKept(s, OneStored(s, e, n))
  {
    var s' := OneStored(s, e, n);
    if n > 0 && EventsOnce(s) {
      assert s'.written[|s.written|] == SafeComponent(e.id);
      assert forall i :: 0 <= i < |s.written| ==> s'.written[i] == s.written[i] && s.written[i] in s.events;
    }
  }

  lemma FirstTransitive(a: Files, b: Files, c: Files)
    requires FirstKept(a, b) && FirstKept(b, c)
    ensures FirstKept(a, c)
  {
    forall i | |a.written| <= i < |c.written| ensures c.written[i] !in a.events {
      if i < |b.written| {
        assert c.written[i] == b.written[i];
      }
    }
  }

  /** A store without overwriting, stopped after any write, writes no stored key again. */
  lemma {:induction false} StoreFirst(s: Files, es: seq<Event>, n: nat)
    ensures FirstKept(s, Store(s, es, n))
  {
    if es == [] {
      assert Take(Plan(es, s.events.Keys), n) == [];
    } else {
      var front := |Plan(Front(es), s.events.Keys)|;
      StoreStep(s, es, n);
      StoreFirst(s, Front(es), n);
      if n > front && NewEvent(es, s.events.Keys) {
        StoreFirst(s, Front(es), front);
        StoreInFull(s, Front(es), front);
        var mid := Store(s, Front(es), front);
        OneStoredFirst(mid, Last(es), if n - front < 3 then n - front else 3);
        FirstTransitive(s, mid, Store(s, es, n));
      }
    }
  }

  lemma {:induction false} RunKeeps(s: Files, steps: seq<Step>)
    requires ValidFiles(s)
    ensures ValidFiles(Run(s, steps)) && Keeps(s, Run(s, steps))
  {
    if steps != [] {
      RunKeeps(s, Front(steps));
      DoKeeps(Run(s, Front(steps)), Last(steps));
      KeepsChain(s, Run(s, Front(steps)), Run(s, steps));
    }
  }

  /** From any state on, steps that do not overwrite leave every stored event its content and never
      write its key again. */
  lemma {:induction false} FirstContentStays(s: Files, steps: seq<Step>)
    requires NoOverwrite(steps)
    ensures FirstKept(s, Run(s, steps))
  {
    if steps != [] {
      var before, last := Run(s, Front(steps)), Last(steps);
      assert forall i :: 0 <= i < |Front(steps)| ==> !Overwrites(Front(steps)[i]);
      FirstContentStays(s, Front(steps));
      assert !Overwrites(steps[|steps| - 1]);
      StepStores(before, last);
      StoreFirst(before, Carried(before, last), WritesIn(last));
      FirstTransitive(s, before, Run(s, steps));
    }
  }

  /** Ingest at-most-once: after any deliveries, consumptions and replays, each stopped anywhere, the
      journal has one row per signal, every queued file is in active or used, and everything archived
      is stored; without overwriting replays every event key was written once. */
  lemma IngestAtMostOnce(steps: seq<Step>)
    ensures ValidFiles(Run(NO_FILES, steps))
    ensures NoOverwrite(steps) ==> EventsOnce(Run(NO_FILES, steps))
  {
    RunKeeps(NO_FILES, steps);
    if NoOverwrite(steps) {
      FirstContentStays(NO_FILES, steps);
    }
  }
}
