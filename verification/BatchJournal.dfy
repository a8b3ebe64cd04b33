/** Which signals of the delivered batches reach the journal: a batch must be queued, its file must be
    consumed before it is archived, and the journal write must get to the signal. */
module BatchJournal {
  import opened Common
  import opened IngestBatch
  import opened IngestCycle

  // ------------------------------------------------------------------
  // What one step does
  // ------------------------------------------------------------------

  /** A delivery that puts a file in the queue: its id is not empty, no status has its key, and it gets to
      the second write. */
  predicate Queues(s: Files, step: Step) {
    && step.Deliver? && step.record.batchId != ""
    && SafeComponent(step.record.batchId) !in s.status && step.writes >= 2
  }

  /** A consumption that gets past the events of its file. */
  predicate StoresAll(s: Files, step: Step) {
    && step.Consume?
    && var i := FindFile(s.active, step.name);
    && i >= 0
    && var r := s.active[i].record;
    var es := Normalize(r, |r.events|);
    es.Some? && step.attempt.eventWrites >= |Plan(es.value, s.events.Keys)|
  }

  predicate Archives(s: Files, step: Step, name: nat) {
    StoresAll(s, step) && step.name == name && step.attempt.moved
  }

  /** A step that leaves a status under this key, whether or not there was one. */
  predicate WritesStatus(s: Files, step: Step, key: string) {
    match step
    case Deliver(r, writes) => r.batchId != "" && SafeComponent(r.batchId) == key && writes >= 3
    case Consume(name, a) =>
      var i := FindFile(s.active, name);
      && i >= 0 && SafeComponent(s.active[i].record.batchId) == key
      && (a.caught || Completes(s, name, a))
    case Replay(batchId, overwrite, writes, statusWritten) =>
      && SafeComponent(batchId) == key && key in s.raw && statusWritten
      && var es := Normalize(s.raw[key], |s.raw[key].events|);
      es.Some? && writes >= |PlanOf(es.value, s.events.Keys, overwrite)|
  }

  function Known(s: Files): set<string> {
    set x | x in s.journal
  }

  /** Place of the first event of this signal, or -1. */
  function FirstSignal(es: seq<Event>, x: string): (i: int)
    ensures -1 <= i < |es|
    ensures i >= 0 ==> Trim(es[i].id) == x
    ensures forall j :: 0 <= j < |es| && (i < 0 || j < i) ==> Trim(es[j].id) != x
  {
    if es == [] then -1
    else if FirstSignal(Front(es), x) >= 0 then FirstSignal(Front(es), x)
    else if Trim(Last(es).id) == x then |es| - 1
    else -1
  }

  /** The signal is new and fewer than `n` rows come before its own. */
  predicate RowReached(es: seq<Event>, known: set<string>, n: nat, x: string) {
    var i := FirstSignal(es, x);
    x != "" && x !in known && i >= 0 && |JournalPlan(es[..i], known)| < n
  }

  predicate Journals(s: Files, step: Step, x: string) {
    && StoresAll(s, step)
    && RowReached(Carried(s, step), Known(s), step.attempt.journalWrites, x)
  }

  lemma {:induction false} PlanHasSignals(es: seq<Event>, known: set<string>, x: string)
    ensures x in JournalPlan(es, known) <==> x != "" && x !in known && FirstSignal(es, x) >= 0
  {
    if es != [] {
      PlanHasSignals(Front(es), known, x);
    }
  }

  lemma TakeAppend(ids: seq<string>, id: string, n: nat, x: string)
    ensures x in Take(ids + [id], n) <==> x in Take(ids, n) || (x == id && |ids| < n)
  {
    if n <= |ids| {
      assert Take(ids + [id], n) == Take(ids, n);
    } else {
      assert Take(ids + [id], n) == ids + [id] && Take(ids, n) == ids;
    }
  }

  lemma {:induction false} RowExactly(es: seq<Event>, known: set<string>, n: nat, x: string)
    ensures x in Take(JournalPlan(es, known), n) <==> RowReached(es, known, n, x)
  {
    if es == [] {
      assert Take(JournalPlan(es, known), n) == [];
    } else {
      var front, id := Front(es), Trim(Last(es).id);
      var ids := JournalPlan(front, known);
      RowExactly(front, known, n, x);
      PlanHasSignals(front, known, x);
      PlanHasSignals(front, known, id);
      if FirstSignal(front, x) >= 0 {
        assert front[..FirstSignal(front, x)] == es[..FirstSignal(front, x)];
      } else {
        assert es[..|es| - 1] == front;
      }
      if !(id == "" || id in known || id in ids) {
        TakeAppend(ids, id, n, x);
      }
    }
  }

  lemma StatusStep(s: Files, step: Step, key: string)
    ensures key in Do(s, step).status <==> key in s.status || WritesStatus(s, step, key)
  {
    match step
    case Deliver(r, writes) =>
    case Consume(name, a) =>
      var i := FindFile(s.active, name);
      if i >= 0 {
        ConsumeStatus(s, s.active[i], a, key);
      }
    case Replay(batchId, overwrite, writes, statusWritten) =>
      ReplayStatus(s, batchId, overwrite, writes, statusWritten, key);
  }

  lemma ConsumeStatus(s: Files, f: BatchFile, a: Attempt, key: string)
    ensures
      var es := Normalize(f.record, |f.record.events|);
      var done := es.Some? && a.eventWrites >= |Plan(es.value, s.events.Keys)| && a.moved && a.statusWritten;
      var now := key == SafeComponent(f.record.batchId) && (a.caught || done);
      key in ConsumeFile(s, f, a).status <==> key in s.status || now
  {
    var es := Normalize(f.record, |f.record.events|);
    if es.Some? {
      WritesFrame(s, Take(Plan(es.value, s.events.Keys), a.eventWrites));
    }
  }

  lemma ReplayStatus(s: Files, batchId: string, overwrite: bool, n: nat, statusWritten: bool, key: string)
    ensures key in ReplayBatch(s, batchId, overwrite, n, statusWritten).status
       <==> key in s.status || WritesStatus(s, Replay(batchId, overwrite, n, statusWritten), key)
  {
    if SafeComponent(batchId) in s.raw {
      var r := s.raw[SafeComponent(batchId)];
      var es := Normalize(r, |r.events|);
      if es.Some? {
        WritesFrame(s, Take(PlanOf(es.value, s.events.Keys, overwrite), n));
      }
    }
  }

  /** The state a step gives a status: queued by a delivery, processed by a consumption that gets to its end,
      failed by one that does not, replayed by a replay. */
  function StateFrom(s: Files, step: Step): BatchState {
    match step
    case Deliver(r, writes) => Queued
    case Consume(name, a) => if Completes(s, name, a) then Processed else Failed
    case Replay(batchId, overwrite, writes, statusWritten) => if overwrite then ReplayedOverwrite else Replayed
  }

  /** A step that changes the status under this key: a known batch is not delivered again. */
  predicate Marks(s: Files, step: Step, key: string) {
    WritesStatus(s, step, key) && (step.Deliver? ==> key !in s.status)
  }

  lemma ConsumeMarks(s: Files, f: BatchFile, a: Attempt)
    ensures
      var key := SafeComponent(f.record.batchId);
      var es := Normalize(f.record, |f.record.events|);
      var done := es.Some? && a.eventWrites >= |Plan(es.value, s.events.Keys)| && a.moved && a.statusWritten;
      ConsumeFile(s, f, a).status ==
        if done then s.status[key := StatusRow(Processed, None, Some(f.name))]
        else if a.caught then s.status[key := StatusOf(s, key).(state := Failed)]
        else s.status
  {
    var es := Normalize(f.record, |f.record.events|);
    if es.Some? {
      WritesFrame(s, Take(Plan(es.value, s.events.Keys), a.eventWrites));
    }
  }

  lemma ReplayMarks(s: Files, batchId: string, overwrite: bool, n: nat, statusWritten: bool)
    ensures
      var key := SafeComponent(batchId);
      ReplayBatch(s, batchId, overwrite, n, statusWritten).status ==
        if WritesStatus(s, Replay(batchId, overwrite, n, statusWritten), key)
        then s.status[key := StatusOf(s, key).(state := if overwrite then ReplayedOverwrite else Replayed)]
        else s.status
  {
    if SafeComponent(batchId) in s.raw {
      var r := s.raw[SafeComponent(batchId)];
      var es := Normalize(r, |r.events|);
      if es.Some? {
        WritesFrame(s, Take(PlanOf(es.value, s.events.Keys, overwrite), n));
      }
    }
  }

  /** What a step leaves under a key: the state it gives, when it marks the key, with the path of the active
      file after a delivery and of the used file after a consumption that gets to its end; else what there
      was. */
  lemma StatusRowStep(s: Files, step: Step, key: string)
    requires key in Do(s, step).status
    ensures
      var row := Do(s, step).status[key];
      if Marks(s, step, key) then
        && row.state == StateFrom(s, step)
        && (step.Deliver? ==> row.activePath == Some(s.next) && row.usedPath == None)
        && (step.Consume? && row.state == Processed ==> row.activePath == None && row.usedPath == Some(step.name))
        && (row.state != Processed && !step.Deliver? && key in s.status ==>
              row.activePath == s.status[key].activePath && row.usedPath == s.status[key].usedPath)
      else key in s.status && row == s.status[key]
  {
    match step
    case Deliver(r, writes) =>
    case Consume(name, a) =>
      var i := FindFile(s.active, name);
      if i >= 0 {
        ConsumeMarks(s, s.active[i], a);
      }
    case Replay(batchId, overwrite, writes, statusWritten) =>
      ReplayMarks(s, batchId, overwrite, writes, statusWritten);
  }

  lemma {:induction false} InWithout(fs: seq<BatchFile>, name: nat, f: BatchFile)
    ensures f in Without(fs, name) <==> f in fs && f.name != name
  {
    if fs != [] {
      InWithout(Front(fs), name, f);
      assert fs == Front(fs) + [Last(fs)];
    }
  }

  lemma ConsumeActive(s: Files, g: BatchFile, a: Attempt, f: BatchFile)
    ensures
      var es := Normalize(g.record, |g.record.events|);
      var moves := es.Some? && a.eventWrites >= |Plan(es.value, s.events.Keys)| && a.moved;
      f in ConsumeFile(s, g, a).active <==> f in s.active && !(moves && f.name == g.name)
  {
    InWithout(s.active, g.name, f);
    var es := Normalize(g.record, |g.record.events|);
    if es.Some? {
      WritesFrame(s, Take(Plan(es.value, s.events.Keys), a.eventWrites));
    }
  }

  /** A file is active after a step when the step queues it, or it was active and the step does not
      archive it. */
  lemma ActiveStep(s: Files, step: Step, f: BatchFile)
    ensures f in Do(s, step).active
       <==> (f in s.active && !Archives(s, step, f.name)) || (Queues(s, step) && f == BatchFile(s.next, step.record))
  {
    match step
    case Deliver(r, writes) =>
    case Consume(name, a) =>
      var i := FindFile(s.active, name);
      if i >= 0 {
        ConsumeActive(s, s.active[i], a, f);
      }
    case Replay(batchId, overwrite, writes, statusWritten) =>
      ReplayFrame(s, batchId, overwrite, writes, statusWritten);
  }

  lemma ReplayFrame(s: Files, batchId: string, overwrite: bool, n: nat, statusWritten: bool)
    ensures
      var s' := ReplayBatch(s, batchId, overwrite, n, statusWritten);
      s'.active == s.active && s'.journal == s.journal && s'.next == s.next
  {
    if SafeComponent(batchId) in s.raw {
      var r := s.raw[SafeComponent(batchId)];
      var es := Normalize(r, |r.events|);
      if es.Some? {
        WritesFrame(s, Take(PlanOf(es.value, s.events.Keys, overwrite), n));
      }
    }
  }

  lemma ConsumeJournal(s: Files, f: BatchFile, a: Attempt)
    ensures
      var es := Normalize(f.record, |f.record.events|);
      var all := es.Some? && a.eventWrites >= |Plan(es.value, s.events.Keys)|;
      && ConsumeFile(s, f, a).next == s.next
      && ConsumeFile(s, f, a).journal == s.journal
         + if all then Take(JournalPlan(es.value, Known(s)), a.journalWrites) else []
  {
    var es := Normalize(f.record, |f.record.events|);
    assert s.journal + [] == s.journal;
    if es.Some? {
      WritesFrame(s, Take(Plan(es.value, s.events.Keys), a.eventWrites));
    }
  }

  lemma JournalStep(s: Files, step: Step, x: string)
    ensures x in Do(s, step).journal <==> x in s.journal || Journals(s, step, x)
  {
    match step
    case Deliver(r, writes) =>
    case Consume(name, a) =>
      var i := FindFile(s.active, name);
      if i >= 0 {
        ConsumeJournal(s, s.active[i], a);
        RowExactly(EventsOf(s.active[i].record), Known(s), a.journalWrites, x);
      }
    case Replay(batchId, overwrite, writes, statusWritten) =>
      ReplayFrame(s, batchId, overwrite, writes, statusWritten);
  }

  // ------------------------------------------------------------------
  // Runs from empty
  // ------------------------------------------------------------------

  /** The files just before step `j`. */
  function Before(steps: seq<Step>, j: nat): Files
    requires j <= |steps|
  {
    Run(NO_FILES, steps[..j])
  }

  lemma OneStepOn(steps: seq<Step>, n: nat)
    requires 0 < n <= |steps|
    ensures Before(steps, n) == Do(Before(steps, n - 1), steps[n - 1])
  {
    assert Front(steps[..n]) == steps[..n - 1];
  }

  lemma AllSteps(steps: seq<Step>)
    ensures Before(steps, |steps|) == Run(NO_FILES, steps)
  {
    assert steps[..|steps|] == steps;
  }

  predicate StatusAt(steps: seq<Step>, j: nat, key: string) {
    j < |steps| && WritesStatus(Before(steps, j), steps[j], key)
  }

  predicate StatusBefore(steps: seq<Step>, n: nat, key: string) {
    exists j: nat :: j < n && StatusAt(steps, j, key)
  }

  /** A key has a status exactly when some earlier step left one. */
  lemma StatusExactly(steps: seq<Step>, n: nat, key: string)
    requires n <= |steps|
    ensures key in Before(steps, n).status <==> StatusBefore(steps, n, key)
  {
    var there := seq(n + 1, j requires 0 <= j <= |steps| => key in Before(steps, j).status);
    var appears := seq(n, j requires 0 <= j => StatusAt(steps, j, key));
    forall j | 0 <= j < n ensures there[j + 1] <==> there[j] || appears[j] {
      OneStepOn(steps, j + 1);
      StatusStep(Before(steps, j), steps[j], key);
    }
    StaysOnceThere(there, appears);
    assert forall j :: 0 <= j < n ==> (appears[j] <==> StatusAt(steps, j, key));
  }

  /** Step `j` marks the key and no later step before `n` does. */
  predicate LastMark(steps: seq<Step>, j: nat, n: nat, key: string) {
    && j < n <= |steps| && Marks(Before(steps, j), steps[j], key)
    && forall i: nat :: j < i < n ==> !Marks(Before(steps, i), steps[i], key)
  }

  /** The state of a batch is the one given by the last step that marked it. */
  lemma {:induction false} StateIsLast(steps: seq<Step>, n: nat, key: string) returns (j: nat)
    requires n <= |steps| && key in Before(steps, n).status
    ensures LastMark(steps, j, n, key)
    ensures Before(steps, n).status[key].state == StateFrom(Before(steps, j), steps[j])
  {
    j := 0;
    if n > 0 {
      OneStepOn(steps, n);
      StatusRowStep(Before(steps, n - 1), steps[n - 1], key);
      if Marks(Before(steps, n - 1), steps[n - 1], key) {
        j := n - 1;
      } else {
        j := StateIsLast(steps, n - 1, key);
      }
    }
  }

  predicate QueuedAt(steps: seq<Step>, k: nat, f: BatchFile) {
    && k < |steps| && Queues(Before(steps, k), steps[k])
    && f == BatchFile(Before(steps, k).next, steps[k].record)
  }

  predicate ArchivedAt(steps: seq<Step>, j: nat, name: nat) {
    j < |steps| && Archives(Before(steps, j), steps[j], name)
  }

  /** Queued at step `k`, and not archived after it and before step `n`. */
  predicate StillActive(steps: seq<Step>, k: nat, n: nat, f: BatchFile) {
    k < n && QueuedAt(steps, k, f) && forall j: nat :: k < j < n ==> !ArchivedAt(steps, j, f.name)
  }

  /** A file is active exactly when some delivery queued it and no consumption archived it since. */
  lemma {:induction false} ActiveExactly(steps: seq<Step>, n: nat, f: BatchFile)
    requires n <= |steps|
    ensures f in Before(steps, n).active <==> exists k: nat :: StillActive(steps, k, n, f)
  {
    if n > 0 {
      OneStepOn(steps, n);
      ActiveExactly(steps, n - 1, f);
      ActiveStep(Before(steps, n - 1), steps[n - 1], f);
      forall k: nat
        ensures StillActive(steps, k, n, f)
           <==> (StillActive(steps, k, n - 1, f) && !ArchivedAt(steps, n - 1, f.name))
                || (k == n - 1 && QueuedAt(steps, k, f))
      {
      }
      if QueuedAt(steps, n - 1, f) {
        assert StillActive(steps, n - 1, n, f);
      }
      if f in Before(steps, n - 1).active && !ArchivedAt(steps, n - 1, f.name) {
        var k: nat :| StillActive(steps, k, n - 1, f);
        assert StillActive(steps, k, n, f);
      }
    }
  }

  lemma NextStep(s: Files, step: Step)
    ensures Do(s, step).next == s.next + if Queues(s, step) then 1 else 0
  {
    match step
    case Deliver(r, writes) =>
    case Consume(name, a) =>
      var i := FindFile(s.active, name);
      if i >= 0 {
        ConsumeJournal(s, s.active[i], a);
      }
    case Replay(batchId, overwrite, writes, statusWritten) =>
      ReplayFrame(s, batchId, overwrite, writes, statusWritten);
  }

  lemma {:induction false} NextGrows(steps: seq<Step>, k: nat, n: nat)
    requires k <= n <= |steps|
    ensures Before(steps, k).next <= Before(steps, n).next
    ensures k < n && Queues(Before(steps, k), steps[k]) ==> Before(steps, k).next < Before(steps, n).next
    decreases n
  {
    if k < n {
      OneStepOn(steps, n);
      NextGrows(steps, k, n - 1);
      NextStep(Before(steps, n - 1), steps[n - 1]);
    }
  }

  /** No two deliveries queue files of one name. */
  lemma NamesAreApart(steps: seq<Step>, k: nat, l: nat, f: BatchFile, g: BatchFile)
    requires QueuedAt(steps, k, f) && QueuedAt(steps, l, g) && f.name == g.name
    ensures f == g
  {
    if k < l {
      NextGrows(steps, k, l);
    } else if l < k {
      NextGrows(steps, l, k);
    }
  }

  lemma ActiveNamesAreApart(steps: seq<Step>, n: nat, f: BatchFile, g: BatchFile)
    requires n <= |steps| && f in Before(steps, n).active && g in Before(steps, n).active && f.name == g.name
    ensures f == g
  {
    ActiveExactly(steps, n, f);
    ActiveExactly(steps, n, g);
    var k: nat :| StillActive(steps, k, n, f);
    var l: nat :| StillActive(steps, l, n, g);
    NamesAreApart(steps, k, l, f, g);
  }

  // ------------------------------------------------------------------
  // From delivery to journal
  // ------------------------------------------------------------------

  predicate JournaledAt(steps: seq<Step>, j: nat, x: string) {
    j < |steps| && Journals(Before(steps, j), steps[j], x)
  }

  lemma JournalExactly(steps: seq<Step>, n: nat, x: string)
    requires n <= |steps|
    ensures x in Before(steps, n).journal <==> exists j: nat :: j < n && JournaledAt(steps, j, x)
  {
    var there := seq(n + 1, j requires 0 <= j <= |steps| => x in Before(steps, j).journal);
    var appears := seq(n, j requires 0 <= j => JournaledAt(steps, j, x));
    forall j | 0 <= j < n ensures there[j + 1] <==> there[j] || appears[j] {
      OneStepOn(steps, j + 1);
      JournalStep(Before(steps, j), steps[j], x);
    }
    StaysOnceThere(there, appears);
    assert forall j :: 0 <= j < n ==> (appears[j] <==> JournaledAt(steps, j, x));
  }

  /** The batch delivered at step `k` is queued under `name` and still active at step `j`, which consumes it,
      stores all its events and gets to the journal row of the signal. */
  predicate Journey(steps: seq<Step>, k: nat, j: nat, x: string) {
    && k < j < |steps| && steps[k].Deliver? && steps[j].Consume?
    && StillActive(steps, k, j, BatchFile(steps[j].name, steps[k].record))
    && var r, s, a := steps[k].record, Before(steps, j), steps[j].attempt;
    && Normalize(r, |r.events|).Some? && a.eventWrites >= |Plan(EventsOf(r), s.events.Keys)|
    && RowReached(EventsOf(r), Known(s), a.journalWrites, x)
  }

  lemma JourneyEnds(steps: seq<Step>, j: nat, x: string)
    requires JournaledAt(steps, j, x)
    ensures exists k: nat :: Journey(steps, k, j, x)
  {
    var s := Before(steps, j);
    var f := s.active[FindFile(s.active, steps[j].name)];
    ActiveExactly(steps, j, f);
    var k: nat :| StillActive(steps, k, j, f);
    assert Journey(steps, k, j, x);
  }

  lemma JourneyJournals(steps: seq<Step>, k: nat, j: nat, x: string)
    requires Journey(steps, k, j, x)
    ensures JournaledAt(steps, j, x)
  {
    var s := Before(steps, j);
    var f := BatchFile(steps[j].name, steps[k].record);
    ActiveExactly(steps, j, f);
    var i := FindFile(s.active, steps[j].name);
    assert f in s.active;
    assert i >= 0;
    ActiveNamesAreApart(steps, j, f, s.active[i]);
  }

  /** In every run, a signal is in the journal exactly when some delivery carried it all the way: no status
      stood in its way, no consumption archived its file first, and the one that did consume it got to its
      journal row. */
  lemma SignalJournaledExactly(steps: seq<Step>, x: string)
    ensures x in Run(NO_FILES, steps).journal <==> exists k: nat, j: nat :: Journey(steps, k, j, x)
  {
    JournalExactly(steps, |steps|, x);
    AllSteps(steps);
    if x in Run(NO_FILES, steps).journal {
      var j: nat :| JournaledAt(steps, j, x);
      JourneyEnds(steps, j, x);
    }
    forall k: nat, j: nat | Journey(steps, k, j, x) ensures JournaledAt(steps, j, x) {
      JourneyJournals(steps, k, j, x);
    }
  }

  // ------------------------------------------------------------------
  // What stands in the way
  // ------------------------------------------------------------------

  /** A delivery queues its batch exactly when it has an id, gets to the second write, and no earlier step
      left a status under its key, be it a delivery, a consumption or a replay. */
  lemma QueuedExactly(steps: seq<Step>, k: nat)
    requires k < |steps| && steps[k].Deliver?
    ensures
      var r := steps[k].record;
      var free := !StatusBefore(steps, k, SafeComponent(r.batchId));
      Queues(Before(steps, k), steps[k]) <==> r.batchId != "" && steps[k].writes >= 2 && free
  {
    StatusExactly(steps, k, SafeComponent(steps[k].record.batchId));
  }

  /** A delivery that stopped after the raw file, a replay of that file, and the delivery again: the replay
      left a status, so the batch is never queued. */
  lemma ReplayBlocksDelivery(r: Record, n: nat)
    requires r.batchId != "" && Normalize(r, |r.events|).Some? && n >= |Plan(EventsOf(r), {})|
    ensures Run(NO_FILES, [Deliver(r, 1), Replay(r.batchId, false, n, true), Deliver(r, 3)]).active == []
  {
    var first, second, third := Deliver(r, 1), Replay(r.batchId, false, n, true), Deliver(r, 3);
    var key := SafeComponent(r.batchId);
    var s1 := Do(NO_FILES, first);
    assert s1.raw == map[key := r] && s1.events.Keys == {};
    var s2 := Do(s1, second);
    StatusStep(s1, second, key);
    ReplayFrame(s1, r.batchId, false, n, true);
    assert Run(NO_FILES, [first]) == s1 by { assert Front([first]) == []; }
    assert Run(NO_FILES, [first, second]) == s2 by { assert Front([first, second]) == [first]; }
    assert Run(NO_FILES, [first, second, third]) == Do(s2, third) by {
      assert Front([first, second, third]) == [first, second];
    }
    assert key in s2.status && s2.active == [];
  }

  /** Of two batches whose ids share a file the one delivered later is dropped. */
  lemma SharedFileDropsBatch(r: Record, later: Record)
    requires r.batchId != "" && SafeComponent(r.batchId) == SafeComponent(later.batchId)
    ensures Run(NO_FILES, [Deliver(r, 3), Deliver(later, 3)]) == Run(NO_FILES, [Deliver(r, 3)])
  {
    assert Front([Deliver(r, 3)]) == [] && Front([Deliver(r, 3), Deliver(later, 3)]) == [Deliver(r, 3)];
  }

  predicate SignalsOf(es: seq<Event>, x: string) {
    x != "" && FirstSignal(es, x) >= 0
  }

  ghost predicate AllJournaled(es: seq<Event>, journal: seq<string>) {
    forall x :: SignalsOf(es, x) ==> x in journal
  }

  /** A consumption that archives its file journals all its signals exactly when no journal write fails; the
      failure is swallowed and the file archived all the same. */
  lemma ArchivedJournaledExactly(s: Files, step: Step)
    requires step.Consume? && Archives(s, step, step.name)
    ensures
      var es := Carried(s, step);
      AllJournaled(es, Do(s, step).journal) <==> step.attempt.journalWrites >= |JournalPlan(es, Known(s))|
  {
    var es, n := Carried(s, step), step.attempt.journalWrites;
    var ids := JournalPlan(es, Known(s));
    ConsumeJournal(s, s.active[FindFile(s.active, step.name)], step.attempt);
    JournalPlanNew(es, Known(s));
    if n < |ids| {
      PlanHasSignals(es, Known(s), ids[n]);
      assert SignalsOf(es, ids[n]);
      assert forall i :: 0 <= i < n ==> ids[i] != ids[n];
    } else {
      forall x | SignalsOf(es, x) ensures x in Do(s, step).journal {
        PlanHasSignals(es, Known(s), x);
      }
    }
  }

  /** Once nothing is active, deliveries of known batches, cycles and replays never add to the journal: what
      was archived without its rows stays without them. */
  lemma {:induction false} NothingMoreJournaled(s: Files, steps: seq<Step>)
    requires s.active == []
    requires forall i :: 0 <= i < |steps| && steps[i].Deliver? ==> SafeComponent(steps[i].record.batchId) in s.status
    ensures Run(s, steps).active == [] && Run(s, steps).journal == s.journal
    ensures s.status.Keys <= Run(s, steps).status.Keys
  {
    if steps != [] {
      var before, last := Run(s, Front(steps)), Last(steps);
      assert forall i :: 0 <= i < |Front(steps)| ==> Front(steps)[i] == steps[i];
      NothingMoreJournaled(s, Front(steps));
      assert last == steps[|steps| - 1];
      if last.Replay? {
        ReplayFrame(before, last.batchId, last.overwrite, last.writes, last.statusWritten);
      }
      forall key | key in before.status ensures key in Run(s, steps).status {
        StatusStep(before, last, key);
      }
    }
  }
}
