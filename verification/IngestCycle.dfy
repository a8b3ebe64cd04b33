/** The files of the batch ingest, updated in place: deliveries, the cycle over active files, replays. */
module IngestCycle {
  import opened Common
  import opened IngestBatch
  import opened EventFiles

  /** This attempt on the file takes it all the way. */
  predicate Completes(s: Files, name: nat, a: Attempt) {
    var i := FindFile(s.active, name);
    && i >= 0 && a.moved && a.statusWritten
    && var r := s.active[i].record;
    var es := Normalize(r, |r.events|);
    es.Some? && a.eventWrites >= |Plan(es.value, s.events.Keys)|
  }

  function CompletedCount(s: Files, active: seq<BatchFile>, attempts: seq<Attempt>, n: nat): nat
    requires n <= |active| && n <= |attempts|
  {
    if n == 0 then 0 else
    CompletedCount(s, active, attempts, n - 1) +
      if Completes(Run(s, CycleSteps(active, attempts)[..n - 1]), active[n - 1].name, attempts[n - 1]) then 1 else 0
  }

  /** What a cycle does: each file that was active when it began is consumed once, in order. */
  function CycleSteps(active: seq<BatchFile>, attempts: seq<Attempt>): seq<Step> {
    var total := if |attempts| < |active| then |attempts| else |active|;
    seq(total, k requires 0 <= k < total => Consume(active[k].name, attempts[k]))
  }

  lemma CycleAdvances(
      s: Files, active: seq<BatchFile>, attempts: seq<Attempt>, k: nat, before: Files, after: Files)
    requires k < |active| && k < |attempts| && before == Run(s, CycleSteps(active, attempts)[..k])
    requires after == Do(before, Consume(active[k].name, attempts[k]))
    ensures after == Run(s, CycleSteps(active, attempts)[..k + 1])
    ensures CompletedCount(s, active, attempts, k + 1)
         == CompletedCount(s, active, attempts, k)
            + (if Completes(before, active[k].name, attempts[k]) then 1 else 0)
  {
    var steps := CycleSteps(active, attempts);
    assert Front(steps[..k + 1]) == steps[..k];
  }

  class IngestStore {
    var files: Files

    constructor ()
      ensures files == NO_FILES
    {
      files := NO_FILES;
    }

    method SaveRawBatchToActive(r: Record, writes: nat) returns (duplicate: bool)
      modifies this
      ensures files == SaveBatch(old(files), r, writes)
      ensures duplicate <==> r.batchId != "" && SafeComponent(r.batchId) in old(files).status
    {
      var key := SafeComponent(r.batchId);
      if r.batchId == "" {
        return false;
      }
      if key in files.status {
        return true;
      }
      duplicate := false;
      if writes == 0 { return; }
      files := files.(raw := files.raw[key := r]);
      if writes == 1 { return; }
      var name := files.next;
      files := files.(active := files.active + [BatchFile(name, r)], next := name + 1);
      if writes == 2 { return; }
      files := files.(status := files.status[key := StatusRow(Queued, Some(name), None)]);
    }

    /** The three files of an event, or as many of them as there are writes left. */
    method WriteEvent(e: Event, left: nat)
      modifies this
      ensures files == OneStored(old(files), e, if left < 3 then left else 3)
    {
      var key := SafeComponent(e.id);
      if left > 0 { files := files.(events := files.events[key := e], written := files.written + [key]); }
      if left > 1 { files := files.(micro := files.micro[key := e.micro]); }
      if left > 2 { files := files.(macro := files.macro[key := e.macro]); }
    }

    /** Store the events of a batch, those that are not stored yet or with `overwrite` all; `writes` file
        writes succeed. */
    method PersistNormalizedEvents(es: seq<Event>, overwrite: bool, writes: nat)
      returns (written: nat, duplicates: nat, ok: bool)
      modifies this
      ensures files == Persist(old(files), es, overwrite, writes)
      ensures ok <==> writes >= |PlanOf(es, old(files).events.Keys, overwrite)|
      ensures ok ==> written * 3 == |PlanOf(es, old(files).events.Keys, overwrite)|
      ensures ok ==> written + duplicates == NamedCount(es) && (overwrite ==> duplicates == 0)
    {
      ghost var s := files;
      ghost var stored := s.events.Keys;
      written, duplicates, ok := 0, 0, true;
      StoresNothing(s, overwrite, writes);
      for i := 0 to |es|
        invariant files == Persist(s, es[..i], overwrite, writes)
        invariant written * 3 == |PlanOf(es[..i], stored, overwrite)| <= writes
        invariant written + duplicates == NamedCount(es[..i]) && (overwrite ==> duplicates == 0)
      {
        var e := es[i];
        PersistNext(s, es, i, overwrite, writes);
        if e.id == "" {
          continue;
        }
        var key := SafeComponent(e.id);
        if key in files.events && !overwrite {
          duplicates := duplicates + 1;
          continue;
        }
        var left := writes - written * 3;
        WriteEvent(e, left);
        if left < 3 {
          PersistStopped(s, es, i + 1, overwrite, writes);
          ok := false;
          return;
        }
        written := written + 1;
      }
      assert es[..|es|] == es;
    }

    method RecordSignalSnapshots(es: seq<Event>, writes: nat) returns (written: nat)
      modifies this
      ensures files == old(files).(journal := old(files).journal
        + Take(JournalPlan(es, set x | x in old(files).journal), writes))
      ensures written == |files.journal| - |old(files).journal|
    {
      ghost var journal := files.journal;
      var known := set x | x in files.journal;
      var existing := known;
      written := 0;
      for i := 0 to |es|
        invariant files == old(files).(journal := journal + JournalPlan(es[..i], known))
        invariant written == |JournalPlan(es[..i], known)| <= writes
        invariant existing == known + set x | x in JournalPlan(es[..i], known)
      {
        var id := Trim(es[i].id);
        JournalPlanStep(es, i, known);
        if id == "" || id in existing {
          continue;
        }
        if written == writes {
          JournalPlanStops(es, i, known);
          return;
        }
        AddedToSet(JournalPlan(es[..i], known), id);
        files := files.(journal := files.journal + [id]);
        existing := existing + {id};
        written := written + 1;
      }
      assert es[..|es|] == es;
    }

    /** The work on one active file in a cycle. */
    method ProcessActiveFile(name: nat, a: Attempt) returns (processed: bool)
      modifies this
      ensures files == Do(old(files), Consume(name, a))
      ensures processed <==> Completes(old(files), name, a)
    {
      processed := false;
      var i := FindFile(files.active, name);
      if i < 0 {
        return;
      }
      var f := files.active[i];
      var key := SafeComponent(f.record.batchId);
      ghost var before := files;
      var es := NormalizeBatchRecord(f.record);
      if es.None? {
        files := MarkFailed(files, key, a.caught);
        return;
      }
      var written, duplicates, ok := PersistNormalizedEvents(es.value, false, a.eventWrites);
      if !ok {
        files := MarkFailed(files, key, a.caught);
        return;
      }
      WritesFrame(before, Take(Plan(es.value, before.events.Keys), a.eventWrites));
      var rows := RecordSignalSnapshots(es.value, a.journalWrites);
      if !a.moved {
        files := MarkFailed(files, key, a.caught);
        return;
      }
      files := Archive(files, f);
      if !a.statusWritten {
        files := MarkFailed(files, key, a.caught);
        return;
      }
      files := files.(status := files.status[key := StatusRow(Processed, None, Some(name))]);
      processed := true;
    }

    /** One locked cycle over the files that were active when it began; it ends early when there are
        fewer attempts than files, as when the process dies. */
    method RunIngestCycleOnce(attempts: seq<Attempt>) returns (scanned: nat, processed: nat)
      modifies this
      ensures scanned == if |attempts| < |old(files).active| then |attempts| else |old(files).active|
      ensures files == Run(old(files), CycleSteps(old(files).active, attempts))
      ensures processed == CompletedCount(old(files), old(files).active, attempts, scanned)
    {
      var names := files.active;
      ghost var before := files;
      var total := if |attempts| < |names| then |attempts| else |names|;
      ghost var steps := CycleSteps(names, attempts);
      scanned, processed := 0, 0;
      while scanned < total
        invariant scanned <= total && processed == CompletedCount(before, names, attempts, scanned)
        invariant files == Run(before, steps[..scanned])
      {
        ghost var here := files;
        var done := ProcessActiveFile(names[scanned].name, attempts[scanned]);
        CycleAdvances(before, names, attempts, scanned, here, files);
        scanned := scanned + 1;
        if done {
          processed := processed + 1;
        }
      }
      assert steps[..total] == steps;
    }

    /** Store a raw batch again. */
    method PersistReplay(batchId: string, overwrite: bool, writes: nat, statusWritten: bool) returns (found: bool)
      modifies this
      ensures files == Do(old(files), Replay(batchId, overwrite, writes, statusWritten))
      ensures found <==> SafeComponent(batchId) in old(files).raw
    {
      var key := SafeComponent(batchId);
      if key !in files.raw {
        return false;
      }
      found := true;
      var es := NormalizeBatchRecord(files.raw[key]);
      if es.None? {
        return;
      }
      var written, duplicates, ok := PersistNormalizedEvents(es.value, overwrite, writes);
      if ok && statusWritten {
        var state := if overwrite then ReplayedOverwrite else Replayed;
        files := files.(status := files.status[key := StatusOf(files, key).(state := state)]);
      }
    }
  }

  predicate IsWritten(s: Files, e: Event, overwrite: bool) {
    e.id != "" && (overwrite || SafeComponent(e.id) !in s.events)
  }

  /** One more event of a store that has come so far in full: it is written when its id is not empty and
      its file is not there yet or overwritten, and then up to three of its files. */
  lemma PersistNext(s: Files, es: seq<Event>, i: nat, overwrite: bool, n: nat)
    requires i < |es| && n >= |PlanOf(es[..i], s.events.Keys, overwrite)|
    ensures |PlanOf(es[..i + 1], s.events.Keys, overwrite)|
         == |PlanOf(es[..i], s.events.Keys, overwrite)|
            + (if IsWritten(Persist(s, es[..i], overwrite, n), es[i], overwrite) then 3 else 0)
    ensures NamedCount(es[..i + 1]) == NamedCount(es[..i]) + (if es[i].id != "" then 1 else 0)
    ensures
      var so, left := Persist(s, es[..i], overwrite, n), n - |PlanOf(es[..i], s.events.Keys, overwrite)|;
      Persist(s, es[..i + 1], overwrite, n)
        == (if IsWritten(so, es[i], overwrite) && left > 0 then OneStored(so, es[i], if left < 3 then left else 3)
            else so)
  {
    assert Front(es[..i + 1]) == es[..i] && Last(es[..i + 1]) == es[i];
    PersistStep(s, es[..i + 1], overwrite, n);
    EnoughIsAll(s, es[..i], overwrite, n);
    if !overwrite {
      StoreInFull(s, es[..i], n);
    }
  }

  lemma {:induction false} PlanGrows(es: seq<Event>, i: nat, n: nat, stored: set<string>, overwrite: bool)
    requires i <= n <= |es|
    ensures PlanOf(es[..i], stored, overwrite) <= PlanOf(es[..n], stored, overwrite)
    decreases n
  {
    if i < n {
      assert Front(es[..n]) == es[..n - 1];
      PlanGrows(es, i, n - 1, stored, overwrite);
    }
  }

  lemma PersistStopped(s: Files, es: seq<Event>, i: nat, overwrite: bool, n: nat)
    requires i <= |es| && n < |PlanOf(es[..i], s.events.Keys, overwrite)|
    ensures Persist(s, es, overwrite, n) == Persist(s, es[..i], overwrite, n)
    ensures n < |PlanOf(es, s.events.Keys, overwrite)|
  {
    PlanGrows(es, i, |es|, s.events.Keys, overwrite);
    assert es[..|es|] == es;
    assert Take(PlanOf(es, s.events.Keys, overwrite), n) == Take(PlanOf(es[..i], s.events.Keys, overwrite), n);
  }

  lemma AddedToSet(ids: seq<string>, id: string)
    ensures (set x | x in ids + [id]) == (set x | x in ids) + {id}
  {
  }

  lemma JournalPlanStep(es: seq<Event>, i: nat, known: set<string>)
    requires i < |es|
    ensures
      var ids, id := JournalPlan(es[..i], known), Trim(es[i].id);
      JournalPlan(es[..i + 1], known) == if id == "" || id in known || id in ids then ids else ids + [id]
  {
    assert Front(es[..i + 1]) == es[..i] && Last(es[..i + 1]) == es[i];
  }

  lemma JournalPlanStops(es: seq<Event>, i: nat, known: set<string>)
    requires i < |es| && JournalPlan(es[..i + 1], known) != JournalPlan(es[..i], known)
    ensures Take(JournalPlan(es, known), |JournalPlan(es[..i], known)|) == JournalPlan(es[..i], known)
  {
    JournalPlanPrefix(es, i, |es|, known);
    JournalPlanPrefix(es, i, i + 1, known);
    JournalPlanPrefix(es, i + 1, |es|, known);
    assert es[..|es|] == es;
  }

  lemma {:induction false} JournalPlanPrefix(es: seq<Event>, i: nat, n: nat, known: set<string>)
    requires i <= n <= |es|
    ensures JournalPlan(es[..i], known) <= JournalPlan(es[..n], known)
    decreases n
  {
    if i < n {
      assert Front(es[..n]) == es[..n - 1];
      JournalPlanPrefix(es, i, n - 1, known);
    }
  }
}
