/** Which events of the batch ingest share a file, what each file holds after a store with or without
    overwriting, and which context files a crash loses until a replay overwrites them. */
module EventFiles {
  import opened Common
  import opened IngestBatch

  predicate AllSpaces(s: string) {
    forall i :: 0 <= i < |s| ==> s[i] == ' ' || s[i] == '\t' || s[i] == '\n' || s[i] == '\r'
  }

  lemma {:induction false} TrimLeftExactly(s: string) returns (l: string)
    ensures s == l + TrimLeft(s) && AllSpaces(l)
    ensures TrimLeft(s) != "" ==> !AllSpaces(TrimLeft(s)[..1])
  {
    l := "";
    if s != "" && IsSpace(s[0]) {
      l := TrimLeftExactly(s[1..]);
      l := [s[0]] + l;
    } else if s != "" {
      assert s[..1][0] == s[0];
    }
  }

  lemma {:induction false} TrimRightExactly(s: string) returns (r: string)
    ensures s == TrimRight(s) + r && AllSpaces(r)
    ensures TrimRight(s) != "" ==> !AllSpaces([Last(TrimRight(s))])
  {
    r := "";
    if s != "" && IsSpace(Last(s)) {
      r := TrimRightExactly(Front(s));
      r := r + [Last(s)];
    } else if s != "" {
      assert [Last(s)][0] == Last(s);
    }
  }

  /** Trimming takes the spaces at both ends away and nothing else. */
  lemma TrimExactly(s: string) returns (l: string, r: string)
    ensures s == l + Trim(s) + r && AllSpaces(l) && AllSpaces(r)
    ensures Trim(s) != "" ==> !AllSpaces(Trim(s)[..1]) && !AllSpaces([Last(Trim(s))])
  {
    l := TrimLeftExactly(s);
    r := TrimRightExactly(TrimLeft(s));
    if Trim(s) != "" {
      assert TrimLeft(s)[..1] == Trim(s)[..1];
    }
  }

  /** The text is this word in any mix of upper and lower case. */
  predicate IsWord(s: string, word: string) {
    |s| == |word| && forall i :: 0 <= i < |s| ==>
      s[i] == word[i] || ('A' <= s[i] <= 'Z' && s[i] as int + 32 == word[i] as int)
  }

  lemma LowerIsWord(s: string, word: string)
    requires forall i :: 0 <= i < |word| ==> 'a' <= word[i] <= 'z'
    ensures Lower(s) == word <==> IsWord(s, word)
  {
    assert |Lower(s)| == |s|;
    if Lower(s) == word {
      forall i | 0 <= i < |s| ensures s[i] == word[i] || ('A' <= s[i] <= 'Z' && s[i] as int + 32 == word[i] as int) {
        assert Lower(s)[i] == word[i];
      }
    }
  }

  /** An event is a sale exactly when its side, trimmed, reads sell or short in any case. */
  lemma SideExactly(side: string)
    ensures NormalizeEventSide(side) == Short <==> IsWord(Trim(side), "sell") || IsWord(Trim(side), "short")
  {
    LowerIsWord(Trim(side), "sell");
    LowerIsWord(Trim(side), "short");
  }

  /** Letters, digits, hyphen and underscore (by their codes) are kept in a file name, everything else is
      masked. */
  lemma MaskExactly(c: char)
    ensures
      var code := c as int;
      var safe := 97 <= code <= 122 || 65 <= code <= 90 || 48 <= code <= 57 || code == 45 || code == 95;
      Mask(c) == if safe then c else '_'
  {
  }

  /** The two texts are equal but for characters that become underscores. */
  predicate SameUpToUnsafe(a: string, b: string) {
    |a| == |b| && forall i :: 0 <= i < |a| ==> a[i] == b[i] || (Mask(a[i]) == '_' && Mask(b[i]) == '_')
  }

  /** Two ids share a file exactly when, trimmed, they are equal up to unsafe characters; an id of spaces
      counts as "unknown". */
  lemma SameFileExactly(a: string, b: string)
    ensures SafeComponent(a) == SafeComponent(b) <==> SameUpToUnsafe(OrUnknown(a), OrUnknown(b))
  {
    assert Masked("unknown") == "unknown";
    assert SafeComponent(a) == Masked(OrUnknown(a)) && SafeComponent(b) == Masked(OrUnknown(b));
    MaskedSameExactly(OrUnknown(a), OrUnknown(b));
  }

  lemma MaskedSameExactly(a: string, b: string)
    ensures Masked(a) == Masked(b) <==> SameUpToUnsafe(a, b)
  {
    if Masked(a) == Masked(b) {
      assert |Masked(a)| == |a| && |Masked(b)| == |b|;
      forall i | 0 <= i < |a| ensures a[i] == b[i] || (Mask(a[i]) == '_' && Mask(b[i]) == '_') {
        assert Masked(a)[i] == Mask(a[i]) && Masked(b)[i] == Mask(b[i]);
      }
    }
  }

  predicate AllSafe(s: string) {
    forall i :: 0 <= i < |s| ==> IsSafe(s[i])
  }

  lemma SafeIdKeepsName(a: string)
    requires a != "" && AllSafe(a)
    ensures SafeComponent(a) == a
  {
    assert Trim(a) == a;
  }

  /** Ids made of safe characters never collide. */
  lemma SafeIdsAreApart(a: string, b: string)
    requires a != "" && AllSafe(a) && b != "" && AllSafe(b)
    ensures SafeComponent(a) == SafeComponent(b) <==> a == b
  {
    SafeIdKeepsName(a);
    SafeIdKeepsName(b);
  }

  /** The later of two events is taken for a duplicate exactly when their ids share a file. */
  lemma DuplicateExactly(e: Event, f: Event)
    requires e.id != "" && f.id != ""
    ensures Plan([e, f], {}) == Plan([e], {}) <==> SafeComponent(e.id) == SafeComponent(f.id)
  {
    assert Front([e, f]) == [e] && Front([e]) == [];
    KeysStep([e]);
    assert Keys([]) == {};
  }

  predicate Under(e: Event, key: string) {
    e.id != "" && SafeComponent(e.id) == key
  }

  /** Place of the first event of the batch that belongs under this key, or -1. */
  function FirstUnder(es: seq<Event>, key: string): (i: int)
    ensures -1 <= i < |es|
    ensures i >= 0 ==> Under(es[i], key)
    ensures forall j :: 0 <= j < |es| && (i < 0 || j < i) ==> !Under(es[j], key)
  {
    if es == [] then -1
    else if FirstUnder(Front(es), key) >= 0 then FirstUnder(Front(es), key)
    else if Under(Last(es), key) then |es| - 1
    else -1
  }

  lemma FirstUnderIsKey(es: seq<Event>, key: string)
    ensures FirstUnder(es, key) >= 0 <==> key in Keys(es)
  {
    if key in Keys(es) {
      var i :| 0 <= i < |es| && es[i].id != "" && SafeComponent(es[i].id) == key;
      assert Under(es[i], key);
    }
  }

  /** What a full store leaves under a key: what was stored before, else the first event of the batch that
      belongs there, with its contexts. */
  ghost predicate HoldsFirst(s: Files, es: seq<Event>, s': Files, key: string) {
    var i := FirstUnder(es, key);
    && (key in s'.events <==> key in s.events || i >= 0)
    && (key in s.events ==> s'.events[key] == s.events[key])
    && (key !in s.events && i >= 0 ==>
          && s'.events[key] == es[i]
          && key in s'.micro && s'.micro[key] == es[i].micro
          && key in s'.macro && s'.macro[key] == es[i].macro)
  }

  lemma OneMoreHoldsFirst(s: Files, es: seq<Event>, mid: Files, key: string)
    requires es != [] && HoldsFirst(s, Front(es), mid, key) && NewEvent(es, s.events.Keys)
    requires SafeComponent(Last(es).id) !in mid.events
    ensures HoldsFirst(s, es, OneStored(mid, Last(es), 3), key)
  {
    FirstUnderIsKey(Front(es), key);
  }

  lemma SameHoldsFirst(s: Files, es: seq<Event>, mid: Files, key: string)
    requires es != [] && HoldsFirst(s, Front(es), mid, key) && !NewEvent(es, s.events.Keys)
    ensures HoldsFirst(s, es, mid, key)
  {
    FirstUnderIsKey(Front(es), key);
  }

  /** After a full store an event has its own file exactly when its key was not stored and no earlier event
      of the batch has it: each file holds the first event that belongs there. */
  lemma {:induction false} FileHoldsFirst(s: Files, es: seq<Event>, n: nat, key: string)
    requires n >= |Plan(es, s.events.Keys)|
    ensures HoldsFirst(s, es, Store(s, es, n), key)
  {
    if es == [] {
      assert Take(Plan(es, s.events.Keys), n) == [];
    } else {
      var front := |Plan(Front(es), s.events.Keys)|;
      StoreStep(s, es, n);
      PlanStep(es, s.events.Keys);
      if NewEvent(es, s.events.Keys) {
        FileHoldsFirst(s, Front(es), front, key);
        StoreInFull(s, Front(es), front);
        OneMoreHoldsFirst(s, es, Store(s, Front(es), front), key);
      } else {
        FileHoldsFirst(s, Front(es), n, key);
        SameHoldsFirst(s, es, Store(s, Front(es), n), key);
      }
    }
  }

  /** An event adds writes to the plan exactly when its key is not stored and it is the first of its batch
      under that key. */
  lemma OwnFileExactly(es: seq<Event>, stored: set<string>, i: nat)
    requires i < |es| && es[i].id != ""
    ensures
      var key := SafeComponent(es[i].id);
      Plan(es[..i + 1], stored) == Plan(es[..i], stored)
        + if key !in stored && FirstUnder(es[..i + 1], key) == i then Trio(es[i]) else []
  {
    var key := SafeComponent(es[i].id);
    assert Front(es[..i + 1]) == es[..i] && Last(es[..i + 1]) == es[i];
    FirstUnderIsKey(es[..i], key);
    assert Under(es[..i + 1][i], key);
    assert Plan(es[..i], stored) + [] == Plan(es[..i], stored);
  }

  /** For instance, a colon and an underscore: the later event is dropped. */
  lemma UnsafeIdsCollide(e: Event, f: Event)
    requires e.id == "a:b" && f.id == "a_b"
    ensures SafeComponent(e.id) == SafeComponent(f.id)
    ensures Plan([e, f], {}) == Plan([e], {})
  {
    assert Trim("a:b") == "a:b" && Trim("a_b") == "a_b";
    assert SafeComponent("a:b") == SafeComponent("a_b");
    assert Front([e, f]) == [e];
    assert SafeComponent(e.id) in Keys([e]) by { assert [e][0].id != ""; }
  }

  // ------------------------------------------------------------------
  // Context files lost to a crash
  // ------------------------------------------------------------------

  /** Every stored event has both of its context files. */
  ghost predicate ContextsComplete(s: Files) {
    s.micro.Keys == s.events.Keys && s.macro.Keys == s.events.Keys
  }

  /** The first `k` of the three files of a new event complete its contexts only when `k` is 0 or 3. */
  lemma OneStoredContexts(s: Files, e: Event, k: nat)
    requires ContextsComplete(s) && SafeComponent(e.id) !in s.events.Keys && k <= 3
    ensures ContextsComplete(OneStored(s, e, k)) <==> k == 0 || k == 3
  {
    var key := SafeComponent(e.id);
    var after := OneStored(s, e, k);
    if k == 3 {
      assert after.micro.Keys == s.micro.Keys + {key} && after.events.Keys == s.events.Keys + {key};
      assert after.macro.Keys == s.macro.Keys + {key};
    } else if k > 0 {
      assert key in after.events.Keys && key !in after.macro.Keys;
    }
  }

  /** `n` of `total` writes end between two events. */
  predicate EndsBetween(n: nat, total: nat) {
    n >= total || n % 3 == 0
  }

  lemma PlanStep(es: seq<Event>, stored: set<string>)
    requires es != []
    ensures |Plan(es, stored)| == |Plan(Front(es), stored)| + if NewEvent(es, stored) then 3 else 0
  {
  }

  lemma {:induction false} PlanIsTriples(es: seq<Event>, stored: set<string>)
    ensures |Plan(es, stored)| % 3 == 0
  {
    if es != [] {
      PlanIsTriples(Front(es), stored);
      PlanStep(es, stored);
    }
  }

  lemma EndsInTriple(n: nat, front: nat)
    requires front % 3 == 0
    ensures EndsBetween(front, front)
    ensures EndsBetween(n, front + 3) <==> if n > front then n - front >= 3 else EndsBetween(n, front)
  {
  }

  /** A store keeps the contexts complete exactly when it does not stop inside the three writes of
      one event. */
  lemma {:induction false} StoreContexts(s: Files, es: seq<Event>, n: nat)
    requires ContextsComplete(s)
    ensures ContextsComplete(Store(s, es, n)) <==> EndsBetween(n, |Plan(es, s.events.Keys)|)
  {
    var stored := s.events.Keys;
    PlanIsTriples(es, stored);
    if es == [] {
      assert Take(Plan(es, stored), n) == [];
    } else {
      var front := |Plan(Front(es), stored)|;
      PlanIsTriples(Front(es), stored);
      PlanStep(es, stored);
      if n > front && NewEvent(es, stored) {
        StoreContexts(s, Front(es), front);
        EndsInTriple(n, front);
        LastContexts(s, es, n);
      } else {
        StoreContexts(s, Front(es), n);
        StoreStep(s, es, n);
        if n <= front { EndsInTriple(n, front); }
      }
    }
  }

  lemma LastContexts(s: Files, es: seq<Event>, n: nat)
    requires es != [] && NewEvent(es, s.events.Keys) && n > |Plan(Front(es), s.events.Keys)|
    requires ContextsComplete(Store(s, Front(es), |Plan(Front(es), s.events.Keys)|))
    ensures ContextsComplete(Store(s, es, n)) <==> n - |Plan(Front(es), s.events.Keys)| >= 3
  {
    var front := |Plan(Front(es), s.events.Keys)|;
    StoreStep(s, es, n);
    StoreInFull(s, Front(es), front);
    OneStoredContexts(Store(s, Front(es), front), Last(es), if n - front < 3 then n - front else 3);
  }

  /** The k-th of the three files of a key is there: its event, its micro or its macro context. */
  predicate HasFile(s: Files, key: string, k: nat) {
    if k == 1 then key in s.events else if k == 2 then key in s.micro else key in s.macro
  }

  /** `n` writes get to the k-th file of the first event of the batch under this key, and write it. */
  predicate Reaches(es: seq<Event>, stored: set<string>, overwrite: bool, n: nat, key: string, k: nat) {
    var i := FirstUnder(es, key);
    i >= 0 && (overwrite || key !in stored) && n >= |PlanOf(es[..i], stored, overwrite)| + k
  }

  predicate Writes(es: seq<Event>, stored: set<string>, overwrite: bool)
    requires es != []
  {
    if overwrite then Last(es).id != "" else NewEvent(es, stored)
  }

  lemma PersistStep(s: Files, es: seq<Event>, overwrite: bool, n: nat)
    requires es != []
    ensures
      var stored := s.events.Keys;
      var front := |PlanOf(Front(es), stored, overwrite)|;
      && |PlanOf(es, stored, overwrite)| == front + (if Writes(es, stored, overwrite) then 3 else 0)
      && Persist(s, es, overwrite, n)
         == (if n <= front || !Writes(es, stored, overwrite) then Persist(s, Front(es), overwrite, n)
             else OneStored(Persist(s, Front(es), overwrite, front), Last(es),
                            if n - front < 3 then n - front else 3))
  {
    if overwrite {
      RewriteStep(s, es, n);
    } else {
      StoreStep(s, es, n);
      PlanStep(es, s.events.Keys);
    }
  }

  lemma EnoughIsAll(s: Files, es: seq<Event>, overwrite: bool, n: nat)
    requires n >= |PlanOf(es, s.events.Keys, overwrite)|
    ensures Persist(s, es, overwrite, n) == Persist(s, es, overwrite, |PlanOf(es, s.events.Keys, overwrite)|)
  {
    var plan := PlanOf(es, s.events.Keys, overwrite);
    assert Take(plan, n) == plan == Take(plan, |plan|);
  }

  lemma {:induction false} RewritePlanGrows(es: seq<Event>, i: nat)
    requires i < |es| && es[i].id != ""
    ensures |RewritePlan(es)| >= |RewritePlan(es[..i])| + 3
  {
    if i == |es| - 1 {
      assert es[..i] == Front(es);
    } else {
      RewritePlanGrows(Front(es), i);
      assert Front(es)[..i] == es[..i];
    }
  }

  lemma FirstUnderFront(es: seq<Event>, key: string)
    requires es != []
    ensures FirstUnder(Front(es), key) >= 0 ==> FirstUnder(es, key) == FirstUnder(Front(es), key)
    ensures
      var i := FirstUnder(es, key);
      i >= 0 ==> es[..i] == if i == |es| - 1 then Front(es) else Front(es)[..i]
  {
  }

  /** The last event of the batch, when its turn comes. */
  lemma LastSupplies(s: Files, es: seq<Event>, overwrite: bool, n: nat, key: string, k: nat, mid: Files)
    requires es != [] && 1 <= k <= 3 && Writes(es, s.events.Keys, overwrite)
    requires n > |PlanOf(Front(es), s.events.Keys, overwrite)|
    requires HasFile(mid, key, k)
        <==> HasFile(s, key, k) || Reaches(Front(es), s.events.Keys, overwrite, n, key, k)
    ensures
      var left := n - |PlanOf(Front(es), s.events.Keys, overwrite)|;
      var s' := OneStored(mid, Last(es), if left < 3 then left else 3);
      HasFile(s', key, k) <==> HasFile(s, key, k) || Reaches(es, s.events.Keys, overwrite, n, key, k)
  {
    FirstUnderFront(es, key);
    FirstUnderIsKey(Front(es), key);
    var i := FirstUnder(Front(es), key);
    if i >= 0 && overwrite {
      RewritePlanGrows(Front(es), i);
    }
  }

  lemma IdleSupplies(es: seq<Event>, stored: set<string>, overwrite: bool, n: nat, key: string, k: nat)
    requires es != [] && 1 <= k <= 3
    requires !Writes(es, stored, overwrite) || n <= |PlanOf(Front(es), stored, overwrite)|
    ensures Reaches(es, stored, overwrite, n, key, k) <==> Reaches(Front(es), stored, overwrite, n, key, k)
  {
    FirstUnderFront(es, key);
    FirstUnderIsKey(Front(es), key);
  }

  /** After a store, stopped anywhere, a key has its k-th file exactly when it had it before or the writes
      got to it. */
  lemma {:induction false} PersistSupplies(s: Files, es: seq<Event>, overwrite: bool, n: nat, key: string, k: nat)
    requires 1 <= k <= 3
    ensures HasFile(Persist(s, es, overwrite, n), key, k)
       <==> HasFile(s, key, k) || Reaches(es, s.events.Keys, overwrite, n, key, k)
  {
    if es == [] {
      StoresNothing(s, overwrite, n);
      return;
    }
    var front := |PlanOf(Front(es), s.events.Keys, overwrite)|;
    PersistStep(s, es, overwrite, n);
    PersistSupplies(s, Front(es), overwrite, n, key, k);
    if n > front && Writes(es, s.events.Keys, overwrite) {
      EnoughIsAll(s, Front(es), overwrite, n);
      LastSupplies(s, es, overwrite, n, key, k, Persist(s, Front(es), overwrite, n));
    } else {
      IdleSupplies(es, s.events.Keys, overwrite, n, key, k);
    }
  }

  /** This step of the run writes the k-th file of the key. */
  predicate Supplies(s: Files, step: Step, key: string, k: nat) {
    Reaches(Carried(s, step), s.events.Keys, Overwrites(step), WritesIn(step), key, k)
  }

  predicate SuppliedAt(s: Files, steps: seq<Step>, j: nat, key: string, k: nat) {
    j < |steps| && Supplies(Run(s, steps[..j]), steps[j], key, k)
  }

  lemma StepSupplies(s: Files, step: Step, key: string, k: nat)
    requires 1 <= k <= 3
    ensures HasFile(Do(s, step), key, k) <==> HasFile(s, key, k) || Supplies(s, step, key, k)
  {
    StepStores(s, step);
    PersistSupplies(s, Carried(s, step), Overwrites(step), WritesIn(step), key, k);
  }

  lemma NextSupplies(s: Files, steps: seq<Step>, j: nat, key: string, k: nat)
    requires 1 <= k <= 3 && j < |steps|
    ensures HasFile(Run(s, steps[..j + 1]), key, k)
       <==> HasFile(Run(s, steps[..j]), key, k) || SuppliedAt(s, steps, j, key, k)
  {
    assert Front(steps[..j + 1]) == steps[..j];
    StepSupplies(Run(s, steps[..j]), steps[j], key, k);
  }

  /** In every run, a key has its k-th file at the end exactly when it had it at the start or some step
      writes it. */
  lemma FileExactly(s: Files, steps: seq<Step>, key: string, k: nat)
    requires 1 <= k <= 3
    ensures HasFile(Run(s, steps), key, k)
       <==> HasFile(s, key, k) || exists j: nat :: SuppliedAt(s, steps, j, key, k)
  {
    var there := seq(|steps| + 1, j requires 0 <= j <= |steps| => HasFile(Run(s, steps[..j]), key, k));
    var appears := seq(|steps|, j requires 0 <= j => SuppliedAt(s, steps, j, key, k));
    forall j | 0 <= j < |steps| ensures there[j + 1] <==> there[j] || appears[j] {
      NextSupplies(s, steps, j, key, k);
    }
    StaysOnceThere(there, appears);
    assert steps[..|steps|] == steps && steps[..0] == [];
    assert forall j :: 0 <= j < |steps| ==> (appears[j] <==> SuppliedAt(s, steps, j, key, k));
  }

  /** An overwriting replay whose raw batch has an event under the key and whose writes get to the k-th
      file of the first such event. */
  predicate Rewrites(s: Files, step: Step, key: string, k: nat) {
    && Overwrites(step)
    && var es := Carried(s, step);
    var i := FirstUnder(es, key);
    i >= 0 && step.writes >= 3 * NamedCount(es[..i]) + k
  }

  predicate RewrittenAt(s: Files, steps: seq<Step>, j: nat, key: string, k: nat) {
    j < |steps| && Rewrites(Run(s, steps[..j]), steps[j], key, k)
  }

  lemma {:induction false} StoredStays(s: Files, steps: seq<Step>, key: string)
    requires key in s.events
    ensures key in Run(s, steps).events
  {
    FileExactly(s, steps, key, 1);
  }

  /** Once an event is stored, a context file of it is there after a run exactly when it was there before
      or an overwriting replay got to it. */
  lemma LostContextExactly(s: Files, steps: seq<Step>, key: string, k: nat)
    requires key in s.events && 1 <= k <= 3
    ensures HasFile(Run(s, steps), key, k)
       <==> HasFile(s, key, k) || exists j: nat :: RewrittenAt(s, steps, j, key, k)
  {
    FileExactly(s, steps, key, k);
    forall j: nat ensures SuppliedAt(s, steps, j, key, k) <==> RewrittenAt(s, steps, j, key, k) {
      if j < |steps| {
        StoredStays(s, steps[..j], key);
        var es := Carried(Run(s, steps[..j]), steps[j]);
        var i := FirstUnder(es, key);
        if i >= 0 {
          RewriteLength(es[..i]);
        }
      }
    }
  }

  /** Without overwriting replays a lost context is never supplied, and none that is there is lost. */
  lemma LostContextStaysLost(s: Files, steps: seq<Step>, key: string, k: nat)
    requires key in s.events && NoOverwrite(steps) && 1 <= k <= 3
    ensures HasFile(Run(s, steps), key, k) <==> HasFile(s, key, k)
  {
    LostContextExactly(s, steps, key, k);
    forall j: nat ensures !RewrittenAt(s, steps, j, key, k) {
      if j < |steps| { assert !Overwrites(steps[j]); }
    }
  }

  // ------------------------------------------------------------------
  // What an overwriting store leaves
  // ------------------------------------------------------------------

  /** Place of the last event under this key whose k-th file `n` writes of an overwriting store reach,
      or -1. */
  function LastReached(es: seq<Event>, key: string, n: nat, k: nat): (i: int)
    ensures -1 <= i < |es|
  {
    if es == [] then -1
    else if Under(Last(es), key) && n >= |RewritePlan(Front(es))| + k then |es| - 1
    else LastReached(Front(es), key, n, k)
  }

  /** It is the greatest place of an event under the key that has at most (n - k) / 3 named events before it. */
  lemma {:induction false} LastReachedIsLast(es: seq<Event>, key: string, n: nat, k: nat)
    ensures
      var i := LastReached(es, key, n, k);
      && (i >= 0 ==> Under(es[i], key) && n >= 3 * NamedCount(es[..i]) + k)
      && forall j :: i < j < |es| && Under(es[j], key) ==> n < 3 * NamedCount(es[..j]) + k
  {
    if es != [] {
      RewriteLength(Front(es));
      LastReachedIsLast(Front(es), key, n, k);
      assert es[..|es| - 1] == Front(es);
      forall j | 0 <= j < |es| - 1 ensures es[..j] == Front(es)[..j] {}
    }
  }

  /** The value under the key is `now`, or what it was when there is none. */
  ghost predicate Overlays<V>(before: map<string, V>, after: map<string, V>, key: string, now: Option<V>) {
    if now.Some? then key in after && after[key] == now.value
    else (key in after <==> key in before) && (key in before ==> after[key] == before[key])
  }

  function Reached(es: seq<Event>, key: string, n: nat, k: nat): Option<Event> {
    var i := LastReached(es, key, n, k);
    if i < 0 then None else Some(es[i])
  }

  function MicroOf(e: Event): nat { e.micro }

  function MacroOf(e: Event): nat { e.macro }

  function Mapped<T, U>(x: Option<T>, f: T -> U): Option<U> {
    if x.None? then None else Some(f(x.value))
  }

  /** After an overwriting store, stopped anywhere, each file of a key holds what the last event under that
      key whose file was reached says, and what it held before when none was. */
  ghost predicate HoldsLast(s: Files, es: seq<Event>, n: nat, s': Files, key: string) {
    && Overlays(s.events, s'.events, key, Reached(es, key, n, 1))
    && Overlays(s.micro, s'.micro, key, Mapped(Reached(es, key, n, 2), MicroOf))
    && Overlays(s.macro, s'.macro, key, Mapped(Reached(es, key, n, 3), MacroOf))
  }

  lemma ReachedStep(es: seq<Event>, key: string, n: nat, k: nat)
    requires es != []
    ensures Reached(es, key, n, k)
         == if Under(Last(es), key) && n >= |RewritePlan(Front(es))| + k then Some(Last(es))
            else Reached(Front(es), key, n, k)
  {
  }

  lemma OverlaySet<V>(before: map<string, V>, mid: map<string, V>, key: string, now: Option<V>, at: string, v: V)
    requires Overlays(before, mid, key, now)
    ensures Overlays(before, mid[at := v], key, if key == at then Some(v) else now)
  {
  }

  lemma OneMoreHoldsLast(s: Files, es: seq<Event>, n: nat, mid: Files, key: string)
    requires es != [] && Last(es).id != "" && n > |RewritePlan(Front(es))|
    requires HoldsLast(s, Front(es), n, mid, key)
    ensures
      var left := n - |RewritePlan(Front(es))|;
      HoldsLast(s, es, n, OneStored(mid, Last(es), if left < 3 then left else 3), key)
  {
    var e, front := Last(es), Front(es);
    var at := SafeComponent(e.id);
    ReachedStep(es, key, n, 1);
    ReachedStep(es, key, n, 2);
    ReachedStep(es, key, n, 3);
    OverlaySet(s.events, mid.events, key, Reached(front, key, n, 1), at, e);
    OverlaySet(s.micro, mid.micro, key, Mapped(Reached(front, key, n, 2), MicroOf), at, e.micro);
    OverlaySet(s.macro, mid.macro, key, Mapped(Reached(front, key, n, 3), MacroOf), at, e.macro);
  }

  lemma SameHoldsLast(s: Files, es: seq<Event>, n: nat, mid: Files, key: string)
    requires es != [] && (Last(es).id == "" || n <= |RewritePlan(Front(es))|)
    requires HoldsLast(s, Front(es), n, mid, key)
    ensures HoldsLast(s, es, n, mid, key)
  {
    ReachedStep(es, key, n, 1);
    ReachedStep(es, key, n, 2);
    ReachedStep(es, key, n, 3);
  }

  lemma {:induction false} FileHoldsLast(s: Files, es: seq<Event>, n: nat, key: string)
    ensures HoldsLast(s, es, n, Rewrite(s, es, n), key)
  {
    if es == [] {
      StoresNothing(s, true, n);
    } else {
      RewriteStep(s, es, n);
      FileHoldsLast(s, Front(es), n, key);
      if n > |RewritePlan(Front(es))| && Last(es).id != "" {
        EnoughIsAll(s, Front(es), true, n);
        OneMoreHoldsLast(s, es, n, Rewrite(s, Front(es), n), key);
      } else {
        SameHoldsLast(s, es, n, Rewrite(s, Front(es), n), key);
      }
    }
  }

  lemma KeyIsSupplied(s: Files, es: seq<Event>, n: nat, key: string, k: nat)
    requires n >= |RewritePlan(es)| && 1 <= k <= 3
    ensures HasFile(Rewrite(s, es, n), key, k) <==> HasFile(s, key, k) || key in Keys(es)
  {
    PersistSupplies(s, es, true, n, key, k);
    FirstUnderIsKey(es, key);
    if key in Keys(es) {
      RewritePlanGrows(es, FirstUnder(es, key));
    }
  }

  /** An overwriting store carried out in full supplies all three files of every key of the batch. */
  lemma RewriteInFull(s: Files, es: seq<Event>, n: nat)
    requires n >= |RewritePlan(es)|
    ensures
      var s' := Rewrite(s, es, n);
      && s'.events.Keys == s.events.Keys + Keys(es)
      && s'.micro.Keys == s.micro.Keys + Keys(es)
      && s'.macro.Keys == s.macro.Keys + Keys(es)
  {
    forall key: string, k: nat | 1 <= k <= 3
      ensures HasFile(Rewrite(s, es, n), key, k) <==> HasFile(s, key, k) || key in Keys(es)
    {
      KeyIsSupplied(s, es, n, key, k);
    }
    forall key: string
      ensures HasFile(Rewrite(s, es, n), key, 1) <==> HasFile(s, key, 1) || key in Keys(es)
      ensures HasFile(Rewrite(s, es, n), key, 2) <==> HasFile(s, key, 2) || key in Keys(es)
      ensures HasFile(Rewrite(s, es, n), key, 3) <==> HasFile(s, key, 3) || key in Keys(es)
    {
    }
  }

  /** A store that stops after its first write leaves an event without contexts. */
  lemma CutShortExample(e: Event)
    requires e.id != ""
    ensures
      var s := Store(NO_FILES, [e], 1);
      SafeComponent(e.id) in s.events && SafeComponent(e.id) !in s.micro && SafeComponent(e.id) !in s.macro
  {
    assert Front([e]) == [] && Keys([]) == {};
    StoreStep(NO_FILES, [e], 1);
    assert Take(Plan([], {}), 0) == [];
    assert NewEvent([e], NO_FILES.events.Keys);
  }

  /** So an overwriting replay that runs through leaves every event of its raw batch with both contexts. */
  lemma FullReplaySupplies(s: Files, batchId: string, n: nat, statusWritten: bool, key: string, k: nat)
    requires SafeComponent(batchId) in s.raw && key in Keys(EventsOf(s.raw[SafeComponent(batchId)]))
    requires n >= 3 * NamedCount(EventsOf(s.raw[SafeComponent(batchId)])) && 1 <= k <= 3
    ensures HasFile(Do(s, Replay(batchId, true, n, statusWritten)), key, k)
  {
    var es := EventsOf(s.raw[SafeComponent(batchId)]);
    ReplayStores(s, batchId, true, n, statusWritten);
    RewriteLength(es);
    KeyIsSupplied(s, es, n, key, k);
  }

  lemma OneEventBatch(r: Record)
    requires |r.events| == 1 && r.events[0].RawEvent? && r.events[0].time.Some?
    ensures EventsOf(r) == [NormalizeOne(r, 0)]
  {
    assert Normalize(r, 0) == Some([]);
  }

  lemma OneEventStore(s: Files, e: Event, n: nat)
    requires e.id != "" && SafeComponent(e.id) !in s.events && n <= 3
    ensures Store(s, [e], n) == OneStored(s, e, n)
    ensures NamedCount([e]) == 1 && SafeComponent(e.id) in Keys([e])
  {
    assert Front([e]) == [] && Keys([]) == {};
    StoreStep(s, [e], n);
    StoresNothing(s, false, 0);
    StoresNothing(s, false, n);
    assert [e][0].id != "";
  }

  lemma CutShortConsume(s: Files, f: BatchFile, e: Event)
    requires EventsOf(f.record) == [e] && e.id != "" && SafeComponent(e.id) !in s.events
    ensures
      var s' := ConsumeFile(s, f, Attempt(1, 0, false, false, true));
      s'.raw == s.raw && s'.micro == s.micro && s'.macro == s.macro && SafeComponent(e.id) in s'.events
  {
    ConsumeStores(s, f, Attempt(1, 0, false, false, true));
    WritesFrame(s, Take(Plan([e], s.events.Keys), 1));
    OneEventStore(s, e, 1);
  }

  /** A delivered batch whose consumption stops after the first write of its one event. */
  lemma CutShortRun(r: Record, key: string)
    requires r.batchId != "" && |r.events| == 1 && r.events[0].RawEvent? && r.events[0].time.Some?
    requires r.events[0].id != "" && key == SafeComponent(r.events[0].id)
    ensures
      var s := Run(NO_FILES, [Deliver(r, 3), Consume(0, Attempt(1, 0, false, false, true))]);
      && s.raw == map[SafeComponent(r.batchId) := r]
      && key in s.events && key !in s.micro && key !in s.macro
  {
    var first, second := Deliver(r, 3), Consume(0, Attempt(1, 0, false, false, true));
    var s1 := Do(NO_FILES, first);
    assert s1.active == [BatchFile(0, r)] && s1.raw == map[SafeComponent(r.batchId) := r];
    OneEventBatch(r);
    CutShortConsume(s1, BatchFile(0, r), NormalizeOne(r, 0));
    assert Run(NO_FILES, [first]) == s1 by { assert Front([first]) == []; }
    assert Run(NO_FILES, [first, second]) == Do(s1, second) by { assert Front([first, second]) == [first]; }
    assert FindFile(s1.active, 0) == 0;
  }

  /** The contexts are then missing through any steps that do not overwrite, and there after a replay that
      does, carried out in full. */
  lemma LostThenSupplied(r: Record, steps: seq<Step>, key: string, k: nat)
    requires r.batchId != "" && |r.events| == 1 && r.events[0].RawEvent? && r.events[0].time.Some?
    requires r.events[0].id != "" && key == SafeComponent(r.events[0].id)
    requires NoOverwrite(steps) && 2 <= k <= 3
    ensures
      var lost := Run(NO_FILES, [Deliver(r, 3), Consume(0, Attempt(1, 0, false, false, true))]);
      && HasFile(lost, key, 1) && !HasFile(Run(lost, steps), key, k)
      && HasFile(Do(lost, Replay(r.batchId, true, 3, true)), key, k)
  {
    var lost := Run(NO_FILES, [Deliver(r, 3), Consume(0, Attempt(1, 0, false, false, true))]);
    CutShortRun(r, key);
    LostContextStaysLost(lost, steps, key, k);
    OneEventBatch(r);
    OneEventStore(NO_FILES, NormalizeOne(r, 0), 1);
    FullReplaySupplies(lost, r.batchId, 3, true, key, k);
  }
}
