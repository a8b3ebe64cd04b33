/** The trade-candidate lease: claim, heartbeat, release and status patch, run by any number of
    workers in any interleaving. Every call carries its own clock reading. */
module LeaseProtocol {
  import opened Common

  datatype Status = Pending | Submitted | Filled | Rejected | Skipped

  datatype Confidence = NoConfidence | NotANumber | Confidence(value: real)

  /** The columns no protocol step writes. Timestamp 0 and an empty text stand for missing values. */
  datatype Attributes = Attributes(symbol: string, direction: string, timestamp: nat, confidence: Confidence)

  /** One row of trade_candidates; its id is its place in the table. */
  datatype Candidate = Candidate(
    attrs: Attributes, status: Status,
    claimedBy: Option<string>, token: Option<nat>, claimedAt: Option<int>)

  /** The table and the supply of claim tokens: `nextToken` and above were never handed out. */
  datatype Store = Store(rows: seq<Candidate>, nextToken: nat)

  /** `BeatLands` and `ReleaseLands` are the UPDATE halves of a heartbeat and a release, which name the
      row alone; they land at any time after the SELECT that found the lease in order. */
  datatype Action =
    | Insert(attrs: Attributes)
    | Claim(worker: string, at: int, timeout: int)
    | Heartbeat(id: nat, worker: string, token: nat, at: int)
    | Release(id: nat, worker: string, token: nat, status: Status)
    | Patch(id: nat, status: Status)
    | BeatLands(id: nat, at: int)
    | ReleaseLands(id: nat, status: Status)

  datatype Reply =
    | Inserted(id: nat)
    | Granted(id: nat, row: Candidate)
    | QueueEmpty
    | BeatOk
    | Released
    | Patched
    | NotFound
    | LeaseMismatch
    | Invalid

  // ------------------------------------------------------------------
  // The steps
  // ------------------------------------------------------------------

  predicate Stale(row: Candidate, at: int, timeout: int) {
    row.claimedAt.None? || row.claimedAt.value <= at - (if timeout < 0 then 0 else timeout)
  }

  predicate Claimable(row: Candidate, at: int, timeout: int) {
    row.status.Pending? || (row.status.Submitted? && Stale(row, at, timeout))
  }

  /** The claimable row with the latest timestamp, the newest among equals, or -1. */
  function Pick(rows: seq<Candidate>, at: int, timeout: int): (i: int)
    ensures -1 <= i < |rows|
    ensures i >= 0 ==> Claimable(rows[i], at, timeout)
    ensures forall k :: 0 <= k < |rows| && Claimable(rows[k], at, timeout) ==>
      i >= 0 && (rows[k].attrs.timestamp < rows[i].attrs.timestamp
                 || (rows[k].attrs.timestamp == rows[i].attrs.timestamp && k <= i))
  {
    if rows == [] then -1 else
    var i := Pick(Front(rows), at, timeout);
    if Claimable(Last(rows), at, timeout) && (i < 0 || rows[i].attrs.timestamp <= Last(rows).attrs.timestamp)
    then |rows| - 1 else i
  }

  predicate Holds(row: Candidate, worker: string, token: nat) {
    row.claimedBy == Some(worker) && row.token == Some(token)
  }

  function Grant(row: Candidate, worker: string, token: nat, at: int): Candidate {
    row.(status := Submitted, claimedBy := Some(worker), token := Some(token), claimedAt := Some(at))
  }

  function Freed(row: Candidate, status: Status): Candidate {
    row.(status := status, claimedBy := None, token := None, claimedAt := None)
  }

  /** One atomic step: the next store and the answer the caller gets. */
  function Do(s: Store, a: Action): (Store, Reply) {
    match a
    case Insert(attrs) =>
      if attrs.symbol == "" || attrs.timestamp == 0 then (s, Invalid)
      else (s.(rows := s.rows + [Candidate(attrs, Pending, None, None, None)]), Inserted(|s.rows|))
    case Claim(worker, at, timeout) =>
      if worker == "" then (s, Invalid) else
      var i := Pick(s.rows, at, timeout);
      if i < 0 then (s.(nextToken := s.nextToken + 1), QueueEmpty) else
      var row := Grant(s.rows[i], worker, s.nextToken, at);
      (Store(s.rows[i := row], s.nextToken + 1), Granted(i, row))
    case Heartbeat(id, worker, token, at) =>
      if worker == "" then (s, Invalid)
      else if id >= |s.rows| then (s, NotFound)
      else if !Holds(s.rows[id], worker, token) then (s, LeaseMismatch)
      else (s.(rows := s.rows[id := s.rows[id].(claimedAt := Some(at))]), BeatOk)
    case Release(id, worker, token, status) =>
      if status.Submitted? || status.Filled? || worker == "" then (s, Invalid)
      else if id >= |s.rows| then (s, NotFound)
      else if !Holds(s.rows[id], worker, token) then (s, LeaseMismatch)
      else (s.(rows := s.rows[id := Freed(s.rows[id], status)]), Released)
    case Patch(id, status) =>
      if id >= |s.rows| then (s, NotFound)
      else (s.(rows := s.rows[id := s.rows[id].(status := status)]), Patched)
    case BeatLands(id, at) =>
      if id >= |s.rows| then (s, BeatOk)
      else (s.(rows := s.rows[id := s.rows[id].(claimedAt := Some(at))]), BeatOk)
    case ReleaseLands(id, status) =>
      if id >= |s.rows| then (s, Released)
      else (s.(rows := s.rows[id := Freed(s.rows[id], status)]), Released)
  }

  /** A row can be claimed when it is pending, or submitted without a claim time or with one at least a timeout
      old, a negative timeout counting as none. */
  lemma ClaimableExactly(row: Candidate, at: int, timeout: int)
    ensures row.status != Pending && row.status != Submitted ==> !Claimable(row, at, timeout)
    ensures row.status == Pending ==> Claimable(row, at, timeout)
    ensures row.status == Submitted && row.claimedAt.None? ==> Claimable(row, at, timeout)
    ensures row.status == Submitted && row.claimedAt.Some? ==>
      (Claimable(row, at, timeout) <==> at - row.claimedAt.value >= timeout && at >= row.claimedAt.value)
  {
  }

  /** An insert is refused exactly without symbol or timestamp; otherwise it adds a pending row that nobody
      holds. */
  lemma InsertExactly(s: Store, attrs: Attributes)
    ensures
      var s' := Do(s, Insert(attrs)).0;
      if attrs.symbol != "" && attrs.timestamp != 0 then
        && Do(s, Insert(attrs)).1 == Inserted(|s.rows|) && |s'.rows| == |s.rows| + 1 && s'.rows[..|s.rows|] == s.rows
        && s'.rows[|s.rows|].attrs == attrs && s'.rows[|s.rows|].status == Pending
        && s'.rows[|s.rows|].claimedBy.None? && s'.rows[|s.rows|].token.None? && s'.rows[|s.rows|].claimedAt.None?
      else Do(s, Insert(attrs)) == (s, Invalid)
  {
  }

  /** What a granted row and a released one look like, and who is let through. */
  lemma ClaimAndReleaseExactly(s: Store, worker: string, at: int, timeout: int, id: nat, token: nat, status: Status)
    ensures
      var (s', r) := Do(s, Claim(worker, at, timeout));
      && (r.Granted? <==> worker != "" && exists k :: 0 <= k < |s.rows| && Claimable(s.rows[k], at, timeout))
      && (r.Granted? ==> r.id < |s.rows| && |s'.rows| == |s.rows| && s'.rows[r.id] == r.row
                         && r.row.attrs == s.rows[r.id].attrs && r.row.status == Submitted
                         && r.row.claimedBy == Some(worker) && r.row.token == Some(s.nextToken)
                         && r.row.claimedAt == Some(at) && s'.nextToken == s.nextToken + 1)
      && (!r.Granted? ==> s'.rows == s.rows)
    ensures
      var (s', r) := Do(s, Release(id, worker, token, status));
      && (r.Released? <==> worker != "" && status in {Pending, Skipped, Rejected} && id < |s.rows|
                           && s.rows[id].claimedBy == Some(worker) && s.rows[id].token == Some(token))
      && (r.Released? ==> |s'.rows| == |s.rows| && s'.rows[id].attrs == s.rows[id].attrs && s'.rows[id].status == status
                          && s'.rows[id].claimedBy.None? && s'.rows[id].token.None? && s'.rows[id].claimedAt.None?)
      && (!r.Released? ==> s' == s)
  {
  }

  /** A heartbeat or release that passes its check and lands at once is the atomic step. */
  lemma HalvesMakeSteps(s: Store, id: nat, worker: string, token: nat, at: int, status: Status)
    requires worker != "" && id < |s.rows| && (status.Pending? || status.Skipped? || status.Rejected?)
    ensures Next(s, Heartbeat(id, worker, token, at))
         == if Holds(s.rows[id], worker, token) then Next(s, BeatLands(id, at)) else s
    ensures Next(s, Release(id, worker, token, status))
         == if Holds(s.rows[id], worker, token) then Next(s, ReleaseLands(id, status)) else s
  {
  }

  function Next(s: Store, a: Action): Store { Do(s, a).0 }

  function Answer(s: Store, a: Action): Reply { Do(s, a).1 }

  /** The store after a run of steps, oldest first. */
  function Exec(s: Store, run: seq<Action>): Store
    decreases |run|
  {
    if run == [] then s else Exec(Next(s, run[0]), run[1..])
  }

  // ------------------------------------------------------------------
  // Exclusive lease
  // ------------------------------------------------------------------

  /** `worker` holds `id` under `token`, last heard from at `beat`. */
  ghost predicate Leased(s: Store, id: nat, worker: string, token: nat, beat: int) {
    id < |s.rows| && Holds(s.rows[id], worker, token) && s.rows[id].claimedAt == Some(beat)
    && !s.rows[id].status.Pending?
  }

  /** The claim time of the row once `a` has happened: a heartbeat of the holder renews it, and any
      heartbeat that lands on the row sets it to its own stamp, late or not. */
  function BeatAfter(a: Action, id: nat, worker: string, token: nat, beat: int): int {
    if a.Heartbeat? && a.id == id && a.worker == worker && a.token == token && worker != "" then a.at
    else if a.BeatLands? && a.id == id then a.at
    else beat
  }

  /** At every claim the row's claim time is less than that claim's timeout ago, nobody releases the
      holder's lease, no release lands on the row and nobody patches it back to pending. */
  ghost predicate KeepsUp(run: seq<Action>, id: nat, worker: string, token: nat, beat: int) {
    run != [] ==>
      var a := run[0];
      && (a.Claim? ==> a.at - beat < a.timeout)
      && (a.Release? ==> !(a.id == id && a.worker == worker && a.token == token))
      && (a.ReleaseLands? ==> a.id != id)
      && (a.Patch? ==> !(a.id == id && a.status.Pending?))
      && KeepsUp(run[1..], id, worker, token, BeatAfter(a, id, worker, token, beat))
  }

  lemma LeaseStep(s: Store, a: Action, id: nat, worker: string, token: nat, beat: int)
    requires Leased(s, id, worker, token, beat) && KeepsUp([a], id, worker, token, beat)
    ensures Leased(Next(s, a), id, worker, token, BeatAfter(a, id, worker, token, beat))
    ensures Answer(s, a).Granted? ==> Answer(s, a).id != id
  {
  }

  /** No interleaving grants a candidate to anyone while its holder keeps up, and the holder's
      lease survives the whole run. */
  lemma {:induction false} ExclusiveLease(s: Store, run: seq<Action>, id: nat, worker: string, token: nat, beat: int)
    requires Leased(s, id, worker, token, beat) && KeepsUp(run, id, worker, token, beat)
    ensures forall n :: 0 <= n < |run| ==>
      !(Answer(Exec(s, run[..n]), run[n]).Granted? && Answer(Exec(s, run[..n]), run[n]).id == id)
    ensures id < |Exec(s, run).rows| && Holds(Exec(s, run).rows[id], worker, token)
    decreases |run|
  {
    if run != [] {
      var a := run[0];
      assert KeepsUp([a], id, worker, token, beat) by { assert [a][1..] == []; }
      LeaseStep(s, a, id, worker, token, beat);
      ExclusiveLease(Next(s, a), run[1..], id, worker, token, BeatAfter(a, id, worker, token, beat));
      forall n | 0 <= n < |run|
        ensures !(Answer(Exec(s, run[..n]), run[n]).Granted? && Answer(Exec(s, run[..n]), run[n]).id == id)
      {
        if n > 0 {
          assert run[..n][1..] == run[1..][..n - 1] && run[n] == run[1..][n - 1];
        }
      }
    }
  }

  /** No claimable row is later in time than `id`, or equal in time and newer. */
  predicate ComesFirst(rows: seq<Candidate>, id: nat, at: int, timeout: int)
    requires id < |rows|
  {
    forall k :: 0 <= k < |rows| && Claimable(rows[k], at, timeout) ==>
      rows[k].attrs.timestamp < rows[id].attrs.timestamp
      || (rows[k].attrs.timestamp == rows[id].attrs.timestamp && k <= id)
  }

  /** The steps that end a lease on row `id`, by what can be told before they happen. */
  predicate Ends(s: Store, a: Action, id: nat)
    requires id < |s.rows|
  {
    match a
    case Claim(worker, at, timeout) =>
      worker != "" && Claimable(s.rows[id], at, timeout) && ComesFirst(s.rows, id, at, timeout)
    case Release(j, worker, token, status) =>
      j == id && worker != "" && Holds(s.rows[id], worker, token)
      && (status.Pending? || status.Skipped? || status.Rejected?)
    case ReleaseLands(j, _) => j == id
    case Patch(j, status) => j == id && status.Pending?
    case _ => false
  }

  /** Exactly these steps end a lease: a claim at which the row is stale and first among the claimable, a
      release by its holder, any release landing on it, and a patch to pending. */
  lemma LeaseEndsExactly(s: Store, a: Action, id: nat, worker: string, token: nat, beat: int)
    requires Fenced(s) && Leased(s, id, worker, token, beat)
    ensures Leased(Next(s, a), id, worker, token, BeatAfter(a, id, worker, token, beat)) <==> !Ends(s, a, id)
  {
  }

  ghost predicate LeasedAlong(s: Store, run: seq<Action>, id: nat, worker: string, token: nat, beat: int)
    decreases |run|
  {
    && Leased(s, id, worker, token, beat)
    && (run != [] ==>
          LeasedAlong(Next(s, run[0]), run[1..], id, worker, token, BeatAfter(run[0], id, worker, token, beat)))
  }

  ghost predicate NeverEnds(s: Store, run: seq<Action>, id: nat)
    requires id < |s.rows|
    decreases |run|
  {
    run != [] ==> !Ends(s, run[0], id) && NeverEnds(Next(s, run[0]), run[1..], id)
  }

  /** A lease lasts through a run, landings included, exactly when no step of the run ends it. */
  lemma {:induction false} LeaseLastsExactly(
      s: Store, run: seq<Action>, id: nat, worker: string, token: nat, beat: int)
    requires Fenced(s) && Leased(s, id, worker, token, beat)
    ensures LeasedAlong(s, run, id, worker, token, beat) <==> NeverEnds(s, run, id)
    decreases |run|
  {
    if run != [] {
      var a := run[0];
      LeaseEndsExactly(s, a, id, worker, token, beat);
      StepKeepsFenced(s, a);
      if !Ends(s, a, id) {
        LeaseLastsExactly(Next(s, a), run[1..], id, worker, token, BeatAfter(a, id, worker, token, beat));
      }
    }
  }

  /** A release that lands ends exactly the lease of the row it names, whoever holds it, and with
      status pending the row can be claimed at once. */
  lemma ReleaseLandsExactly(s: Store, id: nat, worker: string, token: nat, beat: int, j: nat, status: Status)
    requires Leased(s, id, worker, token, beat)
    ensures Leased(Next(s, ReleaseLands(j, status)), id, worker, token, beat) <==> j != id
    ensures j == id && status.Pending? ==>
      forall at, timeout :: Claimable(Next(s, ReleaseLands(j, status)).rows[id], at, timeout)
  {
  }

  /** A heartbeat that lands keeps the lease but sets its claim time to its own stamp: from then on the
      row goes stale exactly one timeout after that stamp. */
  lemma BeatLandsExactly(s: Store, id: nat, worker: string, token: nat, beat: int, stamp: int, at: int, timeout: nat)
    requires Leased(s, id, worker, token, beat) && s.rows[id].status.Submitted?
    ensures Leased(Next(s, BeatLands(id, stamp)), id, worker, token, stamp)
    ensures Claimable(Next(s, BeatLands(id, stamp)).rows[id], at, timeout) <==> at - stamp >= timeout
  {
  }

  /** Why a heartbeat must be one step: the first holder's heartbeat, stamped before the second holder's
      claim, lands after it, and a third worker takes the row while the second still keeps up. */
  lemma SplitHeartbeatBreaksLease(attrs: Attributes, at: int)
    ensures
      var first := Store([Candidate(attrs, Submitted, Some("a"), Some(0), Some(at - 200))], 1);
      var second := Next(first, Claim("b", at, 120));
      var third := Next(second, BeatLands(0, at - 1));
      && Holds(first.rows[0], "a", 0)
      && Leased(second, 0, "b", 1, at) && KeepsUp([Claim("c", at + 119, 120)], 0, "b", 1, at)
      && Answer(second, Claim("c", at + 119, 120)) == QueueEmpty
      && Answer(third, Claim("c", at + 119, 120)).Granted?
  {
    var first := Store([Candidate(attrs, Submitted, Some("a"), Some(0), Some(at - 200))], 1);
    assert Claimable(first.rows[0], at, 120);
    var second := Next(first, Claim("b", at, 120));
    assert !Claimable(second.rows[0], at + 119, 120);
    var third := Next(second, BeatLands(0, at - 1));
    assert Claimable(third.rows[0], at + 119, 120);
    assert [Claim("c", at + 119, 120)][1..] == [];
  }

  /** Why a release must be one step: its UPDATE is keyed on the id alone, so when it lands after
      the row was granted again, it frees the new holder's row and a third worker gets it. */
  lemma SplitReleaseBreaksLease(attrs: Attributes, at: int)
    ensures
      var first := Store([Candidate(attrs, Submitted, Some("a"), Some(0), Some(at - 200))], 1);
      var second := Next(first, Claim("b", at, 120));
      var third := Next(second, ReleaseLands(0, Pending));
      && Holds(first.rows[0], "a", 0)
      && Leased(second, 0, "b", 1, at) && KeepsUp([Claim("c", at + 1, 120)], 0, "b", 1, at)
      && Answer(third, Claim("c", at + 1, 120)).Granted?
  {
    var first := Store([Candidate(attrs, Submitted, Some("a"), Some(0), Some(at - 200))], 1);
    assert Claimable(first.rows[0], at, 120);
    var second := Next(first, Claim("b", at, 120));
    var third := Next(second, ReleaseLands(0, Pending));
    assert Claimable(third.rows[0], at + 1, 120);
    assert [Claim("c", at + 1, 120)][1..] == [];
  }

  // ------------------------------------------------------------------
  // Fencing
  // ------------------------------------------------------------------

  /** Tokens come from the supply and no two rows share one. */
  ghost predicate Fenced(s: Store) {
    && (forall i :: 0 <= i < |s.rows| && s.rows[i].token.Some? ==> s.rows[i].token.value < s.nextToken)
    && (forall i, j :: 0 <= i < j < |s.rows| && s.rows[i].token.Some? ==> s.rows[i].token != s.rows[j].token)
  }

  /** `token` was handed out and is not what row `id` carries now. */
  ghost predicate Spent(s: Store, id: nat, token: nat) {
    token < s.nextToken && id < |s.rows| && s.rows[id].token != Some(token)
  }

  lemma StepKeepsFenced(s: Store, a: Action)
    requires Fenced(s)
    ensures Fenced(Next(s, a)) && |s.rows| <= |Next(s, a).rows| && s.nextToken <= Next(s, a).nextToken
    ensures forall id, token :: Spent(s, id, token) ==> Spent(Next(s, a), id, token)
    ensures forall i :: 0 <= i < |s.rows| ==> Next(s, a).rows[i].attrs == s.rows[i].attrs
  {
  }

  lemma {:induction false} RunKeepsFenced(s: Store, run: seq<Action>)
    requires Fenced(s)
    ensures Fenced(Exec(s, run)) && |s.rows| <= |Exec(s, run).rows|
    ensures forall id, token :: Spent(s, id, token) ==> Spent(Exec(s, run), id, token)
    decreases |run|
  {
    if run != [] {
      StepKeepsFenced(s, run[0]);
      RunKeepsFenced(Next(s, run[0]), run[1..]);
    }
  }

  /** From an empty table no run ever has two rows with one token. */
  lemma TokensNeverShared(run: seq<Action>)
    ensures Fenced(Exec(Store([], 0), run))
  {
    RunKeepsFenced(Store([], 0), run);
  }

  /** Once a row has been claimed again or released, its earlier token is refused forever: every
      later heartbeat and release that presents it is a lease mismatch and changes nothing. */
  lemma StaleTokenRefusedForever(
      s: Store, a: Action, run: seq<Action>, id: nat, token: nat, worker: string, at: int, status: Status)
    requires Fenced(s) && id < |s.rows| && s.rows[id].token == Some(token)
    requires (Answer(s, a).Granted? && Answer(s, a).id == id) || (Answer(s, a).Released? && a.id == id)
    requires worker != "" && (status.Pending? || status.Skipped? || status.Rejected?)
    ensures
      var later := Exec(Next(s, a), run);
      && Do(later, Heartbeat(id, worker, token, at)) == (later, LeaseMismatch)
      && Do(later, Release(id, worker, token, status)) == (later, LeaseMismatch)
  {
    StepKeepsFenced(s, a);
    assert Spent(Next(s, a), id, token);
    RunKeepsFenced(Next(s, a), run);
    assert Spent(Exec(Next(s, a), run), id, token);
  }

  // ------------------------------------------------------------------
  // The worker fleet
  // ------------------------------------------------------------------

  /** What a worker decides for a claimed row. */
  function SimulateExecutionDecision(c: Attributes, threshold: real): Status {
    if c.symbol == "" || c.direction == "" || c.timestamp == 0 then Rejected
    else match c.confidence
      case NoConfidence => Rejected
      case NotANumber => Rejected
      case Confidence(x) => if x >= threshold then Filled else Skipped
  }

  /** Filled with every field present and a confidence of at least the threshold, skipped with a lower
      one, rejected when a field is missing or the confidence is absent or no number. */
  lemma DecisionExactly(c: Attributes, threshold: real)
    ensures
      var decision := SimulateExecutionDecision(c, threshold);
      var whole := c.symbol != "" && c.direction != "" && c.timestamp != 0;
      && (decision.Filled? <==> whole && c.confidence.Confidence? && c.confidence.value >= threshold)
      && (decision.Skipped? <==> whole && c.confidence.Confidence? && c.confidence.value < threshold)
      && (decision.Rejected? <==> !whole || !c.confidence.Confidence?)
  {
  }

  /** A claim some worker process has in hand: the row as it was when claimed. */
  datatype Task = Task(id: nat, worker: string, token: nat, row: Candidate)

  datatype Fleet = Fleet(store: Store, tasks: seq<Task>)

  /** What can happen in a system that only runs the shipped worker; a late beat is the UPDATE of a
      heartbeat that lands apart from its check. */
  datatype FleetEvent =
    | NewCandidate(attrs: Attributes)
    | WorkerClaims(worker: string, at: int, timeout: int)
    | WorkerBeats(k: nat, at: int)
    | WorkerPatches(k: nat)
    | WorkerDies(k: nat)
    | LateBeat(id: nat, at: int)

  function Without(tasks: seq<Task>, k: nat): seq<Task>
    requires k < |tasks|
  {
    tasks[..k] + tasks[k + 1..]
  }

  function FleetNext(f: Fleet, e: FleetEvent, threshold: real): Fleet {
    match e
    case NewCandidate(attrs) => f.(store := Next(f.store, Insert(attrs)))
    case WorkerClaims(worker, at, timeout) =>
      var (s, r) := Do(f.store, Claim(worker, at, timeout));
      if r.Granted? then Fleet(s, f.tasks + [Task(r.id, worker, f.store.nextToken, r.row)]) else f.(store := s)
    case WorkerBeats(k, at) =>
      if k >= |f.tasks| then f else
      var t := f.tasks[k];
      var (s, r) := Do(f.store, Heartbeat(t.id, t.worker, t.token, at));
      // a refused heartbeat raises and ends the worker
      if r.BeatOk? then f.(store := s) else Fleet(s, Without(f.tasks, k))
    case WorkerPatches(k) =>
      if k >= |f.tasks| then f else
      var t := f.tasks[k];
      Fleet(Next(f.store, Patch(t.id, SimulateExecutionDecision(t.row.attrs, threshold))), Without(f.tasks, k))
    case WorkerDies(k) =>
      if k >= |f.tasks| then f else f.(tasks := Without(f.tasks, k))
    case LateBeat(id, at) => f.(store := Next(f.store, BeatLands(id, at)))
  }

  function FleetExec(f: Fleet, run: seq<FleetEvent>, threshold: real): Fleet
    decreases |run|
  {
    if run == [] then f else FleetExec(FleetNext(f, run[0], threshold), run[1..], threshold)
  }

  predicate Final(status: Status) {
    status.Filled? || status.Rejected? || status.Skipped?
  }

  /** Final rows carry their decision; tasks remember rows that exist, as they were inserted. */
  ghost predicate Converging(f: Fleet, threshold: real) {
    && (forall i :: 0 <= i < |f.store.rows| && Final(f.store.rows[i].status) ==>
          f.store.rows[i].status == SimulateExecutionDecision(f.store.rows[i].attrs, threshold))
    && (forall k :: 0 <= k < |f.tasks| ==>
          f.tasks[k].id < |f.store.rows| && f.tasks[k].row.attrs == f.store.rows[f.tasks[k].id].attrs)
  }

  /** The row some worker is granted by `e`, or None. */
  function ClaimedBy(f: Fleet, e: FleetEvent): (id: Option<nat>)
    ensures id.Some? ==> id.value < |f.store.rows|
  {
    if e.WorkerClaims? && Answer(f.store, Claim(e.worker, e.at, e.timeout)).Granted?
    then Some(Answer(f.store, Claim(e.worker, e.at, e.timeout)).id)
    else None
  }

  /** `after` keeps every row of `before`, and every final status. */
  ghost predicate KeepsFinal(before: seq<Candidate>, after: seq<Candidate>) {
    |before| <= |after| && forall i :: 0 <= i < |before| ==>
      after[i].attrs == before[i].attrs && (Final(before[i].status) ==> after[i].status == before[i].status)
  }

  /** A heartbeat is let through exactly for the holder of the lease; when it is refused, its worker ends and
      nothing else changes. A patch and a death end the worker as well. */
  lemma WorkerEnds(f: Fleet, k: nat, at: int, threshold: real)
    requires k < |f.tasks| && f.tasks[k].worker != "" && f.tasks[k].id < |f.store.rows|
    ensures
      var t := f.tasks[k];
      var row := f.store.rows[t.id];
      var after := FleetNext(f, WorkerBeats(k, at), threshold);
      if row.claimedBy == Some(t.worker) && row.token == Some(t.token)
      then after.tasks == f.tasks && after.store.rows == f.store.rows[t.id := row.(claimedAt := Some(at))]
      else after.tasks == f.tasks[..k] + f.tasks[k + 1..] && after.store == f.store
    ensures FleetNext(f, WorkerPatches(k), threshold).tasks == f.tasks[..k] + f.tasks[k + 1..]
    ensures FleetNext(f, WorkerDies(k), threshold) == Fleet(f.store, f.tasks[..k] + f.tasks[k + 1..])
  {
  }

  lemma ClaimStep(f: Fleet, e: FleetEvent, threshold: real)
    requires Converging(f, threshold) && e.WorkerClaims?
    ensures Converging(FleetNext(f, e, threshold), threshold)
    ensures KeepsFinal(f.store.rows, FleetNext(f, e, threshold).store.rows)
    ensures ClaimedBy(f, e).Some? ==> !Final(f.store.rows[ClaimedBy(f, e).value].status)
  {
  }

  lemma BeatStep(f: Fleet, e: FleetEvent, threshold: real)
    requires Converging(f, threshold) && e.WorkerBeats?
    ensures Converging(FleetNext(f, e, threshold), threshold)
    ensures KeepsFinal(f.store.rows, FleetNext(f, e, threshold).store.rows)
  {
  }

  lemma PatchStep(f: Fleet, e: FleetEvent, threshold: real)
    requires Converging(f, threshold) && e.WorkerPatches?
    ensures Converging(FleetNext(f, e, threshold), threshold)
    ensures KeepsFinal(f.store.rows, FleetNext(f, e, threshold).store.rows)
  {
  }

  lemma FleetStep(f: Fleet, e: FleetEvent, threshold: real)
    requires Converging(f, threshold)
    ensures Converging(FleetNext(f, e, threshold), threshold)
    ensures KeepsFinal(f.store.rows, FleetNext(f, e, threshold).store.rows)
    ensures ClaimedBy(f, e).Some? ==> !Final(f.store.rows[ClaimedBy(f, e).value].status)
  {
    match e
    case NewCandidate(attrs) =>
    case WorkerClaims(worker, at, timeout) => ClaimStep(f, e, threshold);
    case WorkerBeats(k, at) => BeatStep(f, e, threshold);
    case WorkerPatches(k) => PatchStep(f, e, threshold);
    case WorkerDies(k) =>
    case LateBeat(id, at) =>
  }

  /** Once a candidate is filled, skipped or rejected it is never claimed again, and its status is
      the decision of its row ever after: through expiry, double processing and late patches. */
  lemma {:induction false} FleetConverges(f: Fleet, run: seq<FleetEvent>, threshold: real, id: nat)
    requires Converging(f, threshold) && id < |f.store.rows| && Final(f.store.rows[id].status)
    ensures forall n :: 0 <= n < |run| ==> ClaimedBy(FleetExec(f, run[..n], threshold), run[n]) != Some(id)
    ensures
      var after := FleetExec(f, run, threshold);
      && Converging(after, threshold) && id < |after.store.rows|
      && after.store.rows[id].attrs == f.store.rows[id].attrs
      && after.store.rows[id].status == SimulateExecutionDecision(f.store.rows[id].attrs, threshold)
    decreases |run|
  {
    if run != [] {
      FleetStep(f, run[0], threshold);
      FleetConverges(FleetNext(f, run[0], threshold), run[1..], threshold, id);
      forall n | 0 <= n < |run| ensures ClaimedBy(FleetExec(f, run[..n], threshold), run[n]) != Some(id) {
        if n > 0 {
          assert run[..n][1..] == run[1..][..n - 1] && run[n] == run[1..][n - 1];
        }
      }
    }
  }

  /** From an empty table and no work in hand, in every run of the fleet a filled row has all its fields and
      a confidence of at least the threshold, a skipped one a lower confidence, and a rejected one misses a
      field or the confidence. */
  lemma FleetFromEmptyConverges(run: seq<FleetEvent>, threshold: real, i: nat)
    requires i < |FleetExec(Fleet(Store([], 0), []), run, threshold).store.rows|
    ensures
      var row := FleetExec(Fleet(Store([], 0), []), run, threshold).store.rows[i];
      var c := row.attrs;
      var whole := c.symbol != "" && c.direction != "" && c.timestamp != 0;
      && (row.status.Filled? ==> whole && c.confidence.Confidence? && c.confidence.value >= threshold)
      && (row.status.Skipped? ==> whole && c.confidence.Confidence? && c.confidence.value < threshold)
      && (row.status.Rejected? ==> !whole || !c.confidence.Confidence?)
  {
    FleetRunsConverge(Fleet(Store([], 0), []), run, threshold);
    var row := FleetExec(Fleet(Store([], 0), []), run, threshold).store.rows[i];
    if Final(row.status) {
      DecisionExactly(row.attrs, threshold);
    }
  }

  /** Every run keeps every final status equal to its row's decision. */
  lemma {:induction false} FleetRunsConverge(f: Fleet, run: seq<FleetEvent>, threshold: real)
    requires Converging(f, threshold)
    ensures Converging(FleetExec(f, run, threshold), threshold)
    decreases |run|
  {
    if run != [] {
      FleetStep(f, run[0], threshold);
      FleetRunsConverge(FleetNext(f, run[0], threshold), run[1..], threshold);
    }
  }

  // ------------------------------------------------------------------
  // The table, updated in place
  // ------------------------------------------------------------------

  class CandidateStore {
    var rows: seq<Candidate>
    var nextToken: nat

    function Contents(): Store
      reads this
    {
      Store(rows, nextToken)
    }

    constructor ()
      ensures Contents() == Store([], 0)
    {
      rows, nextToken := [], 0;
    }

    method InsertTradeCandidate(attrs: Attributes) returns (r: Reply)
      modifies this
      ensures (Contents(), r) == Do(old(Contents()), Insert(attrs))
    {
      if attrs.timestamp == 0 || attrs.symbol == "" {
        return Invalid;
      }
      r := Inserted(|rows|);
      rows := rows + [Candidate(attrs, Pending, None, None, None)];
    }

    method ClaimNextTradeCandidate(worker: string, at: int, timeout: int) returns (r: Reply)
      modifies this
      ensures (Contents(), r) == Do(old(Contents()), Claim(worker, at, timeout))
    {
      if worker == "" {
        return Invalid;
      }
      var token := nextToken;
      nextToken := nextToken + 1;
      var id := Pick(rows, at, timeout);
      if id < 0 {
        return QueueEmpty;
      }
      rows := rows[id := rows[id].(status := Submitted, claimedBy := Some(worker), token := Some(token),
                                   claimedAt := Some(at))];
      r := Granted(id, rows[id]);
    }

    method HeartbeatTradeCandidateClaim(id: nat, worker: string, token: nat, at: int) returns (r: Reply)
      modifies this
      ensures (Contents(), r) == Do(old(Contents()), Heartbeat(id, worker, token, at))
    {
      if worker == "" {
        return Invalid;
      }
      if id >= |rows| {
        return NotFound;
      }
      if rows[id].claimedBy != Some(worker) || rows[id].token != Some(token) {
        return LeaseMismatch;
      }
      LandHeartbeat(id, at);
      r := BeatOk;
    }

    /** The UPDATE of a heartbeat. */
    method LandHeartbeat(id: nat, at: int)
      modifies this
      ensures Contents() == Next(old(Contents()), BeatLands(id, at))
    {
      if id < |rows| {
        rows := rows[id := rows[id].(claimedAt := Some(at))];
      }
    }

    /** The UPDATE of a release. */
    method LandRelease(id: nat, status: Status)
      modifies this
      ensures Contents() == Next(old(Contents()), ReleaseLands(id, status))
    {
      if id < |rows| {
        rows := rows[id := rows[id].(status := status, claimedBy := None, token := None, claimedAt := None)];
      }
    }

    method ReleaseTradeCandidateClaim(id: nat, worker: string, token: nat, status: Status) returns (r: Reply)
      modifies this
      ensures (Contents(), r) == Do(old(Contents()), Release(id, worker, token, status))
    {
      if !(status.Pending? || status.Skipped? || status.Rejected?) || worker == "" {
        return Invalid;
      }
      if id >= |rows| {
        return NotFound;
      }
      if rows[id].claimedBy != Some(worker) || rows[id].token != Some(token) {
        return LeaseMismatch;
      }
      LandRelease(id, status);
      r := Released;
    }

    method UpdateTradeCandidateStatus(id: nat, status: Status) returns (r: Reply)
      modifies this
      ensures (Contents(), r) == Do(old(Contents()), Patch(id, status))
    {
      if id >= |rows| {
        return NotFound;
      }
      rows := rows[id := rows[id].(status := status)];
      r := Patched;
    }
  }

  class ExecutionWorker {
    const workerId: string
    const threshold: real

    constructor (workerId: string, threshold: real)
      ensures this.workerId == workerId && this.threshold == threshold
    {
      this.workerId, this.threshold := workerId, threshold;
    }

    /** Work on a granted row: heartbeat when the work took long, then patch the decision. Without
        interference the lease is still held, and the row ends with its decision. */
    method ProcessClaim(store: CandidateStore, id: nat, token: nat, row: Candidate, slow: bool, at: int)
      returns (status: Status)
      requires workerId != "" && id < |store.rows|
      requires store.rows[id] == row && Holds(row, workerId, token)
      modifies store
      ensures
        var c := row.attrs;
        var whole := c.symbol != "" && c.direction != "" && c.timestamp != 0;
        && (status.Filled? <==> whole && c.confidence.Confidence? && c.confidence.value >= threshold)
        && (status.Skipped? <==> whole && c.confidence.Confidence? && c.confidence.value < threshold)
        && (status.Rejected? <==> !whole || !c.confidence.Confidence?)
      ensures status == SimulateExecutionDecision(row.attrs, threshold) && store.nextToken == old(store.nextToken)
      ensures store.rows == old(store.rows)[id := row.(status := status,
                                                       claimedAt := if slow then Some(at) else row.claimedAt)]
    {
      DecisionExactly(row.attrs, threshold);
      if slow {
        var beat := store.HeartbeatTradeCandidateClaim(id, workerId, token, at);
        assert beat == BeatOk;
      }
      status := SimulateExecutionDecision(row.attrs, threshold);
      var patched := store.UpdateTradeCandidateStatus(id, status);
    }

    /** One-shot run: at most one candidate is processed, the one at the head of the queue. */
    method RunOneshot(store: CandidateStore, at: int, timeout: int, slow: bool, beatAt: int) returns (processed: nat)
      requires workerId != ""
      modifies store
      ensures
        var i := Pick(old(store.rows), at, timeout);
        if i < 0 then processed == 0 && store.rows == old(store.rows)
        else
          && processed == 1 && |store.rows| == |old(store.rows)|
          && store.rows[i].status == SimulateExecutionDecision(old(store.rows)[i].attrs, threshold)
          && (store.rows[i].status.Filled? ==> store.rows[i].attrs.confidence.Confidence?
                                               && store.rows[i].attrs.confidence.value >= threshold)
          && store.rows[i].attrs == old(store.rows)[i].attrs
          && Holds(store.rows[i], workerId, old(store.nextToken))
          && forall k :: 0 <= k < |store.rows| && k != i ==> store.rows[k] == old(store.rows)[k]
    {
      var claim := store.ClaimNextTradeCandidate(workerId, at, timeout);
      if claim.QueueEmpty? {
        return 0;
      }
      var status := ProcessClaim(store, claim.id, claim.row.token.value, claim.row, slow, beatAt);
      processed := 1;
    }
  }
}
