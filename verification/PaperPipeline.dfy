/** The webhook chain that feeds the paper ledger: payload hash, event, signal, decisions,
    execution request, order, fill, position. Every table is written at most once per key. */
module PaperPipeline {
  import opened Common
  import opened PositionLedger

  /** A table row: the column it is de-duplicated on, its fresh id, and the rest. */
  datatype Row<T> = Row(key: nat, id: nat, body: T)

  type Table<T> = seq<Row<T>>

  datatype OrderStatus = OrderFilled | OrderRejected

  datatype OrderBody = OrderBody(eventId: nat, status: OrderStatus, qty: Option<real>)

  datatype FillBody = FillBody(eventId: nat, trade: Fill)

  /** The tables. Ids come from one supply: `next` and everything above it is unused. */
  datatype Db = Db(
    next: nat,
    raw: Table<()>,              // by payload hash
    signals: Table<()>,          // by event id
    strategies: Table<()>,       // by signal id
    risks: Table<()>,            // by strategy decision id
    requests: Table<()>,         // by signal id
    orders: Table<OrderBody>,    // by execution request id
    fills: Table<FillBody>,      // by order id
    positions: seq<Position>)

  /** What one delivery computes from its payload. A replay computes it afresh. */
  datatype Decision = Decision(
    symbol: string, side: Side, quantity: Option<real>, price: Option<real>, actionable: bool)

  /** One delivery of a payload. `decision` is None when the alert cannot be normalized;
      `commits` is how many of the eight commits happen before the process stops. */
  datatype Delivery = Delivery(hash: nat, decision: Option<Decision>, commits: nat, time: int)

  const EMPTY := Db(0, [], [], [], [], [], [], [], [])

  // ------------------------------------------------------------------
  // De-duplicated tables
  // ------------------------------------------------------------------

  function Find<T>(t: Table<T>, key: nat): Option<nat> {
    if t == [] then None
    else if Last(t).key == key then Some(Last(t).id)
    else Find(Front(t), key)
  }

  /** The key whose row carries `id`. */
  function KeyOf<T>(t: Table<T>, id: nat): Option<nat> {
    if t == [] then None
    else if Last(t).id == id then Some(Last(t).key)
    else KeyOf(Front(t), id)
  }

  function Put<T>(t: Table<T>, key: nat, id: nat, body: T): Table<T> {
    if Find(t, key).Some? then t else t + [Row(key, id, body)]
  }

  function Bump<T>(t: Table<T>, key: nat, next: nat): nat {
    if Find(t, key).Some? then next else next + 1
  }

  ghost predicate Keyed<T>(t: Table<T>, next: nat) {
    && (forall i :: 0 <= i < |t| ==> t[i].id < next)
    && (forall i, j :: 0 <= i < j < |t| ==> t[i].key != t[j].key && t[i].id != t[j].id)
  }

  /** Nothing found in `t` is lost or changed in `t'`. */
  ghost predicate Grows<T>(t: Table<T>, t': Table<T>) {
    && (forall k :: Find(t, k).Some? ==> Find(t', k) == Find(t, k))
    && (forall id :: KeyOf(t, id).Some? ==> KeyOf(t', id) == KeyOf(t, id))
  }

  lemma {:induction false} FindIsRow<T>(t: Table<T>, key: nat) returns (i: nat)
    ensures Find(t, key).Some? ==> i < |t| && t[i].key == key && t[i].id == Find(t, key).value
    ensures Find(t, key).None? ==> forall j :: 0 <= j < |t| ==> t[j].key != key
  {
    if t == [] {
      i := 0;
    } else if Last(t).key == key {
      i := |t| - 1;
    } else {
      i := FindIsRow(Front(t), key);
      assert forall j :: 0 <= j < |Front(t)| ==> Front(t)[j] == t[j];
    }
  }

  lemma {:induction false} RowIsFound<T>(t: Table<T>, next: nat, i: nat)
    requires Keyed(t, next) && i < |t|
    ensures Find(t, t[i].key) == Some(t[i].id)
    ensures KeyOf(t, t[i].id) == Some(t[i].key)
  {
    if i < |t| - 1 {
      RowIsFound(Front(t), next, i);
    }
  }

  lemma {:induction false} KnownId<T>(t: Table<T>, next: nat, id: nat)
    requires Keyed(t, next) && KeyOf(t, id).Some?
    ensures id < next
  {
    if Last(t).id != id {
      KnownId(Front(t), next, id);
    }
  }

  lemma PutKeeps<T>(t: Table<T>, key: nat, next: nat, body: T)
    requires Keyed(t, next)
    ensures Keyed(Put(t, key, next, body), Bump(t, key, next))
    ensures Find(Put(t, key, next, body), key) == Some(if Find(t, key).Some? then Find(t, key).value else next)
    ensures Grows(t, Put(t, key, next, body))
  {
    var i := FindIsRow(t, key);
    if Find(t, key).None? {
      var t' := t + [Row(key, next, body)];
      assert Front(t') == t;
      forall id | KeyOf(t, id).Some? ensures KeyOf(t', id) == KeyOf(t, id) {
        KnownId(t, next, id);
      }
    }
  }

  // ------------------------------------------------------------------
  // Following the chain
  // ------------------------------------------------------------------

  function Follow<T>(from: Option<nat>, t: Table<T>): Option<nat> {
    if from.None? then None else Find(t, from.value)
  }

  function SignalOf(db: Db, event: Option<nat>): Option<nat> { Follow(event, db.signals) }

  function RequestOf(db: Db, event: Option<nat>): Option<nat> { Follow(SignalOf(db, event), db.requests) }

  function OrderOf(db: Db, event: Option<nat>): Option<nat> { Follow(RequestOf(db, event), db.orders) }

  function FillOf(db: Db, event: Option<nat>): Option<nat> { Follow(OrderOf(db, event), db.fills) }

  // ------------------------------------------------------------------
  // Specification of one delivery
  // ------------------------------------------------------------------

  predicate Actionable(d: Delivery) {
    d.decision.Some? && d.decision.value.actionable &&
    d.decision.value.quantity.Some? && d.decision.value.quantity.value > 0.0
  }

  function TradeOf(d: Delivery, orderId: nat, fillId: nat): Fill
    requires d.decision.Some?
  {
    var c := d.decision.value;
    Fill(c.symbol, Some(c.side), c.quantity, c.price, orderId, fillId, d.time)
  }

  /** The `k`-th commit of a delivery; it inserts only when the key is new. */
  function Commit(db: Db, d: Delivery, k: nat): Db
    requires d.decision.Some?
  {
    var event := Find(db.raw, d.hash);
    var signal := SignalOf(db, event);
    var strategy := Follow(signal, db.strategies);
    var risk := Follow(strategy, db.risks);
    var request := RequestOf(db, event);
    var order := OrderOf(db, event);
    if k == 1 then
      db.(raw := Put(db.raw, d.hash, db.next, ()), next := Bump(db.raw, d.hash, db.next))
    else if k == 2 && event.Some? then
      db.(signals := Put(db.signals, event.value, db.next, ()), next := Bump(db.signals, event.value, db.next))
    else if k == 3 && signal.Some? then
      db.(strategies := Put(db.strategies, signal.value, db.next, ()),
          next := Bump(db.strategies, signal.value, db.next))
    else if k == 4 && strategy.Some? then
      db.(risks := Put(db.risks, strategy.value, db.next, ()), next := Bump(db.risks, strategy.value, db.next))
    else if k == 5 && signal.Some? && risk.Some? then
      db.(requests := Put(db.requests, signal.value, db.next, ()), next := Bump(db.requests, signal.value, db.next))
    else if k == 6 && event.Some? && request.Some? then
      var status := if Actionable(d) then OrderFilled else OrderRejected;
      db.(orders := Put(db.orders, request.value, db.next, OrderBody(event.value, status, d.decision.value.quantity)),
          next := Bump(db.orders, request.value, db.next))
    else if k == 7 && event.Some? && order.Some? && Actionable(d) then
      db.(fills := Put(db.fills, order.value, db.next, FillBody(event.value, TradeOf(d, order.value, db.next))),
          next := Bump(db.fills, order.value, db.next))
    else db
  }

  /** The tables after the first `k` of the commits that insert rows. */
  function Chain(db: Db, d: Delivery, k: nat): Db
    requires d.decision.Some?
  {
    if k == 0 then db else Commit(Chain(db, d, k - 1), d, k)
  }

  /** The position step: it runs only when this delivery inserted the fill. */
  function Settle(before: Db, after: Db): Db {
    if |after.fills| > |before.fills|
    then after.(positions := Apply(after.positions, Last(after.fills).body.trade))
    else after
  }

  function Deliver(db: Db, d: Delivery): Db {
    if d.decision.None? then
      if d.commits == 0 then db
      else db.(raw := Put(db.raw, d.hash, db.next, ()), next := Bump(db.raw, d.hash, db.next))
    else if d.commits < 8 then Chain(db, d, d.commits)
    else Settle(db, Chain(db, d, 7))
  }

  function Run(db: Db, ds: seq<Delivery>): Db {
    if ds == [] then db else Deliver(Run(db, Front(ds)), Last(ds))
  }

  // ------------------------------------------------------------------
  // The invariant of the chain
  // ------------------------------------------------------------------

  ghost predicate KeyedTables(db: Db) {
    && Keyed(db.raw, db.next) && Keyed(db.signals, db.next) && Keyed(db.strategies, db.next)
    && Keyed(db.risks, db.next) && Keyed(db.requests, db.next) && Keyed(db.orders, db.next)
    && Keyed(db.fills, db.next)
  }

  /** An order sits under the request of its own event, which has a payload. */
  ghost predicate GoodOrder(db: Db, row: Row<OrderBody>) {
    RequestOf(db, Some(row.body.eventId)) == Some(row.key) && KeyOf(db.raw, row.body.eventId).Some?
  }

  /** A fill sits under the order of its own event, which has a payload. */
  ghost predicate GoodFill(db: Db, row: Row<FillBody>) {
    && OrderOf(db, Some(row.body.eventId)) == Some(row.key) && KeyOf(db.raw, row.body.eventId).Some?
    && Effective(row.body.trade) && row.body.trade.fillId == row.id && row.body.trade.orderId == row.key
  }

  /** A request is only written after the strategy and risk decisions of its signal. */
  ghost predicate GoodRequest(db: Db, row: Row<()>) {
    Follow(Find(db.strategies, row.key), db.risks).Some?
  }

  ghost predicate Linked(db: Db) {
    && (forall i :: 0 <= i < |db.orders| ==> GoodOrder(db, db.orders[i]))
    && (forall i :: 0 <= i < |db.fills| ==> GoodFill(db, db.fills[i]))
    && (forall i :: 0 <= i < |db.requests| ==> GoodRequest(db, db.requests[i]))
  }

  ghost predicate ValidDb(db: Db) {
    KeyedTables(db) && Linked(db)
  }

  ghost predicate Extends(db: Db, db': Db) {
    && Grows(db.raw, db'.raw) && Grows(db.signals, db'.signals) && Grows(db.strategies, db'.strategies)
    && Grows(db.risks, db'.risks) && Grows(db.requests, db'.requests) && Grows(db.orders, db'.orders)
    && Grows(db.fills, db'.fills)
  }

  lemma LinkedExtends(db: Db, db': Db)
    requires Linked(db) && Extends(db, db')
    ensures forall i :: 0 <= i < |db.orders| ==> GoodOrder(db', db.orders[i])
    ensures forall i :: 0 <= i < |db.fills| ==> GoodFill(db', db.fills[i])
    ensures forall i :: 0 <= i < |db.requests| ==> GoodRequest(db', db.requests[i])
  {
    forall i | 0 <= i < |db.orders| ensures GoodOrder(db', db.orders[i]) {
      assert GoodOrder(db, db.orders[i]);
    }
    forall i | 0 <= i < |db.fills| ensures GoodFill(db', db.fills[i]) {
      assert GoodFill(db, db.fills[i]);
    }
    forall i | 0 <= i < |db.requests| ensures GoodRequest(db', db.requests[i]) {
      assert GoodRequest(db, db.requests[i]);
    }
  }

  lemma EarlyCommitKeyed(db: Db, d: Delivery, k: nat)
    requires KeyedTables(db) && d.decision.Some? && k <= 5
    ensures KeyedTables(Commit(db, d, k)) && Extends(db, Commit(db, d, k))
  {
    var event := Find(db.raw, d.hash);
    var signal := SignalOf(db, event);
    var strategy := Follow(signal, db.strategies);
    if k == 1 {
      PutKeeps(db.raw, d.hash, db.next, ());
    } else if k == 2 && event.Some? {
      PutKeeps(db.signals, event.value, db.next, ());
    } else if k == 3 && signal.Some? {
      PutKeeps(db.strategies, signal.value, db.next, ());
    } else if k == 4 && strategy.Some? {
      PutKeeps(db.risks, strategy.value, db.next, ());
    } else if k == 5 && signal.Some? {
      PutKeeps(db.requests, signal.value, db.next, ());
    }
  }

  lemma LateCommitKeyed(db: Db, d: Delivery, k: nat)
    requires KeyedTables(db) && d.decision.Some? && k > 5
    ensures KeyedTables(Commit(db, d, k)) && Extends(db, Commit(db, d, k))
  {
    var event := Find(db.raw, d.hash);
    var request := RequestOf(db, event);
    var order := OrderOf(db, event);
    if k == 6 && event.Some? && request.Some? {
      var status := if Actionable(d) then OrderFilled else OrderRejected;
      PutKeeps(db.orders, request.value, db.next, OrderBody(event.value, status, d.decision.value.quantity));
    } else if k == 7 && event.Some? && order.Some? && Actionable(d) {
      PutKeeps(db.fills, order.value, db.next, FillBody(event.value, TradeOf(d, order.value, db.next)));
    }
  }

  lemma CommitKeyed(db: Db, d: Delivery, k: nat)
    requires KeyedTables(db) && d.decision.Some?
    ensures KeyedTables(Commit(db, d, k)) && Extends(db, Commit(db, d, k))
  {
    if k <= 5 { EarlyCommitKeyed(db, d, k); } else { LateCommitKeyed(db, d, k); }
  }

  lemma EventHasKey(db: Db, hash: nat)
    requires KeyedTables(db) && Find(db.raw, hash).Some?
    ensures KeyOf(db.raw, Find(db.raw, hash).value) == Some(hash)
  {
    var i := FindIsRow(db.raw, hash);
    RowIsFound(db.raw, db.next, i);
  }

  lemma CommitLinked(db: Db, d: Delivery, k: nat)
    requires ValidDb(db) && d.decision.Some? && k <= 5
    ensures Linked(Commit(db, d, k))
  {
    CommitKeyed(db, d, k);
    LinkedExtends(db, Commit(db, d, k));
  }

  lemma OrderLinked(db: Db, d: Delivery)
    requires ValidDb(db) && d.decision.Some?
    ensures Linked(Commit(db, d, 6))
  {
    var db' := Commit(db, d, 6);
    CommitKeyed(db, d, 6);
    LinkedExtends(db, db');
    if |db'.orders| > |db.orders| {
      EventHasKey(db, d.hash);
      assert GoodOrder(db', Last(db'.orders));
    }
  }

  lemma FillLinked(db: Db, d: Delivery)
    requires ValidDb(db) && d.decision.Some?
    ensures Linked(Commit(db, d, 7))
  {
    var db' := Commit(db, d, 7);
    CommitKeyed(db, d, 7);
    LinkedExtends(db, db');
    if |db'.fills| > |db.fills| {
      EventHasKey(db, d.hash);
      assert GoodFill(db', Last(db'.fills));
    }
  }

  lemma CommitKeeps(db: Db, d: Delivery, k: nat)
    requires ValidDb(db) && d.decision.Some?
    ensures ValidDb(Commit(db, d, k)) && Extends(db, Commit(db, d, k))
  {
    CommitKeyed(db, d, k);
    if k <= 5 { CommitLinked(db, d, k); }
    else if k == 6 { OrderLinked(db, d); }
    else if k == 7 { FillLinked(db, d); }
  }

  lemma {:induction false} ChainFrame(db: Db, d: Delivery, k: nat)
    requires d.decision.Some?
    ensures Chain(db, d, k).positions == db.positions
    ensures k < 7 ==> Chain(db, d, k).fills == db.fills
  {
    if k > 0 {
      ChainFrame(db, d, k - 1);
    }
  }

  lemma ExtendsTransitive(a: Db, b: Db, c: Db)
    requires Extends(a, b) && Extends(b, c)
    ensures Extends(a, c)
  {
  }

  lemma {:induction false} ChainKeeps(db: Db, d: Delivery, k: nat)
    requires ValidDb(db) && d.decision.Some?
    ensures ValidDb(Chain(db, d, k)) && Extends(db, Chain(db, d, k))
    ensures Chain(db, d, k).positions == db.positions
    ensures k < 7 ==> Chain(db, d, k).fills == db.fills
  {
    ChainFrame(db, d, k);
    if k > 0 {
      var before := Chain(db, d, k - 1);
      ChainKeeps(db, d, k - 1);
      CommitKeeps(before, d, k);
      ExtendsTransitive(db, before, Commit(before, d, k));
    }
  }

  lemma DeliverKeeps(db: Db, d: Delivery)
    requires ValidDb(db)
    ensures ValidDb(Deliver(db, d)) && Extends(db, Deliver(db, d))
  {
    if d.decision.Some? {
      ChainKeeps(db, d, if d.commits < 8 then d.commits else 7);
    } else {
      var d' := d.(decision := Some(Decision("", Long, None, None, false)));
      assert Deliver(db, d) == Chain(db, d', if d.commits == 0 then 0 else 1) by {
        assert Chain(db, d', 0) == db;
      }
      ChainKeeps(db, d', if d.commits == 0 then 0 else 1);
    }
  }

  lemma {:induction false} RunKeeps(db: Db, ds: seq<Delivery>)
    requires ValidDb(db)
    ensures ValidDb(Run(db, ds))
  {
    if ds != [] {
      RunKeeps(db, Front(ds));
      DeliverKeeps(Run(db, Front(ds)), Last(ds));
    }
  }

  // ------------------------------------------------------------------
  // Each payload is applied once
  // ------------------------------------------------------------------

  /** The payload hash behind an event. */
  function PayloadOf(db: Db, event: nat): Option<nat> { KeyOf(db.raw, event) }

  ghost predicate OncePerPayload(db: Db) {
    && (forall i :: 0 <= i < |db.orders| ==> PayloadOf(db, db.orders[i].body.eventId).Some?)
    && (forall i :: 0 <= i < |db.fills| ==> PayloadOf(db, db.fills[i].body.eventId).Some?)
    && (forall i, j :: 0 <= i < j < |db.orders| ==>
          PayloadOf(db, db.orders[i].body.eventId) != PayloadOf(db, db.orders[j].body.eventId))
    && (forall i, j :: 0 <= i < j < |db.fills| ==>
          PayloadOf(db, db.fills[i].body.eventId) != PayloadOf(db, db.fills[j].body.eventId))
  }

  lemma {:induction false} KeyOfIsRow<T>(t: Table<T>, id: nat) returns (i: nat)
    requires KeyOf(t, id).Some?
    ensures i < |t| && t[i].id == id && t[i].key == KeyOf(t, id).value
  {
    if Last(t).id == id {
      i := |t| - 1;
    } else {
      i := KeyOfIsRow(Front(t), id);
    }
  }

  lemma KeyOfInjective<T>(t: Table<T>, next: nat, a: nat, b: nat)
    requires Keyed(t, next) && KeyOf(t, a).Some? && KeyOf(t, a) == KeyOf(t, b)
    ensures a == b
  {
    var i := KeyOfIsRow(t, a);
    var j := KeyOfIsRow(t, b);
  }

  lemma ValidIsOncePerPayload(db: Db)
    requires ValidDb(db)
    ensures OncePerPayload(db)
  {
    forall i, j | 0 <= i < j < |db.orders|
      ensures PayloadOf(db, db.orders[i].body.eventId) != PayloadOf(db, db.orders[j].body.eventId)
    {
      assert GoodOrder(db, db.orders[i]) && GoodOrder(db, db.orders[j]);
      if PayloadOf(db, db.orders[i].body.eventId) == PayloadOf(db, db.orders[j].body.eventId) {
        KeyOfInjective(db.raw, db.next, db.orders[i].body.eventId, db.orders[j].body.eventId);
      }
    }
    forall i, j | 0 <= i < j < |db.fills|
      ensures PayloadOf(db, db.fills[i].body.eventId) != PayloadOf(db, db.fills[j].body.eventId)
    {
      assert GoodFill(db, db.fills[i]) && GoodFill(db, db.fills[j]);
      if PayloadOf(db, db.fills[i].body.eventId) == PayloadOf(db, db.fills[j].body.eventId) {
        KeyOfInjective(db.raw, db.next, db.fills[i].body.eventId, db.fills[j].body.eventId);
      }
    }
    forall i | 0 <= i < |db.orders| ensures PayloadOf(db, db.orders[i].body.eventId).Some? {
      assert GoodOrder(db, db.orders[i]);
    }
    forall i | 0 <= i < |db.fills| ensures PayloadOf(db, db.fills[i].body.eventId).Some? {
      assert GoodFill(db, db.fills[i]);
    }
  }

  /** Over any deliveries, with decisions recomputed at will and crashes at any commit, no two
      orders and no two fills come from the same payload. */
  lemma AtMostOncePerPayload(ds: seq<Delivery>)
    ensures OncePerPayload(Run(EMPTY, ds))
  {
    RunKeeps(EMPTY, ds);
    ValidIsOncePerPayload(Run(EMPTY, ds));
  }

  /** How far the chain has come for a payload after `k` commits. */
  ghost predicate Reached(db: Db, hash: nat, k: nat) {
    var event := Find(db.raw, hash);
    var signal := SignalOf(db, event);
    var strategy := Follow(signal, db.strategies);
    && (k >= 1 ==> event.Some?) && (k >= 2 ==> signal.Some?) && (k >= 3 ==> strategy.Some?)
    && (k >= 4 ==> Follow(strategy, db.risks).Some?)
    && (k >= 5 ==> RequestOf(db, event).Some?) && (k >= 6 ==> OrderOf(db, event).Some?)
  }

  lemma {:induction false} ChainReaches(db: Db, d: Delivery, k: nat)
    requires ValidDb(db) && d.decision.Some? && k <= 6
    ensures Reached(Chain(db, d, k), d.hash, k)
  {
    if k > 0 {
      var before := Chain(db, d, k - 1);
      ChainReaches(db, d, k - 1);
      ChainKeeps(db, d, k - 1);
      CommitKeeps(before, d, k);
      CommitPuts(before, d, k);
    }
  }

  lemma CommitPuts(db: Db, d: Delivery, k: nat)
    requires ValidDb(db) && d.decision.Some? && 1 <= k <= 6 && Reached(db, d.hash, k - 1)
    ensures Reached(Commit(db, d, k), d.hash, k)
  {
    var event := Find(db.raw, d.hash);
    var signal := SignalOf(db, event);
    var strategy := Follow(signal, db.strategies);
    var request := RequestOf(db, event);
    CommitKeyed(db, d, k);
    if k == 1 { PutKeeps(db.raw, d.hash, db.next, ()); }
    else if k == 2 { PutKeeps(db.signals, event.value, db.next, ()); }
    else if k == 3 { PutKeeps(db.strategies, signal.value, db.next, ()); }
    else if k == 4 { PutKeeps(db.risks, strategy.value, db.next, ()); }
    else if k == 5 { PutKeeps(db.requests, signal.value, db.next, ()); }
    else {
      var status := if Actionable(d) then OrderFilled else OrderRejected;
      PutKeeps(db.orders, request.value, db.next, OrderBody(event.value, status, d.decision.value.quantity));
    }
  }

  /** The payload has already been filled. */
  predicate Filled(db: Db, hash: nat) {
    FillOf(db, Find(db.raw, hash)).Some?
  }

  /** The six commits before the fill do not change whether the payload is filled. */
  lemma FilledBeforeFill(db: Db, d: Delivery)
    requires ValidDb(db) && d.decision.Some?
    ensures Filled(Chain(db, d, 6), d.hash) <==> Filled(db, d.hash)
  {
    var db' := Chain(db, d, 6);
    ChainKeeps(db, d, 6);
    if Filled(db', d.hash) {
      var event := Find(db'.raw, d.hash);
      var order := OrderOf(db', event);
      var i := FindIsRow(db'.fills, order.value);
      assert GoodFill(db, db.fills[i]) && GoodFill(db', db'.fills[i]);
      var o := FindIsRow(db'.orders, RequestOf(db', event).value);
      assert GoodOrder(db', db'.orders[o]);
      SameOrderSameEvent(db', db'.fills[i].body.eventId, event.value);
      EventHasKey(db', d.hash);
      assert KeyOf(db.raw, event.value).Some?;
      var r := KeyOfIsRow(db.raw, event.value);
      RowIsFound(db.raw, db.next, r);
    }
  }

  /** An order belongs to one event. */
  lemma SameOrderSameEvent(db: Db, a: nat, b: nat)
    requires ValidDb(db) && OrderOf(db, Some(a)).Some? && OrderOf(db, Some(a)) == OrderOf(db, Some(b))
    ensures a == b
  {
    var sa := FindIsRow(db.signals, a);
    var sb := FindIsRow(db.signals, b);
    var ra := FindIsRow(db.requests, SignalOf(db, Some(a)).value);
    var rb := FindIsRow(db.requests, SignalOf(db, Some(b)).value);
    var oa := FindIsRow(db.orders, RequestOf(db, Some(a)).value);
    var ob := FindIsRow(db.orders, RequestOf(db, Some(b)).value);
  }

  /** The trade is the one the delivery decided on. */
  predicate Carries(trade: Fill, d: Delivery) {
    && d.decision.Some? && trade.symbol == d.decision.value.symbol && trade.side == Some(d.decision.value.side)
    && trade.qty == d.decision.value.quantity && trade.price == d.decision.value.price && trade.time == d.time
  }

  /** This delivery inserts a fill exactly when it is actionable and its payload has none yet, and the fill
      is the trade it decided on. */
  lemma FillInserted(db: Db, d: Delivery)
    requires ValidDb(db) && d.decision.Some?
    ensures Filled(Chain(db, d, 7), d.hash) <==> Filled(db, d.hash) || Actionable(d)
    ensures
      if Actionable(d) && !Filled(db, d.hash)
      then exists row :: Chain(db, d, 7).fills == db.fills + [row] && Effective(row.body.trade)
                         && Carries(row.body.trade, d) && PayloadOf(Chain(db, d, 7), row.body.eventId) == Some(d.hash)
      else Chain(db, d, 7).fills == db.fills
  {
    var before := Chain(db, d, 6);
    var after := Chain(db, d, 7);
    assert after == Commit(before, d, 7);
    ChainKeeps(db, d, 6);
    ChainReaches(db, d, 6);
    FilledBeforeFill(db, d);
    EventHasKey(before, d.hash);
    var event := Find(before.raw, d.hash);
    var order := OrderOf(before, event);
    if Actionable(d) {
      var body := FillBody(event.value, TradeOf(d, order.value, before.next));
      PutKeeps(before.fills, order.value, before.next, body);
      if !Filled(db, d.hash) {
        assert after.fills == db.fills + [Row(order.value, before.next, body)] && Carries(body.trade, d);
      }
    }
  }

  /** Once a payload is filled, delivering it again changes nothing at all, whatever is decided. */
  lemma RedeliveryChangesNothing(db: Db, d: Delivery)
    requires ValidDb(db) && Filled(db, d.hash)
    ensures Deliver(db, d) == db
  {
    var event := Find(db.raw, d.hash);
    var r := FindIsRow(db.requests, SignalOf(db, event).value);
    assert GoodRequest(db, db.requests[r]);
    if d.decision.Some? {
      ChainIdle(db, d, if d.commits < 8 then d.commits else 7);
    }
  }

  lemma {:induction false} ChainIdle(db: Db, d: Delivery, k: nat)
    requires ValidDb(db) && Filled(db, d.hash) && d.decision.Some? && Reached(db, d.hash, 6)
    ensures Chain(db, d, k) == db
  {
    if k > 0 {
      ChainIdle(db, d, k - 1);
    }
  }

  lemma FilledStays(db: Db, d: Delivery, hash: nat)
    requires ValidDb(db) && Filled(db, hash)
    ensures Filled(Deliver(db, d), hash)
  {
    DeliverKeeps(db, d);
  }

  lemma FilledNow(db: Db, d: Delivery)
    requires ValidDb(db) && Actionable(d) && d.commits >= 7
    ensures Filled(Deliver(db, d), d.hash)
  {
    FillInserted(db, d);
  }

  /** A delivery that runs to the fill leaves its payload filled, and the payload stays filled. */
  lemma {:induction false} ActionableIsFilled(ds: seq<Delivery>, n: nat)
    requires n < |ds| && Actionable(ds[n]) && ds[n].commits >= 7
    ensures Filled(Run(EMPTY, ds), ds[n].hash)
  {
    var before := Run(EMPTY, Front(ds));
    RunKeeps(EMPTY, Front(ds));
    if n == |ds| - 1 {
      FilledNow(before, ds[n]);
    } else {
      ActionableIsFilled(Front(ds), n);
      FilledStays(before, Last(ds), ds[n].hash);
    }
  }

  // ------------------------------------------------------------------
  // The positions table is the fold of the fills table
  // ------------------------------------------------------------------

  function Trades(fills: Table<FillBody>): seq<Fill> {
    seq(|fills|, i requires 0 <= i < |fills| => fills[i].body.trade)
  }

  ghost predicate PositionsMatch(db: Db) {
    db.positions == Replay([], Trades(db.fills))
  }

  /** The process stops after writing a new fill and before the position step. */
  predicate LosesFill(db: Db, d: Delivery) {
    d.commits == 7 && Actionable(d) && !Filled(db, d.hash)
  }

  /** One more fill moves the fold by that fill, and visibly. */
  lemma FoldGrows(fills: Table<FillBody>, row: Row<FillBody>)
    requires Effective(row.body.trade)
    ensures Replay([], Trades(fills + [row])) == Apply(Replay([], Trades(fills)), row.body.trade)
    ensures Replay([], Trades(fills + [row])) != Replay([], Trades(fills))
  {
    assert Trades(fills + [row]) == Trades(fills) + [row.body.trade];
    assert Front(Trades(fills + [row])) == Trades(fills);
    ReplayKeepsLedger([], Trades(fills));
    ApplyNet(Replay([], Trades(fills)), row.body.trade, row.body.trade.symbol);
  }

  lemma FillingDelivery(db: Db, d: Delivery)
    requires ValidDb(db) && PositionsMatch(db) && Actionable(d) && !Filled(db, d.hash)
    ensures PositionsMatch(Deliver(db, d)) <==> d.commits != 7
  {
    if d.commits < 7 {
      ChainFrame(db, d, d.commits);
    } else {
      FillInserted(db, d);
      var row :| Chain(db, d, 7).fills == db.fills + [row] && Effective(row.body.trade);
      ChainFrame(db, d, 7);
      FoldGrows(db.fills, row);
    }
  }

  lemma QuietDelivery(db: Db, d: Delivery)
    requires ValidDb(db) && d.decision.Some? && (Actionable(d) ==> Filled(db, d.hash))
    ensures Deliver(db, d).fills == db.fills && Deliver(db, d).positions == db.positions
  {
    FillInserted(db, d);
    ChainFrame(db, d, if d.commits < 8 then d.commits else 7);
  }

  /** A delivery keeps the positions equal to the fold of the fills, unless it stops exactly
      between writing a new fill and applying it, and then it always breaks the equality. */
  lemma DeliverPositions(db: Db, d: Delivery)
    requires ValidDb(db) && PositionsMatch(db)
    ensures PositionsMatch(Deliver(db, d)) <==> !LosesFill(db, d)
  {
    if d.decision.Some? {
      if Actionable(d) && !Filled(db, d.hash) {
        FillingDelivery(db, d);
      } else {
        QuietDelivery(db, d);
      }
    }
  }

  ghost predicate CleanRun(db: Db, ds: seq<Delivery>) {
    ds != [] ==> CleanRun(db, Front(ds)) && !LosesFill(Run(db, Front(ds)), Last(ds))
  }

  /** While no delivery stops between a new fill and its position step, the positions table is
      the fold of the fills table in insertion order. */
  lemma {:induction false} PositionsAreFold(ds: seq<Delivery>)
    requires CleanRun(EMPTY, ds)
    ensures PositionsMatch(Run(EMPTY, ds))
  {
    if ds != [] {
      PositionsAreFold(Front(ds));
      RunKeeps(EMPTY, Front(ds));
      DeliverPositions(Run(EMPTY, Front(ds)), Last(ds));
    } else {
      assert Trades([]) == [];
    }
  }

  // ------------------------------------------------------------------
  // Positions after runs that lose fills
  // ------------------------------------------------------------------

  /** Ids of the fills whose own delivery stopped before the position step. */
  function Lost(ds: seq<Delivery>): set<nat> {
    if ds == [] then {} else
    var after := Run(EMPTY, ds).fills;
    Lost(Front(ds)) + if LosesFill(Run(EMPTY, Front(ds)), Last(ds)) && after != [] then {Last(after).id} else {}
  }

  /** The trades of the fills that are not lost, in insertion order. */
  function AppliedTrades(fills: Table<FillBody>, lost: set<nat>): seq<Fill> {
    if fills == [] then [] else
    AppliedTrades(Front(fills), lost) + if Last(fills).id in lost then [] else [Last(fills).body.trade]
  }

  function IdsOf(fills: Table<FillBody>): set<nat> {
    set i | 0 <= i < |fills| :: fills[i].id
  }

  lemma {:induction false} AppliedIgnores(fills: Table<FillBody>, lost: set<nat>, id: nat)
    requires id !in IdsOf(fills)
    ensures AppliedTrades(fills, lost + {id}) == AppliedTrades(fills, lost)
  {
    if fills != [] {
      assert fills[|fills| - 1].id in IdsOf(fills);
      assert forall i :: 0 <= i < |Front(fills)| ==> Front(fills)[i].id == fills[i].id && fills[i].id in IdsOf(fills);
      AppliedIgnores(Front(fills), lost, id);
    }
  }

  lemma {:induction false} AppliedIsAll(fills: Table<FillBody>)
    ensures AppliedTrades(fills, {}) == Trades(fills)
  {
    if fills != [] {
      AppliedIsAll(Front(fills));
      assert Trades(fills) == Trades(Front(fills)) + [Last(fills).body.trade];
    }
  }

  /** What a delivery that writes a new fill leaves. */
  lemma NewFill(db: Db, d: Delivery) returns (row: Row<FillBody>)
    requires ValidDb(db) && Actionable(d) && !Filled(db, d.hash) && d.commits >= 7
    ensures Deliver(db, d).fills == db.fills + [row] && row.id !in IdsOf(db.fills)
    ensures row.body.trade.symbol == d.decision.value.symbol && row.body.trade.side == Some(d.decision.value.side)
    ensures row.body.trade.qty == d.decision.value.quantity && row.body.trade.price == d.decision.value.price
    ensures row.body.trade.time == d.time && PayloadOf(Deliver(db, d), row.body.eventId) == Some(d.hash)
    ensures Deliver(db, d).positions
         == if d.commits == 7 then db.positions else Apply(db.positions, row.body.trade)
  {
    FillInserted(db, d);
    ChainFrame(db, d, 7);
    row :| Chain(db, d, 7).fills == db.fills + [row] && Effective(row.body.trade) && Carries(row.body.trade, d)
           && PayloadOf(Chain(db, d, 7), row.body.eventId) == Some(d.hash);
    DeliverKeeps(db, d);
    LastIdIsNew(db.fills, row, Deliver(db, d).next);
  }

  lemma LastIdIsNew(fills: Table<FillBody>, row: Row<FillBody>, next: nat)
    requires Keyed(fills + [row], next)
    ensures row.id !in IdsOf(fills)
  {
    forall i | 0 <= i < |fills| ensures fills[i].id != row.id {
      assert (fills + [row])[i].id != (fills + [row])[|fills|].id;
    }
  }

  /** The positions are the fold of the fills that are not lost, all of which are in the table. */
  ghost predicate AppliedMatch(db: Db, lost: set<nat>) {
    db.positions == Replay([], AppliedTrades(db.fills, lost)) && lost <= IdsOf(db.fills)
  }

  lemma AppliedAppend(fills: Table<FillBody>, row: Row<FillBody>, lost: set<nat>)
    requires row.id !in IdsOf(fills) && lost <= IdsOf(fills)
    ensures Replay([], AppliedTrades(fills + [row], lost))
         == Apply(Replay([], AppliedTrades(fills, lost)), row.body.trade)
    ensures AppliedTrades(fills + [row], lost + {row.id}) == AppliedTrades(fills, lost)
    ensures lost + {row.id} <= IdsOf(fills + [row])
  {
    assert Front(fills + [row]) == fills && Last(fills + [row]) == row;
    AppliedIgnores(fills, lost, row.id);
    var applied := AppliedTrades(fills, lost);
    assert Front(applied + [row.body.trade]) == applied;
    forall x | x in lost + {row.id} ensures x in IdsOf(fills + [row]) {
      if x == row.id {
        assert (fills + [row])[|fills|].id == x;
      } else {
        var i :| 0 <= i < |fills| && fills[i].id == x;
        assert (fills + [row])[i].id == x;
      }
    }
  }

  lemma FillingKeepsApplied(db: Db, d: Delivery, lost: set<nat>)
    requires ValidDb(db) && AppliedMatch(db, lost) && Actionable(d) && !Filled(db, d.hash) && d.commits >= 7
    ensures Deliver(db, d).fills != []
    ensures AppliedMatch(Deliver(db, d), lost + if d.commits == 7 then {Last(Deliver(db, d).fills).id} else {})
  {
    var row := NewFill(db, d);
    AppliedAppend(db.fills, row, lost);
    var after := Deliver(db, d);
    assert Last(after.fills) == row;
    if d.commits == 7 {
      assert AppliedMatch(after, lost + {row.id});
    } else {
      MoreIds(db.fills, row);
      assert AppliedMatch(after, lost);
      assert lost + {} == lost;
    }
  }

  lemma MoreIds(fills: Table<FillBody>, row: Row<FillBody>)
    ensures IdsOf(fills) <= IdsOf(fills + [row])
  {
    forall x | x in IdsOf(fills) ensures x in IdsOf(fills + [row]) {
      var i :| 0 <= i < |fills| && fills[i].id == x;
      assert (fills + [row])[i].id == x;
    }
  }

  /** In every run, crashes anywhere, the positions table is the fold, in insertion order, of the fills
      whose own delivery did not stop before the position step. */
  lemma {:induction false} PositionsAreAppliedFold(ds: seq<Delivery>)
    ensures AppliedMatch(Run(EMPTY, ds), Lost(ds))
  {
    if ds != [] {
      var db, d := Run(EMPTY, Front(ds)), Last(ds);
      PositionsAreAppliedFold(Front(ds));
      RunKeeps(EMPTY, Front(ds));
      assert Lost(Front(ds)) + {} == Lost(Front(ds));
      if Actionable(d) && !Filled(db, d.hash) {
        if d.commits < 7 {
          ChainFrame(db, d, d.commits);
        } else {
          FillingKeepsApplied(db, d, Lost(Front(ds)));
        }
      } else if d.decision.Some? {
        QuietDelivery(db, d);
      }
    }
  }

  lemma {:induction false} CleanLosesNothing(ds: seq<Delivery>)
    requires CleanRun(EMPTY, ds)
    ensures Lost(ds) == {}
  {
    if ds != [] {
      CleanLosesNothing(Front(ds));
    }
  }

  /** An actionable alert whose process stops after the seventh commit: one fill, no position. */
  lemma LostFillExample(d: Delivery)
    requires Actionable(d) && d.commits == 7
    ensures |Run(EMPTY, [d]).fills| == 1 && Run(EMPTY, [d]).positions == []
  {
    assert Front([d]) == [] && Run(EMPTY, []) == EMPTY;
    var row := NewFill(EMPTY, d);
  }

  lemma {:induction false} ChainOrders(db: Db, d: Delivery, k: nat)
    requires ValidDb(db) && d.decision.Some? && k <= 7
    ensures db.orders <= Chain(db, d, k).orders
    ensures k <= 5 ==> Chain(db, d, k).orders == db.orders
  {
    if k > 0 {
      ChainOrders(db, d, k - 1);
    }
  }

  /** When the payload had no order, the request found at the order step has none either. */
  lemma NewOrderIsUnknown(db: Db, d: Delivery)
    requires ValidDb(db) && d.decision.Some? && OrderOf(db, Find(db.raw, d.hash)).None?
    ensures OrderOf(Chain(db, d, 5), Find(Chain(db, d, 5).raw, d.hash)).None?
  {
    var db' := Chain(db, d, 5);
    ChainKeeps(db, d, 5);
    ChainOrders(db, d, 5);
    var event := Find(db'.raw, d.hash);
    if OrderOf(db', event).Some? {
      var o := FindIsRow(db'.orders, RequestOf(db', event).value);
      assert GoodOrder(db, db.orders[o]) && GoodOrder(db', db'.orders[o]);
      RowIsFound(db'.orders, db'.next, o);
      SameOrderSameEvent(db', db'.orders[o].body.eventId, event.value);
      var r := KeyOfIsRow(db.raw, event.value);
      RowIsFound(db.raw, db.next, r);
      EventHasKey(db', d.hash);
      RowIsFound(db.orders, db.next, o);
    }
  }

  /** The row written by the first delivery of a payload that reaches the order step. */
  lemma FirstOrderRow(db: Db, d: Delivery) returns (row: Row<OrderBody>)
    requires ValidDb(db) && d.decision.Some? && OrderOf(db, Find(db.raw, d.hash)).None?
    ensures Chain(db, d, 6).orders == db.orders + [row]
    ensures PayloadOf(Chain(db, d, 6), row.body.eventId) == Some(d.hash)
    ensures row.body.status == if Actionable(d) then OrderFilled else OrderRejected
    ensures row.body.qty == d.decision.value.quantity
  {
    var before := Chain(db, d, 5);
    ChainKeeps(db, d, 5);
    ChainReaches(db, d, 5);
    ChainOrders(db, d, 5);
    NewOrderIsUnknown(db, d);
    EventHasKey(before, d.hash);
    var event := Find(before.raw, d.hash);
    row := Row(RequestOf(before, event).value, before.next,
               OrderBody(event.value, if Actionable(d) then OrderFilled else OrderRejected, d.decision.value.quantity));
  }

  lemma DeliverOrders(db: Db, d: Delivery)
    requires ValidDb(db) && d.decision.Some?
    ensures db.orders <= Deliver(db, d).orders
    ensures d.commits >= 6 ==> Deliver(db, d).orders == Chain(db, d, 6).orders
  {
    ChainOrders(db, d, 6);
    ChainOrders(db, d, if d.commits < 8 then d.commits else 7);
  }

  /** The `i`-th order came from payload `hash` and has this status. */
  predicate OrderIs(db: Db, i: nat, hash: nat, status: OrderStatus) {
    i < |db.orders| && PayloadOf(db, db.orders[i].body.eventId) == Some(hash) && db.orders[i].body.status == status
  }

  lemma FirstOrderStands(db: Db, d: Delivery)
    requires ValidDb(db) && d.decision.Some? && OrderOf(db, Find(db.raw, d.hash)).None? && d.commits >= 6
    ensures OrderIs(Deliver(db, d), |db.orders|, d.hash, if Actionable(d) then OrderFilled else OrderRejected)
  {
    var row := FirstOrderRow(db, d);
    DeliverOrders(db, d);
    RawSettled(db, d);
  }

  lemma OrderStands(db: Db, d: Delivery, i: nat)
    requires ValidDb(db) && d.decision.Some? && i < |db.orders|
    ensures forall hash, status :: OrderIs(db, i, hash, status) ==> OrderIs(Deliver(db, d), i, hash, status)
  {
    DeliverOrders(db, d);
    DeliverKeeps(db, d);
  }

  /** The status of an order is fixed by the delivery that wrote it: when that delivery was not
      actionable, a later one may still fill the payload, and the order stays rejected. */
  lemma RejectedOrderMayFill(db: Db, refused: Delivery, accepted: Delivery) returns (i: nat)
    requires ValidDb(db) && OrderOf(db, Find(db.raw, refused.hash)).None?
    requires refused.decision.Some? && !Actionable(refused) && refused.commits >= 6
    requires Actionable(accepted) && accepted.commits >= 7 && accepted.hash == refused.hash
    ensures
      var db' := Deliver(Deliver(db, refused), accepted);
      Filled(db', accepted.hash) && OrderIs(db', i, refused.hash, OrderRejected)
  {
    i := |db.orders|;
    FirstOrderStands(db, refused);
    DeliverKeeps(db, refused);
    OrderStands(Deliver(db, refused), accepted, i);
    FilledNow(Deliver(db, refused), accepted);
  }

  // ------------------------------------------------------------------
  // Which delivery decides an order
  // ------------------------------------------------------------------

  predicate ReachesOrder(d: Delivery, hash: nat) {
    d.hash == hash && d.decision.Some? && d.commits >= 6
  }

  function StatusFrom(d: Delivery): OrderStatus {
    if Actionable(d) then OrderFilled else OrderRejected
  }

  ghost predicate HasOrder(db: Db, hash: nat, status: OrderStatus) {
    exists i: nat :: OrderIs(db, i, hash, status)
  }

  /** What the orders table knows of a payload: nothing, or one order with this status. */
  ghost predicate Ordered(db: Db, hash: nat, status: Option<OrderStatus>) {
    if status.Some? then HasOrder(db, hash, status.value)
    else forall i: nat, s :: !OrderIs(db, i, hash, s)
  }

  /** The status that the first delivery to reach the order step gives. */
  function FirstStatus(ds: seq<Delivery>, hash: nat): Option<OrderStatus> {
    if ds == [] then None
    else if FirstStatus(Front(ds), hash).Some? then FirstStatus(Front(ds), hash)
    else if ReachesOrder(Last(ds), hash) then Some(StatusFrom(Last(ds)))
    else None
  }

  lemma OrderHasRow(db: Db, hash: nat) returns (i: nat)
    requires ValidDb(db) && OrderOf(db, Find(db.raw, hash)).Some?
    ensures i < |db.orders| && PayloadOf(db, db.orders[i].body.eventId) == Some(hash)
  {
    var event := Find(db.raw, hash);
    i := FindIsRow(db.orders, RequestOf(db, event).value);
    assert GoodOrder(db, db.orders[i]);
    RowIsFound(db.orders, db.next, i);
    SameOrderSameEvent(db, db.orders[i].body.eventId, event.value);
    EventHasKey(db, hash);
  }

  /** A payload that has an order gets no other. */
  lemma NoSecondOrder(db: Db, d: Delivery)
    requires ValidDb(db) && d.decision.Some? && OrderOf(db, Find(db.raw, d.hash)).Some?
    ensures Chain(db, d, 6).orders == db.orders
  {
    ChainKeeps(db, d, 5);
    ChainOrders(db, d, 5);
    KnownOrderCommit(Chain(db, d, 5), d);
  }

  lemma KnownOrderCommit(db: Db, d: Delivery)
    requires d.decision.Some? && OrderOf(db, Find(db.raw, d.hash)).Some?
    ensures Commit(db, d, 6).orders == db.orders
  {
  }

  /** The orders a delivery leaves: the old ones, and a new one exactly when it reaches the order step
      and its payload has none. */
  lemma OrdersAfter(db: Db, d: Delivery) returns (row: Row<OrderBody>)
    requires ValidDb(db)
    ensures
      if ReachesOrder(d, d.hash) && OrderOf(db, Find(db.raw, d.hash)).None? then
        && Deliver(db, d).orders == db.orders + [row]
        && PayloadOf(Deliver(db, d), row.body.eventId) == Some(d.hash) && row.body.status == StatusFrom(d)
      else Deliver(db, d).orders == db.orders
  {
    row := Row(0, 0, OrderBody(0, OrderFilled, None));
    if d.decision.Some? {
      if d.commits < 6 {
        ChainOrders(db, d, d.commits);
      } else {
        DeliverOrders(db, d);
        RawSettled(db, d);
        if OrderOf(db, Find(db.raw, d.hash)).None? {
          row := FirstOrderRow(db, d);
        } else {
          NoSecondOrder(db, d);
        }
      }
    }
  }

  lemma OldOrders(db: Db, d: Delivery, i: nat, hash: nat, status: OrderStatus)
    requires ValidDb(db) && i < |db.orders| && db.orders <= Deliver(db, d).orders
    ensures OrderIs(Deliver(db, d), i, hash, status) <==> OrderIs(db, i, hash, status)
  {
    DeliverKeeps(db, d);
    assert GoodOrder(db, db.orders[i]);
  }

  lemma OrderedStays(db: Db, d: Delivery, hash: nat, status: OrderStatus)
    requires ValidDb(db) && Ordered(db, hash, Some(status))
    ensures Ordered(Deliver(db, d), hash, Some(status))
  {
    var i :| OrderIs(db, i, hash, status);
    var row := OrdersAfter(db, d);
    OldOrders(db, d, i, hash, status);
  }

  lemma OrderedFirst(db: Db, d: Delivery, hash: nat)
    requires ValidDb(db) && Ordered(db, hash, None)
    ensures Ordered(Deliver(db, d), hash, if ReachesOrder(d, hash) then Some(StatusFrom(d)) else None)
  {
    var db' := Deliver(db, d);
    if OrderOf(db, Find(db.raw, hash)).Some? {
      var i := OrderHasRow(db, hash);
      assert OrderIs(db, i, hash, db.orders[i].body.status);
    }
    var row := OrdersAfter(db, d);
    if ReachesOrder(d, hash) {
      assert OrderIs(db', |db.orders|, hash, StatusFrom(d));
    } else {
      forall i: nat, s: OrderStatus ensures !OrderIs(db', i, hash, s) {
        if i < |db.orders| {
          OldOrders(db, d, i, hash, s);
        }
      }
    }
  }

  lemma {:induction false} OrderFollowsFirst(ds: seq<Delivery>, hash: nat)
    ensures Ordered(Run(EMPTY, ds), hash, FirstStatus(ds, hash))
  {
    if ds != [] {
      var db, d := Run(EMPTY, Front(ds)), Last(ds);
      OrderFollowsFirst(Front(ds), hash);
      RunKeeps(EMPTY, Front(ds));
      var before := FirstStatus(Front(ds), hash);
      if before.Some? {
        OrderedStays(db, d, hash, before.value);
      } else {
        OrderedFirst(db, d, hash);
      }
    }
  }

  lemma OneStatus(db: Db, hash: nat, i: nat, j: nat, s: OrderStatus, t: OrderStatus)
    requires ValidDb(db) && OrderIs(db, i, hash, s) && OrderIs(db, j, hash, t)
    ensures i == j && s == t
  {
    ValidIsOncePerPayload(db);
  }

  /** The `n`-th delivery is the first of its payload to reach the order step. */
  predicate FirstAtOrder(ds: seq<Delivery>, hash: nat, n: nat) {
    n < |ds| && ReachesOrder(ds[n], hash) && forall m :: 0 <= m < n ==> !ReachesOrder(ds[m], hash)
  }

  /** That first delivery gives this status: filled when it is actionable, rejected when it is not. */
  ghost predicate FirstDecides(ds: seq<Delivery>, hash: nat, status: OrderStatus) {
    exists n: nat :: FirstAtOrder(ds, hash, n) && StatusFrom(ds[n]) == status
  }

  lemma {:induction false} FirstStatusIs(ds: seq<Delivery>, hash: nat) returns (n: nat)
    ensures if FirstStatus(ds, hash).Some?
            then FirstAtOrder(ds, hash, n) && FirstStatus(ds, hash) == Some(StatusFrom(ds[n]))
            else forall m :: 0 <= m < |ds| ==> !ReachesOrder(ds[m], hash)
  {
    n := 0;
    if ds != [] {
      n := FirstStatusIs(Front(ds), hash);
      assert forall m :: 0 <= m < |Front(ds)| ==> Front(ds)[m] == ds[m];
      if FirstStatus(Front(ds), hash).None? {
        n := |ds| - 1;
      }
    }
  }

  lemma StatusIsFromFirst(ds: seq<Delivery>, hash: nat, status: OrderStatus)
    ensures FirstStatus(ds, hash) == Some(status) <==> FirstDecides(ds, hash, status)
  {
    var first := FirstStatusIs(ds, hash);
    forall n: nat | FirstAtOrder(ds, hash, n) ensures FirstStatus(ds, hash) == Some(StatusFrom(ds[n])) {
      assert ReachesOrder(ds[n], hash);
      assert n == first;
    }
  }

  lemma OrderedIsExact(db: Db, hash: nat, known: Option<OrderStatus>, status: OrderStatus)
    requires ValidDb(db) && Ordered(db, hash, known)
    ensures HasOrder(db, hash, status) <==> known == Some(status)
  {
    if known.Some? {
      var j: nat :| OrderIs(db, j, hash, known.value);
      forall i: nat | OrderIs(db, i, hash, status) ensures known.value == status {
        OneStatus(db, hash, i, j, status, known.value);
      }
    }
  }

  /** Over every run a payload's order is stored as filled exactly when the first delivery of it that
      reaches the order step is actionable, and as rejected exactly when that one is not. */
  lemma OrderStatusIsFirst(ds: seq<Delivery>, hash: nat, status: OrderStatus)
    ensures HasOrder(Run(EMPTY, ds), hash, status) <==> FirstDecides(ds, hash, status)
  {
    RunKeeps(EMPTY, ds);
    OrderFollowsFirst(ds, hash);
    OrderedIsExact(Run(EMPTY, ds), hash, FirstStatus(ds, hash), status);
    StatusIsFromFirst(ds, hash, status);
  }

  lemma RawSettled(db: Db, d: Delivery)
    requires ValidDb(db) && d.decision.Some? && d.commits >= 6
    ensures Deliver(db, d).raw == Chain(db, d, 6).raw
  {
  }

  // ------------------------------------------------------------------
  // The tables, updated in place
  // ------------------------------------------------------------------

  /** SELECT by key, INSERT when absent. */
  method InsertOnce<T>(t: Table<T>, key: nat, next: nat, body: T)
    returns (t': Table<T>, next': nat, id: nat, duplicate: bool)
    requires Keyed(t, next)
    ensures t' == Put(t, key, next, body) && next' == Bump(t, key, next)
    ensures duplicate <==> Find(t, key).Some?
    ensures Find(t', key) == Some(id) && (!duplicate ==> id == next)
  {
    PutKeeps(t, key, next, body);
    var existing := Find(t, key);
    if existing.Some? {
      return t, next, existing.value, true;
    }
    return t + [Row(key, next, body)], next + 1, next, false;
  }

  class PaperStore {
    var next: nat
    var raw: Table<()>
    var signals: Table<()>
    var strategies: Table<()>
    var risks: Table<()>
    var requests: Table<()>
    var orders: Table<OrderBody>
    var fills: Table<FillBody>
    const book: PositionBook

    ghost function Contents(): Db
      reads this, book
    {
      Db(next, raw, signals, strategies, risks, requests, orders, fills, book.rows)
    }

    constructor ()
      ensures Contents() == EMPTY && fresh(book)
    {
      next := 0;
      raw, signals, strategies, risks, requests, orders, fills := [], [], [], [], [], [], [];
      book := new PositionBook();
    }

    method InsertRawEvent(d: Delivery) returns (event: nat)
      requires ValidDb(Contents()) && d.decision.Some?
      modifies this
      ensures Contents() == Commit(old(Contents()), d, 1) && ValidDb(Contents())
      ensures Find(raw, d.hash) == Some(event)
    {
      CommitKeeps(Contents(), d, 1);
      var duplicate;
      raw, next, event, duplicate := InsertOnce(raw, d.hash, next, ());
    }

    method InsertSignal(d: Delivery, event: nat) returns (signal: nat)
      requires ValidDb(Contents()) && d.decision.Some? && Find(raw, d.hash) == Some(event)
      modifies this
      ensures Contents() == Commit(old(Contents()), d, 2) && ValidDb(Contents())
      ensures Find(raw, d.hash) == Some(event) && Find(signals, event) == Some(signal)
    {
      CommitKeeps(Contents(), d, 2);
      var duplicate;
      signals, next, signal, duplicate := InsertOnce(signals, event, next, ());
    }

    method InsertStrategyDecision(d: Delivery, event: nat, signal: nat) returns (strategy: nat)
      requires ValidDb(Contents()) && d.decision.Some?
      requires Find(raw, d.hash) == Some(event) && Find(signals, event) == Some(signal)
      modifies this
      ensures Contents() == Commit(old(Contents()), d, 3) && ValidDb(Contents())
      ensures Find(raw, d.hash) == Some(event) && Find(signals, event) == Some(signal)
      ensures Find(strategies, signal) == Some(strategy)
    {
      CommitKeeps(Contents(), d, 3);
      var duplicate;
      strategies, next, strategy, duplicate := InsertOnce(strategies, signal, next, ());
    }

    method InsertRiskEvent(d: Delivery, event: nat, signal: nat, strategy: nat) returns (risk: nat)
      requires ValidDb(Contents()) && d.decision.Some?
      requires Find(raw, d.hash) == Some(event) && Find(signals, event) == Some(signal)
      requires Find(strategies, signal) == Some(strategy)
      modifies this
      ensures Contents() == Commit(old(Contents()), d, 4) && ValidDb(Contents())
      ensures Find(raw, d.hash) == Some(event) && Find(signals, event) == Some(signal)
      ensures Find(strategies, signal) == Some(strategy) && Find(risks, strategy) == Some(risk)
    {
      CommitKeeps(Contents(), d, 4);
      var duplicate;
      risks, next, risk, duplicate := InsertOnce(risks, strategy, next, ());
    }

    method InsertExecutionRequest(d: Delivery, event: nat, signal: nat, strategy: nat, risk: nat) returns (request: nat)
      requires ValidDb(Contents()) && d.decision.Some?
      requires Find(raw, d.hash) == Some(event) && Find(signals, event) == Some(signal)
      requires Find(strategies, signal) == Some(strategy) && Find(risks, strategy) == Some(risk)
      modifies this
      ensures Contents() == Commit(old(Contents()), d, 5) && ValidDb(Contents())
      ensures Find(raw, d.hash) == Some(event) && RequestOf(Contents(), Some(event)) == Some(request)
    {
      CommitKeeps(Contents(), d, 5);
      var duplicate;
      requests, next, request, duplicate := InsertOnce(requests, signal, next, ());
    }

    method InsertBrokerOrder(d: Delivery, event: nat, request: nat) returns (order: nat)
      requires ValidDb(Contents()) && d.decision.Some?
      requires Find(raw, d.hash) == Some(event) && RequestOf(Contents(), Some(event)) == Some(request)
      modifies this
      ensures Contents() == Commit(old(Contents()), d, 6) && ValidDb(Contents())
      ensures Find(raw, d.hash) == Some(event) && OrderOf(Contents(), Some(event)) == Some(order)
    {
      CommitKeeps(Contents(), d, 6);
      var actionable := d.decision.value.actionable && d.decision.value.quantity.Some?
                        && d.decision.value.quantity.value > 0.0;
      var body := OrderBody(event, if actionable then OrderFilled else OrderRejected, d.decision.value.quantity);
      var duplicate;
      orders, next, order, duplicate := InsertOnce(orders, request, next, body);
    }

    /** The fill step: a duplicate fill leaves the positions alone. */
    method UpsertPaperFillAndPosition(d: Delivery, event: nat, order: nat)
      requires ValidDb(Contents()) && Actionable(d)
      requires Find(raw, d.hash) == Some(event) && OrderOf(Contents(), Some(event)) == Some(order)
      modifies this, book
      ensures
        var filled := Commit(old(Contents()), d, 7);
        Contents() == if d.commits < 8 then filled else Settle(old(Contents()), filled)
    {
      var trade := TradeOf(d, order, next);
      var fillId, duplicate;
      fills, next, fillId, duplicate := InsertOnce(fills, order, next, FillBody(event, trade));
      if !duplicate && d.commits >= 8 {
        var receipt := book.ApplyFillToPositions(trade);
      }
    }

    /** One webhook delivery, stopping after `d.commits` commits. */
    method ProcessWebhook(d: Delivery)
      requires ValidDb(Contents())
      modifies this, book
      ensures Contents() == Deliver(old(Contents()), d)
      ensures ValidDb(Contents())
    {
      ghost var db := Contents();
      DeliverKeeps(db, d);
      if d.decision.None? {
        if d.commits >= 1 {
          var event, duplicate;
          raw, next, event, duplicate := InsertOnce(raw, d.hash, next, ());
        }
        return;
      }
      assert Contents() == Chain(db, d, 0);
      if d.commits == 0 { return; }
      var event := InsertRawEvent(d);
      assert Contents() == Chain(db, d, 1);
      if d.commits == 1 { return; }
      var signal := InsertSignal(d, event);
      assert Contents() == Chain(db, d, 2);
      if d.commits == 2 { return; }
      var strategy := InsertStrategyDecision(d, event, signal);
      assert Contents() == Chain(db, d, 3);
      if d.commits == 3 { return; }
      var risk := InsertRiskEvent(d, event, signal, strategy);
      assert Contents() == Chain(db, d, 4);
      if d.commits == 4 { return; }
      var request := InsertExecutionRequest(d, event, signal, strategy, risk);
      assert Contents() == Chain(db, d, 5);
      if d.commits == 5 { return; }
      var order := InsertBrokerOrder(d, event, request);
      assert Contents() == Chain(db, d, 6);
      if d.commits == 6 { return; }
      ExecuteFill(d, db, event, order);
    }

    /** The paper execution fills only an actionable decision. */
    method ExecuteFill(d: Delivery, ghost db: Db, event: nat, order: nat)
      requires ValidDb(db) && d.decision.Some? && d.commits >= 7 && Contents() == Chain(db, d, 6)
      requires ValidDb(Contents())
      requires Find(raw, d.hash) == Some(event) && OrderOf(Contents(), Some(event)) == Some(order)
      modifies this, book
      ensures Contents() == Deliver(db, d)
    {
      ChainKeeps(db, d, 6);
      assert Chain(db, d, 7) == Commit(Contents(), d, 7);
      var c := d.decision.value;
      if c.actionable && c.quantity.Some? && c.quantity.value > 0.0 {
        UpsertPaperFillAndPosition(d, event, order);
      }
    }
  }
}
