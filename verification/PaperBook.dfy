/** From the alerts to the book: which deliveries the fills and the positions come from, told from the
    deliveries alone. */
module PaperBook {
  import opened Common
  import opened PositionLedger
  import opened PaperPipeline

  // ------------------------------------------------------------------
  // Which delivery fills a payload
  // ------------------------------------------------------------------

  /** The delivery is actionable, has a positive quantity and gets to the commit of the fill. */
  predicate ReachesFill(d: Delivery) {
    && d.decision.Some? && d.decision.value.actionable && d.commits >= 7
    && d.decision.value.quantity.Some? && d.decision.value.quantity.value > 0.0
  }

  ghost predicate FilledBy(ds: seq<Delivery>, hash: nat) {
    exists n :: 0 <= n < |ds| && ds[n].hash == hash && ReachesFill(ds[n])
  }

  /** The `n`-th delivery is the first of its payload to reach the fill. */
  ghost predicate FirstToFill(ds: seq<Delivery>, n: nat) {
    n < |ds| && ReachesFill(ds[n]) && !FilledBy(ds[..n], ds[n].hash)
  }

  /** The deliveries that are the first of their payload to reach the fill, in order. */
  ghost function Filling(ds: seq<Delivery>): seq<Delivery> {
    if ds == [] then [] else
    Filling(Front(ds)) + if FirstToFill(ds, |ds| - 1) then [Last(ds)] else []
  }

  /** Those that get to the position step as well. */
  ghost function Settling(ds: seq<Delivery>): seq<Delivery> {
    if ds == [] then [] else
    Settling(Front(ds)) + if FirstToFill(ds, |ds| - 1) && Last(ds).commits >= 8 then [Last(ds)] else []
  }

  lemma FilledByStep(ds: seq<Delivery>, hash: nat)
    requires ds != []
    ensures FilledBy(ds, hash) <==> FilledBy(Front(ds), hash) || (Last(ds).hash == hash && ReachesFill(Last(ds)))
  {
    if n :| 0 <= n < |Front(ds)| && Front(ds)[n].hash == hash && ReachesFill(Front(ds)[n]) {
      assert ds[n].hash == hash && ReachesFill(ds[n]);
    }
    if Last(ds).hash == hash && ReachesFill(Last(ds)) {
      assert ds[|ds| - 1].hash == hash;
    }
  }

  /** `Filling` holds exactly the first deliveries of their payload to reach the fill. */
  lemma {:induction false} FillingIsFirst(ds: seq<Delivery>, d: Delivery)
    ensures d in Filling(ds) <==> exists n: nat :: FirstToFill(ds, n) && ds[n] == d
  {
    if ds != [] {
      FillingIsFirst(Front(ds), d);
      forall n: nat | n < |ds| - 1 ensures FirstToFill(Front(ds), n) <==> FirstToFill(ds, n) {
        assert Front(ds)[..n] == ds[..n];
      }
      if n: nat :| FirstToFill(Front(ds), n) && Front(ds)[n] == d {
        assert FirstToFill(ds, n) && ds[n] == d;
      }
    }
  }

  // ------------------------------------------------------------------
  // The fills table holds exactly their trades
  // ------------------------------------------------------------------

  /** A payload is filled exactly when some row of the fills table comes from it. */
  ghost predicate HasFill(db: Db, hash: nat) {
    exists i :: 0 <= i < |db.fills| && PayloadOf(db, db.fills[i].body.eventId) == Some(hash)
  }

  lemma FilledIsRow(db: Db, hash: nat)
    requires ValidDb(db)
    ensures Filled(db, hash) <==> HasFill(db, hash)
  {
    var event := Find(db.raw, hash);
    if Filled(db, hash) {
      var i := FindIsRow(db.fills, OrderOf(db, event).value);
      assert GoodFill(db, db.fills[i]);
      SameOrderSameEvent(db, db.fills[i].body.eventId, event.value);
      EventHasKey(db, hash);
    }
    if i :| 0 <= i < |db.fills| && PayloadOf(db, db.fills[i].body.eventId) == Some(hash) {
      assert GoodFill(db, db.fills[i]);
      var r := KeyOfIsRow(db.raw, db.fills[i].body.eventId);
      RowIsFound(db.raw, db.next, r);
      RowIsFound(db.fills, db.next, i);
    }
  }

  /** The rows come from these deliveries, one each and in order, with the trade each decided on. */
  ghost predicate FillsFrom(db: Db, alerts: seq<Delivery>) {
    && |db.fills| == |alerts|
    && forall i :: 0 <= i < |alerts| ==>
         PayloadOf(db, db.fills[i].body.eventId) == Some(alerts[i].hash) && Carries(db.fills[i].body.trade, alerts[i])
  }

  lemma OldFillsStay(db: Db, d: Delivery, alerts: seq<Delivery>)
    requires ValidDb(db) && FillsFrom(db, alerts) && Deliver(db, d).fills == db.fills
    ensures FillsFrom(Deliver(db, d), alerts)
  {
    DeliverKeeps(db, d);
    forall i | 0 <= i < |alerts|
      ensures PayloadOf(Deliver(db, d), db.fills[i].body.eventId) == Some(alerts[i].hash)
    {
      assert PayloadOf(db, db.fills[i].body.eventId) == Some(alerts[i].hash);
    }
  }

  lemma NewFillJoins(db: Db, d: Delivery, alerts: seq<Delivery>)
    requires ValidDb(db) && FillsFrom(db, alerts) && ReachesFill(d) && !Filled(db, d.hash)
    ensures FillsFrom(Deliver(db, d), alerts + [d])
  {
    var row := NewFill(db, d);
    DeliverKeeps(db, d);
    forall i | 0 <= i < |alerts|
      ensures PayloadOf(Deliver(db, d), db.fills[i].body.eventId) == Some(alerts[i].hash)
    {
      assert PayloadOf(db, db.fills[i].body.eventId) == Some(alerts[i].hash);
    }
  }

  /** A delivery that does not reach the fill, or whose payload is filled already, leaves the fills alone. */
  lemma NoNewFill(db: Db, d: Delivery)
    requires ValidDb(db) && (!ReachesFill(d) || Filled(db, d.hash))
    ensures Deliver(db, d).fills == db.fills && Deliver(db, d).positions == db.positions
  {
    if d.decision.Some? {
      if Actionable(d) && !Filled(db, d.hash) {
        ChainFrame(db, d, d.commits);
      } else {
        QuietDelivery(db, d);
      }
    }
  }

  lemma {:induction false} FillsComeFromAlerts(ds: seq<Delivery>)
    ensures FillsFrom(Run(EMPTY, ds), Filling(ds))
    ensures forall hash :: Filled(Run(EMPTY, ds), hash) <==> FilledBy(ds, hash)
  {
    if ds == [] {
      forall hash ensures !Filled(EMPTY, hash) {}
    } else {
      var db, d := Run(EMPTY, Front(ds)), Last(ds);
      FillsComeFromAlerts(Front(ds));
      RunKeeps(EMPTY, Front(ds));
      DeliverKeeps(db, d);
      assert ds[..|ds| - 1] == Front(ds) && ds[|ds| - 1] == d;
      if FirstToFill(ds, |ds| - 1) {
        NewFillJoins(db, d, Filling(Front(ds)));
      } else {
        NoNewFill(db, d);
        OldFillsStay(db, d, Filling(Front(ds)));
      }
      forall hash ensures Filled(Run(EMPTY, ds), hash) <==> FilledBy(ds, hash) {
        FilledByStep(ds, hash);
        FilledIsStep(db, d, hash);
      }
    }
  }

  /** One delivery fills its own payload when it reaches the fill, and no other. */
  lemma FilledIsStep(db: Db, d: Delivery, hash: nat)
    requires ValidDb(db)
    ensures Filled(Deliver(db, d), hash) <==> Filled(db, hash) || (d.hash == hash && ReachesFill(d))
  {
    var db' := Deliver(db, d);
    DeliverKeeps(db, d);
    FilledIsRow(db, hash);
    FilledIsRow(db', hash);
    if ReachesFill(d) && !Filled(db, d.hash) {
      var row := NewFill(db, d);
      assert db'.fills[|db.fills|] == row;
    } else {
      NoNewFill(db, d);
    }
    SamePayloads(db, d, hash);
  }

  lemma SamePayloads(db: Db, d: Delivery, hash: nat)
    requires ValidDb(db)
    ensures forall i :: 0 <= i < |db.fills| ==>
      (PayloadOf(Deliver(db, d), db.fills[i].body.eventId) == Some(hash)
       <==> PayloadOf(db, db.fills[i].body.eventId) == Some(hash))
  {
    DeliverKeeps(db, d);
    forall i | 0 <= i < |db.fills|
      ensures PayloadOf(Deliver(db, d), db.fills[i].body.eventId) == PayloadOf(db, db.fills[i].body.eventId)
    {
      assert GoodFill(db, db.fills[i]);
    }
  }

  // ------------------------------------------------------------------
  // One delivery and the net quantity
  // ------------------------------------------------------------------

  /** A delivery that runs through and fills its payload moves the net quantity of its symbol by its own
      signed quantity, and of no other. */
  lemma DeliveryMovesNet(db: Db, d: Delivery, symbol: string)
    requires ValidDb(db) && ValidLedger(db.positions) && ReachesFill(d) && d.commits >= 8 && !Filled(db, d.hash)
    ensures
      var c := d.decision.value;
      Net(Deliver(db, d).positions, symbol)
        == Net(db.positions, symbol)
           + (if c.symbol != symbol then 0.0 else if c.side.Long? then c.quantity.value else -c.quantity.value)
  {
    var row := NewFill(db, d);
    ApplyNet(db.positions, row.body.trade, symbol);
  }

  // ------------------------------------------------------------------
  // The book of a run
  // ------------------------------------------------------------------

  /** Each trade is what the delivery in its place decided on. */
  ghost predicate TradesFrom(trades: seq<Fill>, alerts: seq<Delivery>) {
    |trades| == |alerts| && forall i :: 0 <= i < |alerts| ==> Carries(trades[i], alerts[i])
  }

  lemma AppliedStep(db: Db, d: Delivery, lost: set<nat>)
    requires ValidDb(db) && ReachesFill(d) && !Filled(db, d.hash) && lost <= IdsOf(db.fills)
    ensures Deliver(db, d).fills != []
    ensures
      var after := Deliver(db, d).fills;
      var before := AppliedTrades(db.fills, lost);
      if d.commits == 7 then AppliedTrades(after, lost + {Last(after).id}) == before
      else AppliedTrades(after, lost) == before + [Last(after).body.trade] && Carries(Last(after).body.trade, d)
  {
    var row := NewFill(db, d);
    assert Front(db.fills + [row]) == db.fills;
    AppliedAppend(db.fills, row, lost);
  }

  lemma {:induction false} AppliedAreSettling(ds: seq<Delivery>)
    ensures TradesFrom(AppliedTrades(Run(EMPTY, ds).fills, Lost(ds)), Settling(ds))
  {
    if ds != [] {
      var db, d := Run(EMPTY, Front(ds)), Last(ds);
      AppliedAreSettling(Front(ds));
      RunKeeps(EMPTY, Front(ds));
      PositionsAreAppliedFold(Front(ds));
      FillsComeFromAlerts(Front(ds));
      assert ds[..|ds| - 1] == Front(ds) && ds[|ds| - 1] == d;
      assert Lost(Front(ds)) + {} == Lost(Front(ds));
      if FirstToFill(ds, |ds| - 1) {
        AppliedStep(db, d, Lost(Front(ds)));
      } else {
        NoNewFill(db, d);
        assert Settling(Front(ds)) + [] == Settling(Front(ds));
      }
    }
  }

  /** The signed quantity a delivery asks for on this symbol. */
  function AskedNet(d: Delivery, symbol: string): real
    requires ReachesFill(d)
  {
    var c := d.decision.value;
    if c.symbol != symbol then 0.0 else if c.side.Long? then c.quantity.value else -c.quantity.value
  }

  /** What the trade a delivery asks for is worth at a mark price. */
  function AskedEquity(d: Delivery, symbol: string, mark: real): real
    requires ReachesFill(d)
  {
    var c := d.decision.value;
    if c.symbol != symbol || c.price.None? then 0.0
    else AskedNet(d, symbol) * (mark - c.price.value)
  }

  function AlertNet(alerts: seq<Delivery>, symbol: string): real
    requires forall i :: 0 <= i < |alerts| ==> ReachesFill(alerts[i])
  {
    if alerts == [] then 0.0 else AlertNet(Front(alerts), symbol) + AskedNet(Last(alerts), symbol)
  }

  function AlertEquity(alerts: seq<Delivery>, symbol: string, mark: real): real
    requires forall i :: 0 <= i < |alerts| ==> ReachesFill(alerts[i])
  {
    if alerts == [] then 0.0 else AlertEquity(Front(alerts), symbol, mark) + AskedEquity(Last(alerts), symbol, mark)
  }

  ghost predicate PricedAlerts(alerts: seq<Delivery>, symbol: string) {
    forall i :: 0 <= i < |alerts| && alerts[i].decision.Some? && alerts[i].decision.value.symbol == symbol ==>
      alerts[i].decision.value.price.Some?
  }

  lemma {:induction false} SettlingReaches(ds: seq<Delivery>)
    ensures forall i :: 0 <= i < |Settling(ds)| ==> ReachesFill(Settling(ds)[i]) && Settling(ds)[i].commits >= 8
  {
    if ds != [] {
      SettlingReaches(Front(ds));
    }
  }

  lemma NegatedProduct(x: real, y: real)
    ensures (-x) * y == -(x * y)
  {
  }

  lemma OneAlert(f: Fill, d: Delivery, symbol: string, mark: real)
    requires Carries(f, d) && ReachesFill(d)
    ensures FillNet(f, symbol) == AskedNet(d, symbol)
    ensures FillEquity(f, symbol, mark) == AskedEquity(d, symbol, mark)
    ensures Moves(f, symbol) <==> d.decision.value.symbol == symbol
  {
    var c := d.decision.value;
    if c.price.Some? {
      NegatedProduct(c.quantity.value, mark - c.price.value);
    }
  }

  lemma {:induction false} AlertsAreFlow(trades: seq<Fill>, alerts: seq<Delivery>, symbol: string, mark: real)
    requires TradesFrom(trades, alerts) && forall i :: 0 <= i < |alerts| ==> ReachesFill(alerts[i])
    ensures FlowNet(trades, symbol) == AlertNet(alerts, symbol)
    ensures FlowEquity(trades, symbol, mark) == AlertEquity(alerts, symbol, mark)
    ensures PricedAlerts(alerts, symbol) ==> PricedFills(trades, symbol)
  {
    if alerts != [] {
      AlertsAreFlow(Front(trades), Front(alerts), symbol, mark);
      OneAlert(Last(trades), Last(alerts), symbol, mark);
    }
    forall i | 0 <= i < |trades| && Moves(trades[i], symbol) && PricedAlerts(alerts, symbol)
      ensures trades[i].price.Some?
    {
      OneAlert(trades[i], alerts[i], symbol, mark);
    }
  }

  lemma PositionsFollowAlerts(ds: seq<Delivery>, symbol: string, mark: real)
    requires forall i :: 0 <= i < |Settling(ds)| ==> ReachesFill(Settling(ds)[i])
    ensures Net(Run(EMPTY, ds).positions, symbol) == AlertNet(Settling(ds), symbol)
    ensures PricedAlerts(Settling(ds), symbol) ==>
      Equity(Run(EMPTY, ds).positions, symbol, mark) == AlertEquity(Settling(ds), symbol, mark)
  {
    var applied := AppliedTrades(Run(EMPTY, ds).fills, Lost(ds));
    AppliedAreSettling(ds);
    AlertsAreFlow(applied, Settling(ds), symbol, mark);
    PositionsAreAppliedFold(ds);
    NetConservation([], applied, symbol);
    if PricedAlerts(Settling(ds), symbol) {
      PnlConservation([], applied, symbol, mark);
    }
  }

  lemma CleanFillsSettle(ds: seq<Delivery>)
    requires CleanRun(EMPTY, ds)
    ensures TradesFrom(Trades(Run(EMPTY, ds).fills), Settling(ds))
  {
    AppliedAreSettling(ds);
    CleanLosesNothing(ds);
    AppliedIsAll(Run(EMPTY, ds).fills);
  }

  /** End to end: in every run, crashes anywhere, each payload has at most one order and one fill, the
      fills are the trades of the first deliveries of their payload to reach the fill, and the table's net
      quantity and, when the symbol's prices are known, its marked profit are those of the ones that got to
      the position step, which in a clean run is all of them. */
  lemma PaperBookConservation(ds: seq<Delivery>, symbol: string, mark: real)
    ensures OncePerPayload(Run(EMPTY, ds)) && FillsFrom(Run(EMPTY, ds), Filling(ds))
    ensures forall i :: 0 <= i < |Settling(ds)| ==> ReachesFill(Settling(ds)[i])
    ensures Net(Run(EMPTY, ds).positions, symbol) == AlertNet(Settling(ds), symbol)
    ensures PricedAlerts(Settling(ds), symbol) ==>
      Equity(Run(EMPTY, ds).positions, symbol, mark) == AlertEquity(Settling(ds), symbol, mark)
    ensures CleanRun(EMPTY, ds) ==> TradesFrom(Trades(Run(EMPTY, ds).fills), Settling(ds))
  {
    AtMostOncePerPayload(ds);
    FillsComeFromAlerts(ds);
    SettlingReaches(ds);
    PositionsFollowAlerts(ds, symbol, mark);
    if CleanRun(EMPTY, ds) {
      CleanFillsSettle(ds);
    }
  }
}
