/** The paper position table and the average-cost accounting of `apply_fill_to_positions`. */
module PositionLedger {
  import opened Common

  datatype PositionStatus = Open | Closed

  /** One row of the positions table. The row id is its place in the table. */
  datatype Position = Position(
    symbol: string, side: Side, qty: real, avgEntry: Option<real>, realized: real,
    status: PositionStatus, openedAt: int, updatedAt: int, closedAt: Option<int>,
    lastOrder: nat, lastFill: nat)

  /** Arguments of one fill. `side` is None when the text is neither long nor short. */
  datatype Fill = Fill(
    symbol: string, side: Option<Side>, qty: Option<real>, price: Option<real>,
    orderId: nat, fillId: nat, time: int)

  datatype FillStatus = NoPositionChange | Opened | Scaled | Reduced | ClosedOut | Flipped

  datatype Receipt = Receipt(status: FillStatus, position: Option<Position>)

  datatype LedgerError = FillSideMustBeLongOrShort

  function QtyOf(f: Fill): real {
    if f.qty.Some? then f.qty.value else 0.0
  }

  predicate Effective(f: Fill) {
    QtyOf(f) > 0.0 && f.side.Some?
  }

  predicate IsOpen(row: Position, symbol: string) {
    row.symbol == symbol && row.status.Open?
  }

  /** Place of the newest open row of `symbol`, or -1. */
  function OpenIndex(rows: seq<Position>, symbol: string): (i: int)
    ensures -1 <= i < |rows|
    ensures i >= 0 ==> IsOpen(rows[i], symbol)
    ensures forall k :: i < k < |rows| ==> !IsOpen(rows[k], symbol)
  {
    if rows == [] then -1
    else if IsOpen(Last(rows), symbol) then |rows| - 1
    else OpenIndex(Front(rows), symbol)
  }

  function OpenRow(rows: seq<Position>, symbol: string): Option<Position> {
    var i := OpenIndex(rows, symbol);
    if i < 0 then None else Some(rows[i])
  }

  // ------------------------------------------------------------------
  // Specification of one fill
  // ------------------------------------------------------------------

  function NewRow(f: Fill, side: Side, qty: real): Position {
    Position(f.symbol, side, qty, f.price, 0.0, Open, f.time, f.time, None, f.orderId, f.fillId)
  }

  function WeightedEntry(avg: real, qty: real, price: real, more: real): real
    requires qty + more > 0.0
  {
    (avg * qty + price * more) / (qty + more)
  }

  function BlendedEntry(row: Position, qty: real, price: Option<real>): Option<real>
    requires qty > 0.0
  {
    if row.avgEntry.None? || price.None? || row.qty <= 0.0 then price
    else Some(WeightedEntry(row.avgEntry.value, row.qty, price.value, qty))
  }

  function ScaledRow(row: Position, f: Fill): Position
    requires QtyOf(f) > 0.0
  {
    row.(qty := row.qty + QtyOf(f), avgEntry := BlendedEntry(row, QtyOf(f), f.price),
         updatedAt := f.time, lastOrder := f.orderId, lastFill := f.fillId)
  }

  /** What `qty` bought at `from` is worth more at `to`. */
  function Gain(qty: real, from: real, to: real): real {
    qty * (to - from)
  }

  /** Profit booked when `qty` of `row` is closed at `price`; an unknown price books nothing. */
  function RealizedDelta(row: Position, price: Option<real>, qty: real): real {
    if row.avgEntry.None? || price.None? then 0.0
    else Signed(row.side, Gain(qty, row.avgEntry.value, price.value))
  }

  function ReducedRow(row: Position, f: Fill): Position {
    if QtyOf(f) < row.qty then
      row.(qty := row.qty - QtyOf(f), realized := row.realized + RealizedDelta(row, f.price, QtyOf(f)),
           updatedAt := f.time, lastOrder := f.orderId, lastFill := f.fillId)
    else
      row.(qty := 0.0, realized := row.realized + RealizedDelta(row, f.price, row.qty),
           status := Closed, updatedAt := f.time, closedAt := Some(f.time),
           lastOrder := f.orderId, lastFill := f.fillId)
  }

  /** The position table after one fill. */
  function Apply(rows: seq<Position>, f: Fill): seq<Position> {
    if !Effective(f) then rows else
    var i := OpenIndex(rows, f.symbol);
    if i < 0 then rows + [NewRow(f, f.side.value, QtyOf(f))]
    else if rows[i].side == f.side.value then rows[i := ScaledRow(rows[i], f)]
    else if QtyOf(f) <= rows[i].qty then rows[i := ReducedRow(rows[i], f)]
    else rows[i := ReducedRow(rows[i], f)] + [NewRow(f, f.side.value, QtyOf(f) - rows[i].qty)]
  }

  /** The position table after a run of fills. */
  function Replay(rows: seq<Position>, fills: seq<Fill>): seq<Position> {
    if fills == [] then rows else Apply(Replay(rows, Front(fills)), Last(fills))
  }

  // ------------------------------------------------------------------
  // The invariant of the table
  // ------------------------------------------------------------------

  predicate ValidRow(row: Position) {
    match row.status
    case Open => row.qty > 0.0 && row.closedAt.None?
    case Closed => row.qty == 0.0 && row.closedAt.Some?
  }

  ghost predicate OneOpenPerSymbol(rows: seq<Position>) {
    forall i, j :: 0 <= i < j < |rows| && rows[i].status.Open? && rows[j].status.Open?
      ==> rows[i].symbol != rows[j].symbol
  }

  ghost predicate ValidLedger(rows: seq<Position>) {
    (forall i :: 0 <= i < |rows| ==> ValidRow(rows[i])) && OneOpenPerSymbol(rows)
  }

  /** The open row of the symbol knows its average entry. */
  ghost predicate PricedLedger(rows: seq<Position>, symbol: string) {
    forall i :: 0 <= i < |rows| && IsOpen(rows[i], symbol) ==> rows[i].avgEntry.Some?
  }

  predicate Moves(f: Fill, symbol: string) {
    Effective(f) && f.symbol == symbol
  }

  /** Every fill that moves the symbol has a price. */
  ghost predicate PricedFills(fills: seq<Fill>, symbol: string) {
    forall i :: 0 <= i < |fills| && Moves(fills[i], symbol) ==> fills[i].price.Some?
  }

  lemma ApplyKeepsLedger(rows: seq<Position>, f: Fill)
    requires ValidLedger(rows)
    ensures ValidLedger(Apply(rows, f))
    ensures |rows| <= |Apply(rows, f)| <= |rows| + 1
    ensures forall k :: 0 <= k < |rows| && k != OpenIndex(rows, f.symbol) ==> Apply(rows, f)[k] == rows[k]
    ensures forall k :: |rows| <= k < |Apply(rows, f)| ==> Apply(rows, f)[k].symbol == f.symbol
  {
    var i := OpenIndex(rows, f.symbol);
    if i >= 0 {
      assert forall k :: 0 <= k < |rows| && k != i ==> !IsOpen(rows[k], f.symbol);
    }
  }

  /** A row that a fill opens or changes carries the fill's ids and time; a changed row keeps its symbol, side
      and opening time, a closed one is stamped with the closing time, and a new one opens at the fill. */
  lemma FillStampsRows(rows: seq<Position>, f: Fill, k: nat)
    requires ValidLedger(rows) && Effective(f) && k < |Apply(rows, f)|
    ensures
      var row := Apply(rows, f)[k];
      if k < |rows| && k != OpenIndex(rows, f.symbol) then row == rows[k]
      else
        && row.lastOrder == f.orderId && row.lastFill == f.fillId && row.updatedAt == f.time
        && row.symbol == f.symbol
        && (row.status.Closed? ==> row.closedAt == Some(f.time))
        && (if k < |rows| then row.openedAt == rows[k].openedAt && row.side == rows[k].side
            else row.openedAt == f.time && row.side == f.side.value && row.avgEntry == f.price && row.realized == 0.0)
  {
    var i := OpenIndex(rows, f.symbol);
    assert i >= 0 ==> IsOpen(rows[i], f.symbol);
  }

  lemma {:induction false} ReplayKeepsLedger(rows: seq<Position>, fills: seq<Fill>)
    requires ValidLedger(rows)
    ensures ValidLedger(Replay(rows, fills))
  {
    if fills != [] {
      ReplayKeepsLedger(rows, Front(fills));
      ApplyKeepsLedger(Replay(rows, Front(fills)), Last(fills));
    }
  }

  lemma ApplyKeepsPriced(rows: seq<Position>, f: Fill, symbol: string)
    requires ValidLedger(rows) && PricedLedger(rows, symbol) && (Moves(f, symbol) ==> f.price.Some?)
    ensures PricedLedger(Apply(rows, f), symbol)
  {
    ApplyKeepsLedger(rows, f);
    var rows' := Apply(rows, f);
    var i := OpenIndex(rows, f.symbol);
    forall k | 0 <= k < |rows'| && IsOpen(rows'[k], symbol) ensures rows'[k].avgEntry.Some? {
      if k < |rows| && k != i {
        assert rows'[k] == rows[k];
      }
    }
  }

  lemma {:induction false} ReplayKeepsPriced(rows: seq<Position>, fills: seq<Fill>, symbol: string)
    requires ValidLedger(rows) && PricedLedger(rows, symbol) && PricedFills(fills, symbol)
    ensures PricedLedger(Replay(rows, fills), symbol)
  {
    if fills != [] {
      ReplayKeepsPriced(rows, Front(fills), symbol);
      ReplayKeepsLedger(rows, Front(fills));
      ApplyKeepsPriced(Replay(rows, Front(fills)), Last(fills), symbol);
    }
  }

  // ------------------------------------------------------------------
  // Net quantity
  // ------------------------------------------------------------------

  function RowNet(row: Position, symbol: string): real {
    if IsOpen(row, symbol) then Signed(row.side, row.qty) else 0.0
  }

  function FillNet(f: Fill, symbol: string): real {
    if Effective(f) && f.symbol == symbol then Signed(f.side.value, QtyOf(f)) else 0.0
  }

  ghost function Net(rows: seq<Position>, symbol: string): real {
    SumOf(rows, (row: Position) => RowNet(row, symbol))
  }

  ghost function FlowNet(fills: seq<Fill>, symbol: string): real {
    SumOf(fills, (f: Fill) => FillNet(f, symbol))
  }

  /** What one fill adds to the sum of `g` over the rows. */
  ghost function ApplyDelta(rows: seq<Position>, f: Fill, g: Position -> real): real
    requires Effective(f)
  {
    var i := OpenIndex(rows, f.symbol);
    if i < 0 then g(NewRow(f, f.side.value, QtyOf(f)))
    else if rows[i].side == f.side.value then g(ScaledRow(rows[i], f)) - g(rows[i])
    else if QtyOf(f) <= rows[i].qty then g(ReducedRow(rows[i], f)) - g(rows[i])
    else g(ReducedRow(rows[i], f)) + g(NewRow(f, f.side.value, QtyOf(f) - rows[i].qty)) - g(rows[i])
  }

  lemma ApplySum(rows: seq<Position>, f: Fill, g: Position -> real)
    requires Effective(f)
    ensures SumOf(Apply(rows, f), g) == SumOf(rows, g) + ApplyDelta(rows, f, g)
  {
    var i := OpenIndex(rows, f.symbol);
    if i < 0 {
      SumOfAppend(rows, NewRow(f, f.side.value, QtyOf(f)), g);
    } else if rows[i].side == f.side.value {
      SumOfUpdate(rows, i, ScaledRow(rows[i], f), g);
    } else {
      SumOfUpdate(rows, i, ReducedRow(rows[i], f), g);
      if QtyOf(f) > rows[i].qty {
        SumOfAppend(rows[i := ReducedRow(rows[i], f)], NewRow(f, f.side.value, QtyOf(f) - rows[i].qty), g);
      }
    }
  }

  lemma NetDelta(rows: seq<Position>, f: Fill, symbol: string)
    requires ValidLedger(rows) && Effective(f)
    ensures ApplyDelta(rows, f, row => RowNet(row, symbol)) == FillNet(f, symbol)
  {
    var i := OpenIndex(rows, f.symbol);
    if i >= 0 && rows[i].side != f.side.value {
    }
  }

  lemma ApplyNet(rows: seq<Position>, f: Fill, symbol: string)
    requires ValidLedger(rows)
    ensures Net(Apply(rows, f), symbol) == Net(rows, symbol) + FillNet(f, symbol)
  {
    if Effective(f) {
      NetDelta(rows, f, symbol);
      ApplySum(rows, f, row => RowNet(row, symbol));
    }
  }

  /** The table's net quantity is the sum of the signed fills, priced or not. */
  lemma {:induction false} NetConservation(rows: seq<Position>, fills: seq<Fill>, symbol: string)
    requires ValidLedger(rows)
    ensures Net(Replay(rows, fills), symbol) == Net(rows, symbol) + FlowNet(fills, symbol)
  {
    if fills != [] {
      NetConservation(rows, Front(fills), symbol);
      ReplayKeepsLedger(rows, Front(fills));
      ApplyNet(Replay(rows, Front(fills)), Last(fills), symbol);
    }
  }

  /** The net quantity sits in the one open row, and is zero exactly when there is none. */
  lemma {:induction false} NetIsOpenRow(rows: seq<Position>, symbol: string)
    requires ValidLedger(rows)
    ensures
      var i := OpenIndex(rows, symbol);
      Net(rows, symbol) == if i < 0 then 0.0 else Signed(rows[i].side, rows[i].qty)
  {
    var g := (row: Position) => RowNet(row, symbol);
    if rows != [] {
      var front := Front(rows);
      assert forall k :: 0 <= k < |front| ==> front[k] == rows[k];
      if IsOpen(Last(rows), symbol) {
        assert forall k :: 0 <= k < |front| ==> g(front[k]) == 0.0;
        SumOfZero(front, g);
      } else {
        NetIsOpenRow(front, symbol);
      }
    }
  }

  // ------------------------------------------------------------------
  // Profit and loss
  // ------------------------------------------------------------------

  /** Realized plus marked-to-market profit of one row at price `mark`. */
  function RowEquity(row: Position, symbol: string, mark: real): real {
    if row.symbol != symbol then 0.0
    else row.realized +
         (if row.status.Open? && row.avgEntry.Some? then Signed(row.side, Gain(row.qty, row.avgEntry.value, mark))
          else 0.0)
  }

  function RealizedOn(row: Position, symbol: string): real {
    if row.symbol == symbol then row.realized else 0.0
  }

  function FillEquity(f: Fill, symbol: string, mark: real): real {
    if Effective(f) && f.symbol == symbol && f.price.Some?
    then Signed(f.side.value, Gain(QtyOf(f), f.price.value, mark))
    else 0.0
  }

  ghost function Equity(rows: seq<Position>, symbol: string, mark: real): real {
    SumOf(rows, (row: Position) => RowEquity(row, symbol, mark))
  }

  ghost function FlowEquity(fills: seq<Fill>, symbol: string, mark: real): real {
    SumOf(fills, (f: Fill) => FillEquity(f, symbol, mark))
  }

  lemma BlendKeepsCost(avg: real, qty: real, price: real, more: real, mark: real)
    requires qty > 0.0 && more > 0.0
    ensures (qty + more) * (mark - WeightedEntry(avg, qty, price, more)) == qty * (mark - avg) + more * (mark - price)
  {
    assert WeightedEntry(avg, qty, price, more) * (qty + more) == avg * qty + price * more;
  }

  lemma ScaleEquity(row: Position, f: Fill, mark: real)
    requires ValidRow(row) && IsOpen(row, f.symbol) && row.avgEntry.Some?
    requires Effective(f) && f.price.Some? && f.side.value == row.side
    ensures RowEquity(ScaledRow(row, f), f.symbol, mark)
         == RowEquity(row, f.symbol, mark) + FillEquity(f, f.symbol, mark)
  {
    BlendKeepsCost(row.avgEntry.value, row.qty, f.price.value, QtyOf(f), mark);
  }

  lemma ReduceEquity(row: Position, f: Fill, mark: real)
    requires ValidRow(row) && IsOpen(row, f.symbol) && row.avgEntry.Some?
    requires Effective(f) && f.price.Some? && f.side.value != row.side
    ensures
      var closing := MinReal(row.qty, QtyOf(f));
      RowEquity(ReducedRow(row, f), f.symbol, mark)
        == RowEquity(row, f.symbol, mark) + Signed(f.side.value, Gain(closing, f.price.value, mark))
  {
  }

  /** What a flip leaves: the old row closed plus a new row opened at the fill price. */
  lemma {:induction false} FlipEquity(row: Position, f: Fill, mark: real)
    requires ValidRow(row) && IsOpen(row, f.symbol) && row.avgEntry.Some?
    requires Effective(f) && f.price.Some? && f.side.value != row.side && QtyOf(f) > row.qty
    ensures RowEquity(ReducedRow(row, f), f.symbol, mark)
          + RowEquity(NewRow(f, f.side.value, QtyOf(f) - row.qty), f.symbol, mark)
         == RowEquity(row, f.symbol, mark) + FillEquity(f, f.symbol, mark)
  {
    ReduceEquity(row, f, mark);
    var q, d := QtyOf(f), mark - f.price.value;
    assert row.qty * d + (q - row.qty) * d == q * d;
  }

  /** Closing without a price books nothing: the marked profit of the closed part disappears. */
  lemma UnpricedCloseForgoesProfit(row: Position, f: Fill, mark: real)
    requires ValidRow(row) && IsOpen(row, f.symbol) && row.avgEntry.Some?
    requires Effective(f) && f.price.None? && f.side.value != row.side
    ensures RowEquity(ReducedRow(row, f), f.symbol, mark)
         == RowEquity(row, f.symbol, mark)
            - Signed(row.side, Gain(MinReal(row.qty, QtyOf(f)), row.avgEntry.value, mark))
  {
  }

  /** Scaling without a price forgets the entry: the marked profit of the whole row disappears. */
  lemma UnpricedScaleForgoesProfit(row: Position, f: Fill, mark: real)
    requires ValidRow(row) && IsOpen(row, f.symbol) && row.avgEntry.Some?
    requires Effective(f) && f.price.None? && f.side.value == row.side
    ensures RowEquity(ScaledRow(row, f), f.symbol, mark)
         == RowEquity(row, f.symbol, mark) - Signed(row.side, Gain(row.qty, row.avgEntry.value, mark))
  {
  }

  lemma EquityDelta(rows: seq<Position>, f: Fill, symbol: string, mark: real)
    requires ValidLedger(rows) && Effective(f) && (f.symbol == symbol ==> PricedAlike(rows, f))
    ensures ApplyDelta(rows, f, row => RowEquity(row, symbol, mark)) == FillEquity(f, symbol, mark)
  {
    var i := OpenIndex(rows, f.symbol);
    if f.symbol != symbol || i < 0 || f.price.None? {
    } else if rows[i].side == f.side.value {
      ScaleEquity(rows[i], f, mark);
    } else if QtyOf(f) <= rows[i].qty {
      ReduceEquity(rows[i], f, mark);
    } else {
      FlipEquity(rows[i], f, mark);
    }
  }

  lemma ApplyEquity(rows: seq<Position>, f: Fill, symbol: string, mark: real)
    requires ValidLedger(rows) && (f.symbol == symbol ==> PricedAlike(rows, f))
    ensures Equity(Apply(rows, f), symbol, mark) == Equity(rows, symbol, mark) + FillEquity(f, symbol, mark)
  {
    if Effective(f) {
      EquityDelta(rows, f, symbol, mark);
      ApplySum(rows, f, row => RowEquity(row, symbol, mark));
    }
  }

  /** PnL conservation: over any run whose fills of the symbol are priced and at every mark price,
      realized plus open profit moves by exactly the marked value of the fills. */
  lemma {:induction false} PnlConservation(rows: seq<Position>, fills: seq<Fill>, symbol: string, mark: real)
    requires ValidLedger(rows) && PricedLedger(rows, symbol) && PricedFills(fills, symbol)
    ensures Equity(Replay(rows, fills), symbol, mark) == Equity(rows, symbol, mark) + FlowEquity(fills, symbol, mark)
  {
    if fills != [] {
      PnlConservation(rows, Front(fills), symbol, mark);
      ReplayKeepsLedger(rows, Front(fills));
      ReplayKeepsPriced(rows, Front(fills), symbol);
      ApplyEquity(Replay(rows, Front(fills)), Last(fills), symbol, mark);
    }
  }

  // ------------------------------------------------------------------
  // Exactly when profit is conserved
  // ------------------------------------------------------------------

  /** The fill meets no open row of its symbol, or one whose entry is known just when its price is. */
  predicate PricedAlike(rows: seq<Position>, f: Fill) {
    var i := OpenIndex(rows, f.symbol);
    !Effective(f) || i < 0 || rows[i].avgEntry.Some? == f.price.Some?
  }

  predicate Mixed(row: Position, f: Fill) {
    ValidRow(row) && IsOpen(row, f.symbol) && Effective(f) && row.avgEntry.Some? != f.price.Some?
  }

  /** The quantity whose profit a fill of the other kind gets wrong. */
  function MixedQty(row: Position, f: Fill): real
    requires Effective(f)
  {
    if row.side == f.side.value then row.qty else MinReal(row.qty, QtyOf(f))
  }

  /** What conservation is off by: profit forgone, or profit measured from the fill's price. */
  function Gap(row: Position, f: Fill, mark: real): real
    requires Mixed(row, f)
  {
    if f.price.Some? then Signed(row.side, Gain(MixedQty(row, f), f.price.value, mark))
    else -Signed(row.side, Gain(MixedQty(row, f), row.avgEntry.value, mark))
  }

  lemma MixedScale(row: Position, f: Fill, mark: real)
    requires Mixed(row, f) && row.side == f.side.value
    ensures RowEquity(ScaledRow(row, f), f.symbol, mark)
         == RowEquity(row, f.symbol, mark) + FillEquity(f, f.symbol, mark) + Gap(row, f, mark)
  {
    if f.price.Some? {
      GainAdds(row.qty, QtyOf(f), f.price.value, mark);
    }
  }

  lemma GainAdds(a: real, b: real, from: real, to: real)
    ensures Gain(a + b, from, to) == Gain(a, from, to) + Gain(b, from, to)
  {
  }

  lemma MixedReduce(row: Position, f: Fill, mark: real)
    requires Mixed(row, f) && row.side != f.side.value && QtyOf(f) <= row.qty
    ensures RowEquity(ReducedRow(row, f), f.symbol, mark)
         == RowEquity(row, f.symbol, mark) + FillEquity(f, f.symbol, mark) + Gap(row, f, mark)
  {
    if f.price.None? {
      UnpricedCloseForgoesProfit(row, f, mark);
    }
  }

  lemma MixedFlip(row: Position, f: Fill, mark: real)
    requires Mixed(row, f) && row.side != f.side.value && QtyOf(f) > row.qty
    ensures RowEquity(ReducedRow(row, f), f.symbol, mark)
          + RowEquity(NewRow(f, f.side.value, QtyOf(f) - row.qty), f.symbol, mark)
         == RowEquity(row, f.symbol, mark) + FillEquity(f, f.symbol, mark) + Gap(row, f, mark)
  {
    if f.price.None? {
      UnpricedCloseForgoesProfit(row, f, mark);
    } else {
      GainAdds(row.qty, QtyOf(f) - row.qty, f.price.value, mark);
    }
  }

  /** Whatever the mark, a fill that is not priced alike is off by the gap. */
  lemma MixedEquity(rows: seq<Position>, f: Fill, mark: real)
    requires ValidLedger(rows) && !PricedAlike(rows, f)
    ensures Equity(Apply(rows, f), f.symbol, mark)
         == Equity(rows, f.symbol, mark) + FillEquity(f, f.symbol, mark)
            + Gap(rows[OpenIndex(rows, f.symbol)], f, mark)
  {
    var row := rows[OpenIndex(rows, f.symbol)];
    if row.side == f.side.value {
      MixedScale(row, f, mark);
    } else if QtyOf(f) <= row.qty {
      MixedReduce(row, f, mark);
    } else {
      MixedFlip(row, f, mark);
    }
    ApplySum(rows, f, row => RowEquity(row, f.symbol, mark));
  }

  lemma GapShows(row: Position, f: Fill) returns (mark: real)
    requires Mixed(row, f)
    ensures Gap(row, f, mark) != 0.0
  {
    var known := if f.price.Some? then f.price.value else row.avgEntry.value;
    mark := known + 1.0;
    assert Gain(MixedQty(row, f), known, mark) == MixedQty(row, f) by { assert mark - known == 1.0; }
  }

  ghost predicate Conserves(rows: seq<Position>, f: Fill) {
    forall mark :: Equity(Apply(rows, f), f.symbol, mark)
                == Equity(rows, f.symbol, mark) + FillEquity(f, f.symbol, mark)
  }

  /** One fill conserves profit at every mark exactly when it is priced alike; the other fills are an
      unpriced one against a row with an entry, scaling or closing, and a priced one against a row
      without. */
  lemma ConservesExactly(rows: seq<Position>, f: Fill)
    requires ValidLedger(rows)
    ensures Conserves(rows, f) <==> PricedAlike(rows, f)
  {
    if PricedAlike(rows, f) {
      forall mark ensures Equity(Apply(rows, f), f.symbol, mark)
                       == Equity(rows, f.symbol, mark) + FillEquity(f, f.symbol, mark) {
        ApplyEquity(rows, f, f.symbol, mark);
      }
    } else {
      var mark := GapShows(rows[OpenIndex(rows, f.symbol)], f);
      MixedEquity(rows, f, mark);
    }
  }

  /** On a table whose open rows have entries: exactly the unpriced fills against an open row break it. */
  lemma UnpricedBreaksConservation(rows: seq<Position>, f: Fill)
    requires ValidLedger(rows) && PricedLedger(rows, f.symbol)
    ensures Conserves(rows, f) <==> !Effective(f) || OpenIndex(rows, f.symbol) < 0 || f.price.Some?
  {
    ConservesExactly(rows, f);
  }

  /** After every fill of the run and at every mark, profit has moved by the value of the fills so far. */
  ghost predicate ConservedAlong(rows: seq<Position>, fills: seq<Fill>, symbol: string) {
    fills != [] ==>
      && ConservedAlong(rows, Front(fills), symbol)
      && forall mark :: Equity(Replay(rows, fills), symbol, mark)
                     == Equity(rows, symbol, mark) + FlowEquity(fills, symbol, mark)
  }

  ghost predicate PricedAlikeAlong(rows: seq<Position>, fills: seq<Fill>, symbol: string) {
    fills != [] ==>
      && PricedAlikeAlong(rows, Front(fills), symbol)
      && (Last(fills).symbol == symbol ==> PricedAlike(Replay(rows, Front(fills)), Last(fills)))
  }

  /** A run conserves the profit of a symbol all along exactly when each fill of the symbol is priced
      alike with the row it meets. */
  lemma {:induction false} RunConservesExactly(rows: seq<Position>, fills: seq<Fill>, symbol: string)
    requires ValidLedger(rows)
    ensures ConservedAlong(rows, fills, symbol) <==> PricedAlikeAlong(rows, fills, symbol)
  {
    if fills != [] {
      RunConservesExactly(rows, Front(fills), symbol);
      ReplayKeepsLedger(rows, Front(fills));
      if ConservedAlong(rows, Front(fills), symbol) {
        LastConserves(rows, fills, symbol);
      }
    }
  }

  /** Once conserved so far, the run stays conserved exactly when its last fill conserves. */
  lemma LastConserves(rows: seq<Position>, fills: seq<Fill>, symbol: string)
    requires fills != [] && ValidLedger(Replay(rows, Front(fills)))
    requires forall mark :: Equity(Replay(rows, Front(fills)), symbol, mark)
                         == Equity(rows, symbol, mark) + FlowEquity(Front(fills), symbol, mark)
    ensures (forall mark :: Equity(Replay(rows, fills), symbol, mark)
                         == Equity(rows, symbol, mark) + FlowEquity(fills, symbol, mark))
       <==> (Last(fills).symbol == symbol ==> PricedAlike(Replay(rows, Front(fills)), Last(fills)))
  {
    var before, f := Replay(rows, Front(fills)), Last(fills);
    if f.symbol == symbol ==> PricedAlike(before, f) {
      forall mark ensures Equity(Replay(rows, fills), symbol, mark)
                       == Equity(rows, symbol, mark) + FlowEquity(fills, symbol, mark) {
        ApplyEquity(before, f, symbol, mark);
      }
    } else {
      var mark := GapShows(before[OpenIndex(before, symbol)], f);
      MixedEquity(before, f, mark);
      assert FlowEquity(fills, symbol, mark) == FlowEquity(Front(fills), symbol, mark) + FillEquity(f, symbol, mark);
    }
  }

  /** A long of 1 at 10 loses its open profit of 5 to an unpriced scale, and to an unpriced close. */
  lemma UnpricedFillExample(scale: Fill, close: Fill)
    requires scale.symbol == close.symbol == "BTC" && scale.price.None? && close.price.None?
    requires scale.side == Some(Long) && close.side == Some(Short) && scale.qty == close.qty == Some(1.0)
    ensures
      var row := Position("BTC", Long, 1.0, Some(10.0), 0.0, Open, 0, 0, None, 0, 0);
      && RowEquity(row, "BTC", 15.0) == 5.0
      && RowEquity(ScaledRow(row, scale), "BTC", 15.0) == 0.0
      && RowEquity(ReducedRow(row, close), "BTC", 15.0) == 0.0
  {
  }

  /** Once a symbol is flat, its realized profit is the cash its fills paid in and out. */
  lemma {:induction false} FlatRealizedIsCashFlow(fills: seq<Fill>, symbol: string, mark: real)
    requires PricedFills(fills, symbol) && FlowNet(fills, symbol) == 0.0
    ensures OpenIndex(Replay([], fills), symbol) < 0
    ensures SumOf(Replay([], fills), (row: Position) => RealizedOn(row, symbol))
         == FlowEquity(fills, symbol, mark)
  {
    var rows := Replay([], fills);
    ReplayKeepsLedger([], fills);
    NetConservation([], fills, symbol);
    NetIsOpenRow(rows, symbol);
    PnlConservation([], fills, symbol, mark);
    SumOfSame(rows, (row: Position) => RealizedOn(row, symbol), row => RowEquity(row, symbol, mark));
  }

  lemma {:induction false} SumOfSame(rows: seq<Position>, f: Position -> real, g: Position -> real)
    requires forall k :: 0 <= k < |rows| ==> f(rows[k]) == g(rows[k])
    ensures SumOf(rows, f) == SumOf(rows, g)
  {
    if rows != [] {
      assert forall k :: 0 <= k < |Front(rows)| ==> Front(rows)[k] == rows[k];
      SumOfSame(Front(rows), f, g);
    }
  }

  // ------------------------------------------------------------------
  // Average entry: an account kept from the fills alone
  // ------------------------------------------------------------------

  /** Signed quantity and the entry prices of the side held, since that side was opened. */
  datatype Account = Account(net: real, entries: seq<real>)

  predicate SameWay(x: real, y: real) {
    (x >= 0.0 && y >= 0.0) || (x <= 0.0 && y <= 0.0)
  }

  /** A signed quantity `q` traded at `price`. */
  function Trade(a: Account, q: real, price: real): Account {
    if SameWay(a.net, q) then Account(a.net + q, a.entries + [price])
    else if a.net + q == 0.0 then Account(0.0, [])
    else if SameWay(a.net, a.net + q) then a.(net := a.net + q)
    else Account(a.net + q, [price])
  }

  function Track(fills: seq<Fill>, symbol: string): Account {
    if fills == [] then Account(0.0, []) else
    var before := Track(Front(fills), symbol);
    var f := Last(fills);
    if !Effective(f) || f.symbol != symbol || f.price.None? then before
    else Trade(before, FillNet(f, symbol), f.price.value)
  }

  ghost predicate Between(entries: seq<real>, x: real) {
    (exists i :: 0 <= i < |entries| && entries[i] <= x) &&
    (exists j :: 0 <= j < |entries| && x <= entries[j])
  }

  ghost predicate RowFits(row: Position, a: Account) {
    a.net == Signed(row.side, row.qty) && row.qty > 0.0
    && row.avgEntry.Some? && Between(a.entries, row.avgEntry.value)
  }

  /** The open row says what the account says, and its average lies among the entry prices. */
  ghost predicate RowAgrees(row: Option<Position>, a: Account) {
    if row.None? then a == Account(0.0, []) else RowFits(row.value, a)
  }

  lemma BetweenGrows(entries: seq<real>, x: real, price: real, y: real)
    requires Between(entries, x)
    requires x <= y <= price || price <= y <= x
    ensures Between(entries + [price], y)
  {
    var i :| 0 <= i < |entries| && entries[i] <= x;
    var j :| 0 <= j < |entries| && x <= entries[j];
    var all := entries + [price];
    assert all[|entries|] == price && all[i] == entries[i] && all[j] == entries[j];
  }

  lemma BlendBetween(avg: real, qty: real, price: real, more: real)
    requires qty > 0.0 && more > 0.0
    ensures
      var blended := WeightedEntry(avg, qty, price, more);
      avg <= blended <= price || price <= blended <= avg
  {
    var blended := WeightedEntry(avg, qty, price, more);
    BlendKeepsCost(avg, qty, price, more, avg);
    BlendKeepsCost(avg, qty, price, more, price);
    assert (qty + more) * (avg - blended) == more * (avg - price);
    assert (qty + more) * (price - blended) == qty * (price - avg);
    SignOfProduct(qty + more, avg - blended);
    SignOfProduct(qty + more, price - blended);
    SignOfProduct(qty, price - avg);
    SignOfProduct(more, avg - price);
  }

  lemma OpenIndexIs(rows: seq<Position>, symbol: string, j: int)
    requires -1 <= j < |rows| && (j >= 0 ==> IsOpen(rows[j], symbol))
    requires forall k :: j < k < |rows| ==> !IsOpen(rows[k], symbol)
    ensures OpenIndex(rows, symbol) == j
  {
  }

  /** A fill does not touch the other symbols. */
  lemma OpenIndexElsewhere(rows: seq<Position>, f: Fill, symbol: string)
    requires ValidLedger(rows) && (!Effective(f) || f.symbol != symbol)
    ensures OpenRow(Apply(rows, f), symbol) == OpenRow(rows, symbol)
  {
    ApplyKeepsLedger(rows, f);
    OpenIndexIs(Apply(rows, f), symbol, OpenIndex(rows, symbol));
  }

  /** The open row a fill leaves, from the open row it found. */
  function NextOpen(row: Option<Position>, f: Fill): Option<Position>
    requires Effective(f)
  {
    if row.None? then Some(NewRow(f, f.side.value, QtyOf(f)))
    else if row.value.side == f.side.value then Some(ScaledRow(row.value, f))
    else if QtyOf(f) < row.value.qty then Some(ReducedRow(row.value, f))
    else if QtyOf(f) == row.value.qty then None
    else Some(NewRow(f, f.side.value, QtyOf(f) - row.value.qty))
  }

  lemma {:induction false} OpenIndexAfter(rows: seq<Position>, f: Fill)
    requires ValidLedger(rows) && Effective(f)
    ensures OpenRow(Apply(rows, f), f.symbol) == NextOpen(OpenRow(rows, f.symbol), f)
    ensures
      var i := OpenIndex(rows, f.symbol);
      OpenIndex(Apply(rows, f), f.symbol) ==
        if i < 0 then |rows|
        else if rows[i].side == f.side.value || QtyOf(f) < rows[i].qty then i
        else if QtyOf(f) == rows[i].qty then -1
        else |rows|
  {
    var i := OpenIndex(rows, f.symbol);
    var rows' := Apply(rows, f);
    if i < 0 {
      OpenIndexIs(rows', f.symbol, |rows|);
    } else {
      assert forall k :: 0 <= k < |rows| && k != i ==> !IsOpen(rows[k], f.symbol);
      if rows[i].side == f.side.value {
        OpenIndexIs(rows', f.symbol, i);
      } else {
        OpenIndexIs(rows', f.symbol,
                    if QtyOf(f) < rows[i].qty then i else if QtyOf(f) == rows[i].qty then -1 else |rows|);
      }
    }
  }

  lemma OpenFits(f: Fill, side: Side, qty: real, entries: seq<real>)
    requires qty > 0.0 && f.price.Some?
    ensures RowFits(NewRow(f, side, qty), Account(Signed(side, qty), entries + [f.price.value]))
  {
    assert (entries + [f.price.value])[|entries|] == f.price.value;
  }

  lemma ScaleFits(row: Position, f: Fill, a: Account)
    requires RowFits(row, a) && QtyOf(f) > 0.0 && f.price.Some?
    ensures RowFits(ScaledRow(row, f), Trade(a, Signed(row.side, QtyOf(f)), f.price.value))
  {
    BlendBetween(row.avgEntry.value, row.qty, f.price.value, QtyOf(f));
    BetweenGrows(a.entries, row.avgEntry.value, f.price.value, ScaledRow(row, f).avgEntry.value);
  }

  lemma OppositeFits(row: Position, f: Fill, side: Side, a: Account)
    requires RowFits(row, a) && QtyOf(f) > 0.0 && f.price.Some? && side != row.side
    ensures
      var after := Trade(a, Signed(side, QtyOf(f)), f.price.value);
      if QtyOf(f) < row.qty then RowFits(ReducedRow(row, f), after)
      else if QtyOf(f) == row.qty then after == Account(0.0, [])
      else RowFits(NewRow(f, side, QtyOf(f) - row.qty), after)
  {
    if QtyOf(f) > row.qty {
      OpenFits(f, side, QtyOf(f) - row.qty, []);
    }
  }

  lemma FillFits(row: Option<Position>, f: Fill, a: Account)
    requires Effective(f) && f.price.Some? && RowAgrees(row, a)
    ensures RowAgrees(NextOpen(row, f), Trade(a, Signed(f.side.value, QtyOf(f)), f.price.value))
  {
    if row.None? {
      OpenFits(f, f.side.value, QtyOf(f), []);
    } else if row.value.side == f.side.value {
      ScaleFits(row.value, f, a);
    } else {
      OppositeFits(row.value, f, f.side.value, a);
    }
  }

  lemma TrackStep(rows: seq<Position>, fills: seq<Fill>, symbol: string)
    requires fills != [] && ValidLedger(rows) && (Moves(Last(fills), symbol) ==> Last(fills).price.Some?)
    requires RowAgrees(OpenRow(rows, symbol), Track(Front(fills), symbol))
    ensures RowAgrees(OpenRow(Apply(rows, Last(fills)), symbol), Track(fills, symbol))
  {
    var f := Last(fills);
    var before, after := Track(Front(fills), symbol), Track(fills, symbol);
    if Effective(f) && f.symbol == symbol {
      assert after == Trade(before, Signed(f.side.value, QtyOf(f)), f.price.value);
      OpenIndexAfter(rows, f);
      FillFits(OpenRow(rows, symbol), f, before);
    } else {
      OpenIndexElsewhere(rows, f, symbol);
    }
  }

  /** From an empty table, priced fills leave an open row exactly when the account is not flat,
      with the account's quantity and an average inside the entry prices since it opened. */
  lemma {:induction false} AverageEntryBounded(fills: seq<Fill>, symbol: string)
    requires PricedFills(fills, symbol)
    ensures RowAgrees(OpenRow(Replay([], fills), symbol), Track(fills, symbol))
    ensures Track(fills, symbol).net == FlowNet(fills, symbol)
  {
    if fills != [] {
      AverageEntryBounded(Front(fills), symbol);
      ReplayKeepsLedger([], Front(fills));
      TrackStep(Replay([], Front(fills)), fills, symbol);
    }
  }

  // ------------------------------------------------------------------
  // Split invariance
  // ------------------------------------------------------------------

  /** A row without its bookkeeping stamps. */
  function Economic(row: Position): Position {
    row.(openedAt := 0, updatedAt := 0, closedAt := if row.closedAt.Some? then Some(0) else None,
         lastOrder := 0, lastFill := 0)
  }

  ghost predicate SameBook(a: seq<Position>, b: seq<Position>) {
    |a| == |b| && forall k :: 0 <= k < |a| ==> Economic(a[k]) == Economic(b[k])
  }

  predicate SameTrade(f: Fill, g: Fill) {
    f.symbol == g.symbol && f.side == g.side && f.price == g.price
  }

  lemma {:induction false} SameOpenIndex(a: seq<Position>, b: seq<Position>, symbol: string)
    requires SameBook(a, b)
    ensures OpenIndex(a, symbol) == OpenIndex(b, symbol)
  {
    if a != [] {
      assert Economic(Last(a)) == Economic(Last(b));
      assert IsOpen(Last(a), symbol) == IsOpen(Last(b), symbol);
      assert forall k :: 0 <= k < |Front(a)| ==> Economic(Front(a)[k]) == Economic(a[k]);
      SameOpenIndex(Front(a), Front(b), symbol);
    }
  }

  lemma RowsRespectBook(x: Position, y: Position, f: Fill, g: Fill)
    requires Economic(x) == Economic(y) && SameTrade(f, g) && f.qty == g.qty && Effective(f)
    ensures x.symbol == y.symbol && x.side == y.side && x.qty == y.qty && x.status == y.status
    ensures Economic(ScaledRow(x, f)) == Economic(ScaledRow(y, g))
    ensures Economic(ReducedRow(x, f)) == Economic(ReducedRow(y, g))
  {
    assert x.symbol == y.symbol && x.side == y.side && x.qty == y.qty && x.avgEntry == y.avgEntry
        && x.realized == y.realized && x.status == y.status by {
      var e, e' := Economic(x), Economic(y);
      assert e.symbol == e'.symbol && e.side == e'.side && e.qty == e'.qty && e.avgEntry == e'.avgEntry
          && e.realized == e'.realized && e.status == e'.status;
    }
  }

  /** Stamps never influence the accounting. */
  lemma {:induction false} ApplyRespectsBook(a: seq<Position>, b: seq<Position>, f: Fill, g: Fill)
    requires SameBook(a, b) && SameTrade(f, g) && f.qty == g.qty
    ensures SameBook(Apply(a, f), Apply(b, g))
  {
    SameOpenIndex(a, b, f.symbol);
    var i := OpenIndex(a, f.symbol);
    if i >= 0 && Effective(f) {
      RowsRespectBook(a[i], b[i], f, g);
    }
  }

  lemma BlendTwice(avg: real, qty: real, price: real, q1: real, q2: real)
    requires qty > 0.0 && q1 > 0.0 && q2 > 0.0
    ensures WeightedEntry(WeightedEntry(avg, qty, price, q1), qty + q1, price, q2)
         == WeightedEntry(avg, qty, price, q1 + q2)
  {
    assert WeightedEntry(avg, qty, price, q1) * (qty + q1) == avg * qty + price * q1;
    assert price * (q1 + q2) == price * q1 + price * q2;
  }

  lemma BlendSame(price: real, qty: real, more: real)
    requires qty > 0.0 && more > 0.0
    ensures WeightedEntry(price, qty, price, more) == price
  {
    assert price * qty + price * more == price * (qty + more);
  }

  lemma ScaleTwice(row: Position, f1: Fill, f2: Fill, f: Fill)
    requires ValidRow(row) && row.status.Open?
    requires QtyOf(f1) > 0.0 && QtyOf(f2) > 0.0 && QtyOf(f) == QtyOf(f1) + QtyOf(f2)
    requires SameTrade(f1, f) && SameTrade(f2, f)
    ensures Economic(ScaledRow(ScaledRow(row, f1), f2)) == Economic(ScaledRow(row, f))
  {
    var q1, q2 := QtyOf(f1), QtyOf(f2);
    if f.price.Some? {
      if row.avgEntry.Some? {
        BlendTwice(row.avgEntry.value, row.qty, f.price.value, q1, q2);
      } else {
        BlendSame(f.price.value, row.qty + q1, q2);
      }
    }
  }

  lemma ReduceTwice(row: Position, f1: Fill, f2: Fill, f: Fill)
    requires ValidRow(row) && row.status.Open?
    requires QtyOf(f1) > 0.0 && QtyOf(f2) > 0.0 && QtyOf(f) == QtyOf(f1) + QtyOf(f2)
    requires SameTrade(f1, f) && SameTrade(f2, f) && QtyOf(f1) < row.qty
    ensures Economic(ReducedRow(ReducedRow(row, f1), f2)) == Economic(ReducedRow(row, f))
  {
    if row.avgEntry.Some? && f.price.Some? {
      GainAdds(QtyOf(f1), QtyOf(f2), row.avgEntry.value, f.price.value);
      GainAdds(QtyOf(f1), row.qty - QtyOf(f1), row.avgEntry.value, f.price.value);
    }
  }

  /** A fresh row grown by a second fill at the same price is the row opened by both at once. */
  lemma OpenThenScale(f1: Fill, f2: Fill, f: Fill, side: Side, q1: real)
    requires SameTrade(f1, f) && SameTrade(f2, f) && q1 > 0.0 && QtyOf(f2) > 0.0
    ensures Economic(ScaledRow(NewRow(f1, side, q1), f2)) == Economic(NewRow(f, side, q1 + QtyOf(f2)))
  {
    if f.price.Some? {
      BlendSame(f.price.value, q1, QtyOf(f2));
    }
  }

  lemma SameBookUpdate(rows: seq<Position>, i: nat, x: Position, y: Position)
    requires i < |rows| && Economic(x) == Economic(y)
    ensures SameBook(rows[i := x], rows[i := y])
  {
  }

  lemma SplitWhileScaling(rows: seq<Position>, f1: Fill, f2: Fill, f: Fill)
    requires ValidLedger(rows) && Effective(f1) && Effective(f2)
    requires SameTrade(f1, f) && SameTrade(f2, f) && f.qty == Some(QtyOf(f1) + QtyOf(f2))
    requires OpenIndex(rows, f.symbol) < 0 || rows[OpenIndex(rows, f.symbol)].side == f.side.value
    ensures SameBook(Apply(Apply(rows, f1), f2), Apply(rows, f))
  {
    var i := OpenIndex(rows, f.symbol);
    OpenIndexAfter(rows, f1);
    if i < 0 {
      OpenThenScale(f1, f2, f, f.side.value, QtyOf(f1));
    } else {
      var once, both := ScaledRow(ScaledRow(rows[i], f1), f2), ScaledRow(rows[i], f);
      ScaleTwice(rows[i], f1, f2, f);
      assert Apply(Apply(rows, f1), f2) == rows[i := once];
      SameBookUpdate(rows, i, once, both);
    }
  }

  lemma SplitWhileReducing(rows: seq<Position>, f1: Fill, f2: Fill, f: Fill)
    requires ValidLedger(rows) && Effective(f1) && Effective(f2)
    requires SameTrade(f1, f) && SameTrade(f2, f) && f.qty == Some(QtyOf(f1) + QtyOf(f2))
    requires var i := OpenIndex(rows, f.symbol);
      i >= 0 && rows[i].side != f.side.value && QtyOf(f1) < rows[i].qty
    ensures SameBook(Apply(Apply(rows, f1), f2), Apply(rows, f))
  {
    var i := OpenIndex(rows, f.symbol);
    OpenIndexAfter(rows, f1);
    var once, both := ReducedRow(ReducedRow(rows[i], f1), f2), ReducedRow(rows[i], f);
    ReduceTwice(rows[i], f1, f2, f);
    SameBookUpdate(rows, i, once, both);
    assert rows[i := ReducedRow(rows[i], f1)][i := once] == rows[i := once];
  }

  lemma SplitPastClose(rows: seq<Position>, f1: Fill, f2: Fill, f: Fill)
    requires ValidLedger(rows) && Effective(f1) && Effective(f2)
    requires SameTrade(f1, f) && SameTrade(f2, f) && f.qty == Some(QtyOf(f1) + QtyOf(f2))
    requires var i := OpenIndex(rows, f.symbol);
      i >= 0 && rows[i].side != f.side.value && QtyOf(f1) >= rows[i].qty
    ensures SameBook(Apply(Apply(rows, f1), f2), Apply(rows, f))
  {
    var i := OpenIndex(rows, f.symbol);
    OpenIndexAfter(rows, f1);
    var closed1, closed := ReducedRow(rows[i], f1), ReducedRow(rows[i], f);
    assert Economic(closed1) == Economic(closed);
    SameBookUpdate(rows, i, closed1, closed);
    if QtyOf(f1) > rows[i].qty {
      var newRow := NewRow(f1, f.side.value, QtyOf(f1) - rows[i].qty);
      OpenThenScale(f1, f2, f, f.side.value, QtyOf(f1) - rows[i].qty);
      assert Apply(Apply(rows, f1), f2) == rows[i := closed1] + [ScaledRow(newRow, f2)];
    } else {
      assert Apply(Apply(rows, f1), f2) == rows[i := closed1] + [NewRow(f2, f.side.value, QtyOf(f2))];
    }
  }

  /** Two fills at one price leave the table that the single fill of their total leaves,
      also when the split straddles a close or a flip, and also when the price is unknown. */
  lemma SplitInvariance(rows: seq<Position>, f1: Fill, f2: Fill, f: Fill)
    requires ValidLedger(rows) && Effective(f1) && Effective(f2)
    requires SameTrade(f1, f) && SameTrade(f2, f) && f.qty == Some(QtyOf(f1) + QtyOf(f2))
    ensures SameBook(Apply(Apply(rows, f1), f2), Apply(rows, f))
  {
    var i := OpenIndex(rows, f.symbol);
    if i < 0 || rows[i].side == f.side.value {
      SplitWhileScaling(rows, f1, f2, f);
    } else if QtyOf(f1) < rows[i].qty {
      SplitWhileReducing(rows, f1, f2, f);
    } else {
      SplitPastClose(rows, f1, f2, f);
    }
  }

  ghost function TotalQty(fills: seq<Fill>): real {
    SumOf(fills, (f: Fill) => QtyOf(f))
  }

  /** `pieces` are fills of the trade `f`, each of a positive quantity. */
  ghost predicate PiecesOf(pieces: seq<Fill>, f: Fill) {
    forall k :: 0 <= k < |pieces| ==> Effective(pieces[k]) && SameTrade(pieces[k], f)
  }

  lemma {:induction false} TotalPositive(pieces: seq<Fill>, f: Fill)
    requires pieces != [] && PiecesOf(pieces, f)
    ensures TotalQty(pieces) > 0.0
  {
    if |pieces| == 1 {
      assert TotalQty(Front(pieces)) == 0.0;
    } else {
      TotalPositive(Front(pieces), f);
    }
  }

  lemma SameBookTransitive(a: seq<Position>, b: seq<Position>, c: seq<Position>)
    requires SameBook(a, b) && SameBook(b, c)
    ensures SameBook(a, c)
  {
    forall k | 0 <= k < |a| ensures Economic(a[k]) == Economic(c[k]) {
      assert Economic(a[k]) == Economic(b[k]);
    }
  }

  lemma OnlyPiece(rows: seq<Position>, piece: Fill, f: Fill)
    requires Effective(piece) && SameTrade(piece, f) && f.qty == Some(TotalQty([piece]))
    ensures SameBook(Replay(rows, [piece]), Apply(rows, f))
  {
    assert Front([piece]) == [] && TotalQty([]) == 0.0;
    ApplyRespectsBook(rows, rows, piece, f);
  }

  lemma PieceStep(rows: seq<Position>, front: seq<Position>, head: Fill, last: Fill, f: Fill)
    requires ValidLedger(rows) && Effective(head) && Effective(last) && SameBook(front, Apply(rows, head))
    requires SameTrade(head, f) && SameTrade(last, f) && f.qty == Some(QtyOf(head) + QtyOf(last))
    ensures SameBook(Apply(front, last), Apply(rows, f))
  {
    ApplyRespectsBook(front, Apply(rows, head), last, last);
    SplitInvariance(rows, head, last, f);
    SameBookTransitive(Apply(front, last), Apply(Apply(rows, head), last), Apply(rows, f));
  }

  /** Filling a trade in any number of pieces leaves the table that one fill leaves, up to stamps. */
  lemma {:induction false} PieceInvariance(rows: seq<Position>, pieces: seq<Fill>, f: Fill)
    requires ValidLedger(rows) && pieces != [] && PiecesOf(pieces, f) && f.qty == Some(TotalQty(pieces))
    ensures SameBook(Replay(rows, pieces), Apply(rows, f))
  {
    var front := Front(pieces);
    if front == [] {
      assert pieces == [Last(pieces)];
      OnlyPiece(rows, Last(pieces), f);
    } else {
      var head := f.(qty := Some(TotalQty(front)));
      assert PiecesOf(front, head);
      TotalPositive(front, head);
      PieceInvariance(rows, front, head);
      PieceStep(rows, Replay(rows, front), head, Last(pieces), f);
    }
  }

  // ------------------------------------------------------------------
  // The table, updated in place
  // ------------------------------------------------------------------

  class PositionBook {
    var rows: seq<Position>

    constructor ()
      ensures rows == []
    {
      rows := [];
    }

    method InsertOpenPosition(f: Fill, side: Side, qty: real) returns (id: nat)
      modifies this
      ensures rows == old(rows) + [NewRow(f, side, qty)] && id == |old(rows)|
    {
      id := |rows|;
      rows := rows + [Position(f.symbol, side, qty, f.price, 0.0, Open, f.time, f.time, None, f.orderId, f.fillId)];
    }

    method ApplySameSideFill(id: nat, f: Fill, qty: real)
      requires id < |rows| && qty == QtyOf(f) > 0.0
      modifies this
      ensures rows == old(rows)[id := ScaledRow(old(rows)[id], f)]
    {
      var existing := rows[id];
      var newQty := existing.qty + qty;
      var newAvg := f.price;
      if !(existing.avgEntry.None? || f.price.None? || existing.qty <= 0.0) {
        newAvg := Some(WeightedEntry(existing.avgEntry.value, existing.qty, f.price.value, qty));
      }
      rows := rows[id := existing.(qty := newQty, avgEntry := newAvg, updatedAt := f.time,
                                   lastOrder := f.orderId, lastFill := f.fillId)];
    }

    method UpdateExistingPosition(id: nat, remaining: real, realized: real, f: Fill)
      requires id < |rows|
      modifies this
      ensures
        var row := old(rows)[id];
        rows == old(rows)[id :=
          if remaining > 0.0 then
            row.(qty := remaining, realized := realized, updatedAt := f.time,
                 lastOrder := f.orderId, lastFill := f.fillId)
          else
            row.(qty := 0.0, realized := realized, status := Closed, updatedAt := f.time,
                 closedAt := Some(f.time), lastOrder := f.orderId, lastFill := f.fillId)]
    {
      var row := rows[id].(realized := realized, updatedAt := f.time, lastOrder := f.orderId, lastFill := f.fillId);
      if remaining > 0.0 {
        row := row.(qty := remaining);
      } else {
        row := row.(qty := 0.0, status := Closed, closedAt := Some(f.time));
      }
      rows := rows[id := row];
    }

    static method ComputeRealizedDelta(side: Side, avg: Option<real>, price: Option<real>, qty: real)
      returns (delta: real)
      ensures avg.None? || price.None? ==> delta == 0.0
      ensures avg.Some? && price.Some? ==> delta == Signed(side, Gain(qty, avg.value, price.value))
    {
      if avg.None? || price.None? {
        delta := 0.0;
      } else if side.Long? {
        delta := (price.value - avg.value) * qty;
      } else {
        delta := (avg.value - price.value) * qty;
      }
    }

    method ApplyOppositeSideFill(id: nat, f: Fill, side: Side, qty: real) returns (r: Receipt)
      requires id < |rows| && qty == QtyOf(f) > 0.0
      modifies this
      ensures
        var row := old(rows)[id];
        var reduced := old(rows)[id := ReducedRow(row, f)];
        if qty > row.qty then
          rows == reduced + [NewRow(f, side, qty - row.qty)] && r == Receipt(Flipped, Some(Last(rows)))
        else
          rows == reduced &&
          r == (if qty < row.qty then Receipt(Reduced, Some(rows[id])) else Receipt(ClosedOut, None))
    {
      var existing := rows[id];
      var closeQty := MinReal(existing.qty, qty);
      var delta := ComputeRealizedDelta(existing.side, existing.avgEntry, f.price, closeQty);
      var remainingExisting := MaxReal(0.0, existing.qty - closeQty);
      var remainingNew := MaxReal(0.0, qty - closeQty);
      UpdateExistingPosition(id, remainingExisting, existing.realized + delta, f);
      if remainingNew > 0.0 {
        var newId := InsertOpenPosition(f, side, remainingNew);
        r := Receipt(Flipped, Some(rows[newId]));
      } else if remainingExisting > 0.0 {
        r := Receipt(Reduced, Some(rows[id]));
      } else {
        r := Receipt(ClosedOut, None);
      }
    }

    /** One fill: the table moves as `Apply` says, the invariant and the accounting laws are kept,
        and the receipt names what happened and shows the position it left open. */
    method ApplyFillToPositions(f: Fill) returns (r: Result<Receipt, LedgerError>)
      modifies this
      ensures rows == Apply(old(rows), f)
      ensures r.Err? <==> QtyOf(f) > 0.0 && f.side.None?
      ensures ValidLedger(old(rows)) ==> ValidLedger(rows)
      ensures ValidLedger(old(rows)) && r.Ok? && r.value.status != NoPositionChange ==>
        r.value.position == OpenRow(rows, f.symbol)
      ensures r.Ok? ==> (r.value.status == NoPositionChange <==> QtyOf(f) <= 0.0)
      ensures r.Ok? && Effective(f) ==>
        var i := OpenIndex(old(rows), f.symbol);
        match r.value.status
        case Opened => i < 0
        case Scaled => i >= 0 && old(rows)[i].side == f.side.value
        case Reduced => i >= 0 && old(rows)[i].side != f.side.value && QtyOf(f) < old(rows)[i].qty
        case ClosedOut => i >= 0 && old(rows)[i].side != f.side.value && QtyOf(f) == old(rows)[i].qty
        case Flipped => i >= 0 && old(rows)[i].side != f.side.value && QtyOf(f) > old(rows)[i].qty
        case NoPositionChange => false
    {
      var qty := 0.0;
      if f.qty.Some? {
        qty := f.qty.value;
      }
      if qty <= 0.0 {
        return Ok(Receipt(NoPositionChange, None));
      }
      if f.side.None? {
        return Err(FillSideMustBeLongOrShort);
      }
      ghost var before := rows;
      var i := OpenIndex(rows, f.symbol);
      if i < 0 {
        var id := InsertOpenPosition(f, f.side.value, qty);
        r := Ok(Receipt(Opened, Some(rows[id])));
      } else if rows[i].side == f.side.value {
        ApplySameSideFill(i, f, qty);
        r := Ok(Receipt(Scaled, Some(rows[i])));
      } else {
        var receipt := ApplyOppositeSideFill(i, f, f.side.value, qty);
        r := Ok(receipt);
      }
      assert rows == Apply(before, f);
      if ValidLedger(before) {
        ApplyKeepsLedger(before, f);
        if Effective(f) { OpenIndexAfter(before, f); }
      }
    }
  }
}
