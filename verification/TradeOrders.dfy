/**
 The order rows of one trade, as freqtrade/persistence/trade_model.py keeps them and freqtrade/freqtradebot.py
 uses them. The rules here are pure; the bot that drives them is in TradingBot.dfy.
 */
module TradeOrders {
  import opened Outcomes

  datatype Side = Buy | Sell | Stoploss

  datatype Status = Open | Closed | Canceled | Expired | Rejected | Pending

  // An exchange record of an order. The exchange may leave any field out.
  datatype Record = Record(
    id: nat, side: Option<Side>, status: Option<Status>, filled: Option<real>, price: Option<real>,
    amount: Option<real>)

  // A row of the orders table: what was asked for, whether the order counts as open, and what the exchange last
  // said about it.
  datatype Order = Order(
    id: nat, side: Side, askedPrice: real, askedAmount: real, isOpen: bool,
    status: Option<Status>, filled: Option<real>, exchangeSide: Option<Side>, price: Option<real>,
    amount: Option<real>)

  // NON_OPEN_EXCHANGE_STATES
  predicate NonOpen(s: Option<Status>) {
    s.Some? && s.value in {Closed, Canceled, Expired, Rejected}
  }

  // Exchange.check_order_canceled_empty
  predicate CanceledEmpty(r: Record) {
    NonOpen(r.status) && r.filled == Some(0.0)
  }

  // Order.update_from_ccxt_object: a field the record leaves out keeps its value.
  function Update(o: Order, r: Record): Order {
    var status := Latest(r.status, o.status);
    o.(isOpen := !NonOpen(status), status := status, filled := Latest(r.filled, o.filled),
       exchangeSide := Latest(r.side, o.exchangeSide), price := Latest(r.price, o.price),
       amount := Latest(r.amount, o.amount))
  }

  function Latest<T>(reported: Option<T>, known: Option<T>): Option<T> {
    if reported.Some? then reported else known
  }

  // Trade.update_order on rows with distinct ids.
  function Updated(os: seq<Order>, r: Record): seq<Order> {
    seq(|os|, i requires 0 <= i < |os| => if os[i].id == r.id then Update(os[i], r) else os[i])
  }

  // Order.parse_from_ccxt_object
  function Parse(r: Record, side: Side, price: real, amount: real): Order {
    Order(r.id, side, price, amount, !NonOpen(r.status), r.status, r.filled, r.side, r.price, r.amount)
  }

  // ---- what a trade asks of its rows ----

  predicate Regular(o: Order) {
    o.side != Stoploss
  }

  // Trade.has_open_orders
  predicate HasOpenOrders(os: seq<Order>) {
    exists i :: 0 <= i < |os| && Regular(os[i]) && os[i].isOpen
  }

  // The ids of Trade.open_orders
  function OpenIds(os: seq<Order>): (ids: seq<nat>)
    ensures forall id :: id in ids ==> exists i :: 0 <= i < |os| && os[i].id == id && Regular(os[i]) && os[i].isOpen
  {
    if os == [] then []
    else
      var rest := OpenIds(os[..|os| - 1]);
      var last := os[|os| - 1];
      if Regular(last) && last.isOpen then rest + [last.id] else rest
  }

  // The ids of Trade.open_sl_orders
  function OpenStopIds(os: seq<Order>): (ids: seq<nat>)
    ensures forall id :: id in ids ==> id in OpenStops(os)
  {
    if os == [] then []
    else
      var rest := OpenStopIds(os[..|os| - 1]);
      var last := os[|os| - 1];
      if !Regular(last) && last.isOpen then rest + [last.id] else rest
  }

  function OpenStops(os: seq<Order>): set<nat> {
    set i | 0 <= i < |os| && !Regular(os[i]) && os[i].isOpen :: os[i].id
  }

  // Trade.select_order(side, True): the latest open order of a side.
  function SelectOpen(os: seq<Order>, side: Side): Option<Order> {
    if os == [] then None
    else if os[|os| - 1].side == side && os[|os| - 1].isOpen then Some(os[|os| - 1])
    else SelectOpen(os[..|os| - 1], side)
  }

  // What handle_similar_open_order keeps instead of placing another order.
  predicate Similar(o: Order, side: Side, price: real, amount: real) {
    o.exchangeSide == Some(side) && o.price == Some(price) && o.amount == Some(amount)
  }

  // Trade.nr_of_successful_entries == 0
  predicate NoSuccessfulEntry(os: seq<Order>, entry: Side) {
    forall i :: 0 <= i < |os| && os[i].side == entry && !os[i].isOpen && NonOpen(os[i].status) ==>
      os[i].filled.None? || os[i].filled.value == 0.0
  }

  // ---- invariants and histories ----

  ghost predicate DistinctBelow(os: seq<Order>, nextId: nat) {
    && (forall i :: 0 <= i < |os| ==> os[i].id < nextId)
    && (forall i, j :: 0 <= i < j < |os| ==> os[i].id != os[j].id)
  }

  // Only the regular order placed last can be open.
  ghost predicate LastOnly(os: seq<Order>) {
    forall i, j :: 0 <= i < j < |os| && Regular(os[i]) && Regular(os[j]) ==> !os[i].isOpen
  }

  ghost predicate Sound(os: seq<Order>, nextId: nat) {
    DistinctBelow(os, nextId) && LastOnly(os)
  }

  // The same order, as it was asked for.
  ghost predicate SameOrder(a: Order, b: Order) {
    a.id == b.id && a.side == b.side && a.askedPrice == b.askedPrice && a.askedAmount == b.askedAmount
  }

  // Rows are only added, and a regular order that is no longer open stays so.
  ghost predicate Evolves(a: seq<Order>, b: seq<Order>) {
    && |a| <= |b|
    && forall i :: 0 <= i < |a| ==>
         SameOrder(a[i], b[i]) && (Regular(a[i]) && !a[i].isOpen ==> !b[i].isOpen)
  }

  // The same rows, up to what happened to stoploss orders.
  ghost predicate SameRegular(a: seq<Order>, b: seq<Order>) {
    && |a| == |b|
    && forall i :: 0 <= i < |a| ==> SameOrder(a[i], b[i]) && (Regular(a[i]) ==> a[i] == b[i])
  }

  // The same rows, up to stoploss orders and one regular order, which does not reopen.
  ghost predicate OnlyOrder(a: seq<Order>, b: seq<Order>, id: nat) {
    && |a| == |b|
    && forall i :: 0 <= i < |a| ==>
         && SameOrder(a[i], b[i])
         && (Regular(a[i]) && a[i].id != id ==> a[i] == b[i])
         && (Regular(a[i]) && !a[i].isOpen ==> !b[i].isOpen)
  }

  // A record that cannot reopen the row it is about.
  predicate Final(os: seq<Order>, r: Record) {
    forall i :: 0 <= i < |os| && os[i].id == r.id && Regular(os[i]) && !os[i].isOpen ==> NonOpen(r.status)
  }

  ghost predicate OpenAt(os: seq<Order>, id: nat) {
    forall i :: 0 <= i < |os| && os[i].id == id && Regular(os[i]) ==> os[i].isOpen
  }

  ghost predicate ClosedAt(os: seq<Order>, id: nat) {
    forall i :: 0 <= i < |os| && os[i].id == id && Regular(os[i]) ==> !os[i].isOpen
  }

  // ---- facts ----

  // A record is taken over field by field as far as it goes, by its own row only. The row counts as open unless
  // its latest status says that the order is over.
  lemma RecordIsTakenOver(os: seq<Order>, r: Record, i: nat)
    requires i < |os|
    ensures var o, n := os[i], Updated(os, r)[i];
            && |Updated(os, r)| == |os| && SameOrder(o, n)
            && (o.id != r.id ==> n == o)
            && (o.id == r.id ==>
                  && n.status == (if r.status != None then r.status else o.status)
                  && n.filled == (if r.filled != None then r.filled else o.filled)
                  && n.exchangeSide == (if r.side != None then r.side else o.exchangeSide)
                  && n.price == (if r.price != None then r.price else o.price)
                  && n.amount == (if r.amount != None then r.amount else o.amount)
                  && (n.isOpen <==> n.status == None || n.status == Some(Open) || n.status == Some(Pending)))
  {
    StatusIsOpenOrOver(Updated(os, r)[i].status);
  }

  lemma StatusIsOpenOrOver(s: Option<Status>)
    ensures !NonOpen(s) <==> s == None || s == Some(Open) || s == Some(Pending)
  {
    if s.Some? {
      match s.value {
        case Open =>
        case Closed =>
        case Canceled =>
        case Expired =>
        case Rejected =>
        case Pending =>
      }
    }
  }

  // A new row asks for what was asked for and is open unless the exchange says otherwise at once.
  lemma NewRow(r: Record, side: Side, price: real, amount: real)
    ensures var o := Parse(r, side, price, amount);
            && o.id == r.id && o.side == side && o.askedPrice == price && o.askedAmount == amount
            && o.status == r.status && o.filled == r.filled && o.exchangeSide == r.side && o.price == r.price
            && o.amount == r.amount
            && (o.isOpen <==> r.status == None || r.status == Some(Open) || r.status == Some(Pending))
  {
    StatusIsOpenOrOver(r.status);
  }

  // The ids reported as open are exactly those of open regular orders.
  lemma {:induction false} OpenIdsExactly(os: seq<Order>, id: nat)
    ensures id in OpenIds(os) <==> exists i :: 0 <= i < |os| && os[i].id == id && Regular(os[i]) && os[i].isOpen
  {
    if os != [] {
      var rest, last := os[..|os| - 1], os[|os| - 1];
      OpenIdsExactly(rest, id);
      if i :| 0 <= i < |os| && os[i].id == id && Regular(os[i]) && os[i].isOpen {
        assert i < |rest| ==> rest[i] == os[i];
      }
      if i :| 0 <= i < |rest| && rest[i].id == id && Regular(rest[i]) && rest[i].isOpen {
        assert os[i] == rest[i];
      }
      assert os[|os| - 1] == last;
    }
  }

  lemma {:induction false} OpenStopIdsExactly(os: seq<Order>, id: nat)
    ensures id in OpenStopIds(os) <==> id in OpenStops(os)
  {
    if os != [] {
      var rest, last := os[..|os| - 1], os[|os| - 1];
      OpenStopIdsExactly(rest, id);
      if i :| 0 <= i < |os| && os[i].id == id && !Regular(os[i]) && os[i].isOpen {
        assert i < |rest| ==> rest[i] == os[i];
      }
      if i :| 0 <= i < |rest| && rest[i].id == id && !Regular(rest[i]) && rest[i].isOpen {
        assert os[i] == rest[i];
      }
      assert os[|os| - 1] == last;
    }
  }

  // The order selected is the latest open one of the side.
  lemma {:induction false} SelectOpenIsLatest(os: seq<Order>, side: Side)
    ensures match SelectOpen(os, side)
            case None => forall i :: 0 <= i < |os| ==> os[i].side != side || !os[i].isOpen
            case Some(o) =>
              exists i :: 0 <= i < |os| && os[i] == o && o.side == side && o.isOpen &&
                          forall j :: i < j < |os| ==> os[j].side != side || !os[j].isOpen
  {
    if os != [] {
      var rest, last := os[..|os| - 1], os[|os| - 1];
      SelectOpenIsLatest(rest, side);
      assert os[|os| - 1] == last && forall i :: 0 <= i < |rest| ==> os[i] == rest[i];
      if !(last.side == side && last.isOpen) && SelectOpen(rest, side).Some? {
        var o := SelectOpen(rest, side).value;
        var i :| 0 <= i < |rest| && rest[i] == o &&
                 forall j :: i < j < |rest| ==> rest[j].side != side || !rest[j].isOpen;
        assert os[i] == o;
      }
    }
  }

  // What makes an entry successful: an order of the entry side that is over and of which something was filled.
  lemma OneSuccessfulEntryIsEnough(a: seq<Order>, o: Order, b: seq<Order>, entry: Side)
    ensures NoSuccessfulEntry([], entry)
    ensures NoSuccessfulEntry(a + [o] + b, entry) <==>
            && NoSuccessfulEntry(a, entry) && NoSuccessfulEntry(b, entry)
            && !(o.side == entry && !o.isOpen && o.status.Some? && o.status != Some(Open) && o.status != Some(Pending)
                 && o.filled.Some? && o.filled != Some(0.0))
  {
    var all := a + [o] + b;
    StatusIsOpenOrOver(o.status);
    assert forall i :: 0 <= i < |a| ==> all[i] == a[i];
    assert all[|a|] == o;
    assert forall i :: 0 <= i < |b| ==> all[|a| + 1 + i] == b[i];
  }

  // The order rows that a trade reports as open are at most one.
  lemma {:induction false} AtMostOneOpen(os: seq<Order>)
    requires LastOnly(os)
    ensures |OpenIds(os)| <= 1
    ensures OpenIds(os) == [] <==> !HasOpenOrders(os)
  {
    if os != [] {
      var rest, last := os[..|os| - 1], os[|os| - 1];
      assert LastOnly(rest) by {
        assert forall i :: 0 <= i < |rest| ==> rest[i] == os[i];
      }
      AtMostOneOpen(rest);
      if Regular(last) && last.isOpen {
        assert forall i :: 0 <= i < |rest| && Regular(rest[i]) ==> !os[i].isOpen;
        assert Regular(os[|os| - 1]) && os[|os| - 1].isOpen;
      } else if HasOpenOrders(rest) {
        var i :| 0 <= i < |rest| && Regular(rest[i]) && rest[i].isOpen;
        assert Regular(os[i]) && os[i].isOpen;
      } else {
        assert forall i :: 0 <= i < |rest| ==> rest[i] == os[i];
      }
    }
  }

  // A record can close an order; it cannot open a second one.
  lemma UpdateKeepsSound(os: seq<Order>, r: Record, nextId: nat)
    requires Sound(os, nextId) && Final(os, r)
    ensures Sound(Updated(os, r), nextId) && OnlyOrder(os, Updated(os, r), r.id)
  {
    forall i | 0 <= i < |os|
      ensures SameOrder(os[i], Updated(os, r)[i])
      ensures Regular(os[i]) && !os[i].isOpen ==> !Updated(os, r)[i].isOpen
    {
    }
  }

  // An order that others followed would be open after this record.
  predicate Reopens(os: seq<Order>, r: Record) {
    exists i, j :: 0 <= i < j < |os| && Regular(os[i]) && Regular(os[j]) && os[i].id == r.id
                   && !NonOpen(Latest(r.status, os[i].status))
  }

  // The records that break the invariant are exactly those.
  lemma UpdateSoundExactly(os: seq<Order>, r: Record, nextId: nat)
    requires Sound(os, nextId)
    ensures Sound(Updated(os, r), nextId) <==> !Reopens(os, r)
  {
    var updated := Updated(os, r);
    assert forall i :: 0 <= i < |os| ==> updated[i].id == os[i].id && updated[i].side == os[i].side;
    if !Reopens(os, r) {
      forall i, j | 0 <= i < j < |os| && Regular(updated[i]) && Regular(updated[j]) ensures !updated[i].isOpen {
        assert Regular(os[i]) && Regular(os[j]);
      }
    } else {
      var i, j :| 0 <= i < j < |os| && Regular(os[i]) && Regular(os[j]) && os[i].id == r.id
                  && !NonOpen(Latest(r.status, os[i].status));
      assert updated[i].isOpen && Regular(updated[i]) && Regular(updated[j]);
    }
  }

  // The flag of a row becomes false only from a record whose status is not open, or that leaves the status
  // out while the row already has such a status.
  lemma ClosedOnlyByRecord(os: seq<Order>, r: Record, i: nat)
    requires i < |os| && os[i].isOpen && !Updated(os, r)[i].isOpen
    ensures os[i].id == r.id && (NonOpen(r.status) || (r.status.None? && NonOpen(os[i].status)))
  {
  }

  // What the gate in front of every new order buys: appending a regular order is sound exactly when no
  // regular order is open.
  lemma AppendSoundExactly(os: seq<Order>, o: Order, nextId: nat)
    requires Sound(os, nextId) && o.id == nextId && Regular(o)
    ensures Sound(os + [o], nextId + 1) <==> !HasOpenOrders(os)
    ensures Evolves(os, os + [o])
  {
    assert (os + [o])[|os|] == o;
    assert forall i :: 0 <= i < |os| ==> (os + [o])[i] == os[i];
  }

  // An order that is still open does not count as an entry, so it does not keep its trade from being deleted: a
  // trade with nothing but an open first entry has an open order and no successful entry at once.
  lemma OpenOrderDoesNotSaveTrade(os: seq<Order>, o: Order, entry: Side)
    requires Regular(o) && o.isOpen
    ensures HasOpenOrders(os + [o])
    ensures NoSuccessfulEntry(os + [o], entry) <==> NoSuccessfulEntry(os, entry)
    ensures HasOpenOrders([o]) && NoSuccessfulEntry([o], entry)
  {
    var all := os + [o];
    assert all[|os|] == o;
    assert forall i :: 0 <= i < |os| ==> all[i] == os[i];
    assert [o][0] == o;
  }

  // A stoploss order may be placed at any time.
  lemma AppendStopKeepsSound(os: seq<Order>, o: Order, nextId: nat)
    requires Sound(os, nextId) && o.id == nextId && !Regular(o)
    ensures Sound(os + [o], nextId + 1) && SameRegular(os, (os + [o])[..|os|]) && Evolves(os, os + [o])
  {
  }

  lemma EvolvesTransitive(a: seq<Order>, b: seq<Order>, c: seq<Order>)
    requires Evolves(a, b) && Evolves(b, c)
    ensures Evolves(a, c)
  {
    forall i | 0 <= i < |a|
      ensures SameOrder(a[i], c[i]) && (Regular(a[i]) && !a[i].isOpen ==> !c[i].isOpen)
    {
      assert SameOrder(a[i], b[i]);
    }
  }
}
