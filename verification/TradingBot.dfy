/**
 Order placement, cancellation and replacement of freqtrade/freqtradebot.py against an exchange that may
 answer anything: refuse a cancel, fail a request, report a partial fill, leave fields out. Every answer of the
 exchange, every strategy callback and every failure elsewhere is a nondeterministic choice, so each contract
 below holds for all of them.
 */
module TradingBot {
  import opened Outcomes
  import opened TradeOrders

  // The exceptions that matter to the handlers, by the class that catches them.
  datatype Failure = InvalidOrder | InsufficientFunds | Temporary | Dependency | Operational

  predicate IsInvalidOrder(f: Failure) { f in {InvalidOrder, InsufficientFunds} }

  predicate IsExchangeError(f: Failure) { f in {InvalidOrder, InsufficientFunds, Temporary} }

  predicate IsDependency(f: Failure) { f != Operational }

  // The classes are nested, and an operational error passes all handlers.
  lemma HandlersAreNested(f: Failure)
    ensures IsInvalidOrder(f) ==> IsExchangeError(f)
    ensures IsExchangeError(f) ==> IsDependency(f)
    ensures !IsInvalidOrder(Temporary) && IsExchangeError(Temporary)
    ensures !IsExchangeError(Dependency) && IsDependency(Dependency)
    ensures IsInvalidOrder(InvalidOrder) && IsInvalidOrder(InsufficientFunds) && !IsDependency(Operational)
  {
  }

  // MATH_CLOSE_PREC
  const CLOSE_PRECISION := 0.00000000000001

  // math.isclose(x, 0.0, abs_tol=MATH_CLOSE_PREC)
  predicate Negligible(x: real) { -CLOSE_PRECISION <= x <= CLOSE_PRECISION }

  ghost predicate Filled(x: real) { x > 0.00000000000001 || x < -0.00000000000001 }

  // What the bot asks: the exchange about an order, to cancel one, to create one, and the strategy for its consent
  // to a new one, unless something broke before. A request for a new order comes with what the table said at that
  // moment: whether a regular order was open.
  datatype Call =
    | Fetched(id: nat, answer: Result<Record, Failure>)
    | CancelSent(id: nat)
    | Created(side: Side, price: real, amount: real, blocked: bool)
    | Confirmed(yes: bool)
    | Broke(f: Failure)

  // Only calls are added, and no regular order is asked for while another one is open.
  ghost predicate Extends(a: seq<Call>, b: seq<Call>) {
    && a <= b
    && forall i :: |a| <= i < |b| && b[i].Created? && b[i].side != Stoploss ==> !b[i].blocked
  }

  ghost predicate SentSince(a: seq<Call>, b: seq<Call>, call: Call) {
    a <= b && call in b[|a|..]
  }

  // The strategy has been asked for its consent, or something broke before it could be.
  ghost predicate Tried(a: seq<Call>, b: seq<Call>) {
    (exists yes :: SentSince(a, b, Confirmed(yes))) || exists f :: SentSince(a, b, Broke(f))
  }

  ghost predicate WasFetched(a: seq<Call>, b: seq<Call>, id: nat) {
    exists r :: SentSince(a, b, Fetched(id, r))
  }

  // The order has been looked up, and if it was found unfinished, unfilled and on one of these sides, it has been
  // cancelled.
  ghost predicate Handled(a: seq<Call>, b: seq<Call>, id: nat, sides: set<Side>) {
    exists r :: SentSince(a, b, Fetched(id, r)) && (Unfilled(r, sides) ==> SentSince(a, b, CancelSent(id)))
  }

  predicate Unfilled(r: Result<Record, Failure>, sides: set<Side>) {
    && r.Ok? && !NonOpen(r.value.status) && r.value.filled.GetOr(0.0) <= 0.0
    && r.value.side.Some? && r.value.side.value in sides
  }

  ghost predicate AllHandled(os: seq<Order>, a: seq<Call>, b: seq<Call>, sides: set<Side>) {
    forall id :: id in OpenIds(os) ==> Handled(a, b, id, sides)
  }

  class Trade {
    const isShort: bool
    var orders: seq<Order>
    var isOpen: bool
    var amount: real
    var deleted: bool

    constructor (isShort: bool, orders: seq<Order>)
      ensures this.isShort == isShort && this.orders == orders && isOpen && !deleted && amount == 0.0
    {
      this.isShort := isShort;
      this.orders := orders;
      isOpen, deleted, amount := true, false, 0.0;
    }

    function EntrySide(): Side { if isShort then Sell else Buy }

    function ExitSide(): Side { if isShort then Buy else Sell }
  }

  class Bot {
    const stoplossBlocksAssets: bool // an option of the exchange
    var nextId: nat // the exchange never hands out an order id twice
    ghost var calls: seq<Call> // what the exchange has been asked so far

    constructor (stoplossBlocksAssets: bool)
      ensures this.stoplossBlocksAssets == stoplossBlocksAssets && nextId == 0 && calls == []
    {
      this.stoplossBlocksAssets := stoplossBlocksAssets;
      nextId, calls := 0, [];
    }

    // ---- the outside world ----

    method Elsewhere() returns (f: Option<Failure>)
    {
      f := *;
    }

    // What comes before the strategy is asked: prices, precisions, funding fees.
    method Prepare() returns (f: Option<Failure>)
      modifies this`calls
      ensures calls == if f.Some? then old(calls) + [Broke(f.value)] else old(calls)
    {
      f := Elsewhere();
      if f.Some? {
        calls := calls + [Broke(f.value)];
      }
    }

    method Decide() returns (b: bool)
    {
      b := *;
    }

    method Answer(id: nat) returns (r: Result<Record, Failure>)
      ensures r.Ok? ==> r.value.id == id
    {
      r := *;
      if r.Ok? {
        r := Ok(r.value.(id := id));
      }
    }

    // fetch_order and its relatives
    method Fetch(id: nat) returns (r: Result<Record, Failure>)
      modifies this`calls
      ensures calls == old(calls) + [Fetched(id, r)] && (r.Ok? ==> r.value.id == id)
    {
      r := Answer(id);
      calls := calls + [Fetched(id, r)];
    }

    // cancel_order_with_result and cancel_stoploss_order_with_result
    method SendCancel(id: nat) returns (r: Result<Record, Failure>)
      modifies this`calls
      ensures calls == old(calls) + [CancelSent(id)] && (r.Ok? ==> r.value.id == id)
    {
      calls := calls + [CancelSent(id)];
      r := Answer(id);
    }

    // create_order and create_stoploss; the order may exist even if the answer is an error
    method CreateOrder(side: Side, price: real, amount: real, ghost blocked: bool) returns (r: Result<Record, Failure>)
      modifies this
      ensures nextId == old(nextId) + 1 && (r.Ok? ==> r.value.id == old(nextId))
      ensures calls == old(calls) + [Created(side, price, amount, blocked)]
    {
      calls := calls + [Created(side, price, amount, blocked)];
      r := Answer(nextId);
      nextId := nextId + 1;
    }

    // confirm_trade_entry and confirm_trade_exit, with what else keeps an order from being asked for
    method Confirm() returns (yes: bool)
      modifies this`calls
      ensures calls == old(calls) + [Confirmed(yes)]
    {
      yes := Decide();
      calls := calls + [Confirmed(yes)];
    }

    // ---- trade state ----

    // Trade.update_trade and recalc_trade_from_orders: amounts move, and a filled exit closes the trade.
    method Recalculate(trade: Trade)
      modifies trade`amount, trade`isOpen
      ensures trade.isOpen ==> old(trade.isOpen)
    {
      trade.amount := *;
      var closes := Decide();
      trade.isOpen := trade.isOpen && !closes;
    }

    // update_trade_state for a stoploss order. `budget` bounds the stoploss orders that may still be open.
    method UpdateStoplossState(trade: Trade, rec: Record, ghost budget: set<nat>) returns (r: Result<bool, Failure>)
      requires Sound(trade.orders, nextId) && OpenStops(trade.orders) <= budget && rec.id in budget
      requires forall i :: 0 <= i < |trade.orders| && trade.orders[i].id == rec.id ==> !Regular(trade.orders[i])
      modifies this`calls, trade`orders, trade`amount, trade`isOpen
      ensures Extends(old(calls), calls)
      ensures Sound(trade.orders, nextId) && SameRegular(old(trade.orders), trade.orders)
      ensures OpenStops(trade.orders) <= if NonOpen(rec.status) then budget - {rec.id} else budget
      ensures r == Ok(true) <==> CanceledEmpty(rec)
      decreases budget, 0
    {
      StopUpdated(trade.orders, rec, nextId, budget);
      trade.orders := Updated(trade.orders, rec);
      if CanceledEmpty(rec) {
        return Ok(true);
      }
      var f := Elsewhere();
      if f.Some? {
        return Err(f.value);
      }
      Recalculate(trade);
      if NonOpen(rec.status) && !trade.isOpen {
        f := CancelStoplossOnExchange(trade, budget - {rec.id});
        if f.Some? {
          return Err(f.value);
        }
      }
      return Ok(false);
    }

    // Every stoploss order that is open is cancelled, until a cancel fails in an unexpected way.
    method CancelStoplossOnExchange(trade: Trade, ghost budget: set<nat>) returns (f: Option<Failure>)
      requires Sound(trade.orders, nextId) && OpenStops(trade.orders) <= budget
      modifies this`calls, trade`orders, trade`amount, trade`isOpen
      ensures Extends(old(calls), calls)
      ensures Sound(trade.orders, nextId) && SameRegular(old(trade.orders), trade.orders)
      ensures OpenStops(trade.orders) <= budget
      ensures if f.Some? then calls != old(calls)
              else forall id :: id in old(OpenStops(trade.orders)) ==> SentSince(old(calls), calls, CancelSent(id))
      decreases budget, 1
    {
      var ids := OpenStopIds(trade.orders);
      for i := 0 to |ids|
        invariant Extends(old(calls), calls)
        invariant Sound(trade.orders, nextId) && SameRegular(old(trade.orders), trade.orders)
        invariant OpenStops(trade.orders) <= budget
        invariant forall j :: 0 <= j < i ==> SentSince(old(calls), calls, CancelSent(ids[j]))
      {
        assert ids[i] in ids;
        StopRows(old(trade.orders), trade.orders, ids[i], nextId);
        ghost var before := calls;
        var co := SendCancel(ids[i]);
        SentNow(old(calls), before, CancelSent(ids[i]));
        ghost var sent := calls;
        if co.Ok? {
          var u := UpdateStoplossState(trade, co.value, budget);
          StillSent(old(calls), sent, calls);
          if u.Err? && !IsInvalidOrder(u.error) {
            return Some(u.error);
          }
        } else if !IsInvalidOrder(co.error) {
          return Some(co.error);
        }
      }
      forall id | id in old(OpenStops(trade.orders)) ensures SentSince(old(calls), calls, CancelSent(id)) {
        OpenStopIdsExactly(old(trade.orders), id);
        var j :| 0 <= j < |ids| && ids[j] == id;
      }
      return None;
    }

    // update_trade_state for an entry or exit order, from a record already at hand.
    method UpdateTradeState(trade: Trade, rec: Record) returns (r: Result<bool, Failure>)
      requires Sound(trade.orders, nextId) && Final(trade.orders, rec)
      modifies this`calls, trade`orders, trade`amount, trade`isOpen
      ensures Extends(old(calls), calls)
      ensures Sound(trade.orders, nextId) && SameRegular(Updated(old(trade.orders), rec), trade.orders)
      ensures r == Ok(true) <==> CanceledEmpty(rec)
      ensures CanceledEmpty(rec) ==> trade.orders == Updated(old(trade.orders), rec)
      ensures NonOpen(rec.status) ==> ClosedAt(trade.orders, rec.id)
    {
      UpdateKeepsSound(trade.orders, rec, nextId);
      trade.orders := Updated(trade.orders, rec);
      if CanceledEmpty(rec) {
        return Ok(true);
      }
      var f := Elsewhere();
      if f.Some? {
        return Err(f.value);
      }
      Recalculate(trade);
      var entryFilled := Decide();
      if NonOpen(rec.status) && (entryFilled || !trade.isOpen) {
        f := CancelStoplossOnExchange(trade, OpenStops(trade.orders));
        if f.Some? {
          return Err(f.value);
        }
      }
      f := Elsewhere();
      if f.Some? {
        return Err(f.value);
      }
      return Ok(false);
    }

    // ---- cancelling ----

    // The cancel request of handle_cancel_enter, with its retries: the record of an order that is really over,
    // or nothing when the cancel was not sent or not confirmed. An order that is over already is not cancelled; any
    // other is, once, unless it is filled in part.
    method CancelEntryOrder(order: Record, id: nat, replacing: bool) returns (r: Result<Option<Record>, Failure>)
      requires order.id == id
      modifies this`calls
      ensures Extends(old(calls), calls)
      ensures NonOpen(order.status) ==> r == Ok(Some(order)) && calls == old(calls)
      ensures r.Ok? && r.value.Some? ==> r.value.value.id == id && NonOpen(r.value.value.status)
      ensures !NonOpen(order.status) ==>
                if calls == old(calls) then r == Ok(None) && PartlyFilled(order)
                else
                  && CancelledOnce(calls[|old(calls)|..], id)
                  && (!replacing ==> |calls| == |old(calls)| + 1)
                  && (replacing && r == Ok(None) ==> |calls| == |old(calls)| + 4)
    {
      if NonOpen(order.status) {
        return Ok(Some(order));
      }
      var unexitable := Decide();
      if PartlyFilled(order) && unexitable {
        return Ok(None);
      }
      var answer := SendCancel(id);
      if answer.Err? {
        return Err(answer.error);
      }
      var retryCount := 0;
      while replacing && !NonOpen(answer.value.status) && retryCount < 3
        invariant 0 <= retryCount <= 3 && answer.Ok? && answer.value.id == id
        invariant Extends(old(calls), calls) && |calls| == |old(calls)| + 1 + retryCount
        invariant CancelledOnce(calls[|old(calls)|..], id) && (!replacing ==> retryCount == 0)
        decreases 3 - retryCount
      {
        answer := Fetch(id);
        if answer.Err? {
          return Err(answer.error);
        }
        retryCount := retryCount + 1;
      }
      return Ok(if NonOpen(answer.value.status) then Some(answer.value) else None);
    }

    method HandleCancelEnter(trade: Trade, order: Record, id: nat, replacing: bool) returns (r: Result<bool, Failure>)
      requires Sound(trade.orders, nextId) && order.id == id
      requires OpenAt(trade.orders, id) || NonOpen(order.status)
      modifies this`calls, trade`orders, trade`amount, trade`isOpen, trade`deleted
      ensures Extends(old(calls), calls)
      ensures Sound(trade.orders, nextId) && OnlyOrder(old(trade.orders), trade.orders, id)
      ensures !NonOpen(order.status) && !PartlyFilled(order) ==> SentSince(old(calls), calls, CancelSent(id))
      ensures r == Ok(true) ==> trade.deleted || ClosedAt(trade.orders, id)
      ensures r == Ok(true) && !NonOpen(order.status) ==> SentSince(old(calls), calls, CancelSent(id))
      ensures replacing || r == Ok(false) ==> trade.deleted == old(trade.deleted)
      ensures trade.deleted ==> old(trade.deleted) || NoSuccessfulEntry(trade.orders, trade.EntrySide())
      ensures NonOpen(order.status) && order.filled.Some? && Filled(order.filled.value) ==>
                trade.deleted == old(trade.deleted) && ClosedAt(trade.orders, id) && r != Ok(true)
      ensures NonOpen(order.status) && order.filled.Some? && !Filled(order.filled.value) ==>
                && r != Ok(false)
                && if !replacing && NoSuccessfulEntry(old(trade.orders), trade.EntrySide()) &&
                      forall o :: o in old(trade.orders) && o.isOpen ==> o.id == id
                   then trade.deleted
                   else trade.deleted == old(trade.deleted) && ClosedAt(trade.orders, id)
    {
      ghost var before := calls;
      var cancelled := CancelEntryOrder(order, id, replacing);
      if calls != before {
        SentFirst(before, calls, id);
      }
      ghost var sent := calls;
      if cancelled.Err? || cancelled.value.None? {
        return if cancelled.Err? then Err(cancelled.error) else Ok(false);
      }
      var corder := cancelled.value.value;
      var filled := if corder.filled.Some? then corder.filled else order.filled;
      if filled.None? {
        return Err(Operational);
      }
      var fullyCanceled := Negligible(filled.value);
      var onlyOrder := OnlyUnfilled(trade.orders, id, trade.EntrySide());
      if fullyCanceled && !replacing && onlyOrder {
        trade.deleted := true;
      } else {
        var u := UpdateTradeState(trade, corder);
        StillSent(before, sent, calls);
        if u.Err? {
          return Err(u.error);
        }
      }
      var f := Elsewhere();
      return if f.Some? then Err(f.value) else Ok(fullyCanceled);
    }

    // An order that is over already is only taken over; any other is cancelled, unless it is filled in part.
    method HandleCancelExit(trade: Trade, order: Record, id: nat) returns (r: Result<bool, Failure>)
      requires Sound(trade.orders, nextId) && order.id == id
      requires OpenAt(trade.orders, id) || NonOpen(order.status)
      modifies this`calls, trade`orders, trade`amount, trade`isOpen
      ensures Extends(old(calls), calls)
      ensures Sound(trade.orders, nextId) && OnlyOrder(old(trade.orders), trade.orders, id)
      ensures NonOpen(order.status) ==> r != Ok(true) && ClosedAt(trade.orders, id)
      ensures r == Ok(true) || (!NonOpen(order.status) && !PartlyFilled(order)) ==>
                SentSince(old(calls), calls, CancelSent(id))
    {
      var corder := order;
      var cancelled := false;
      ghost var before := calls;
      if !NonOpen(order.status) {
        var unexitable := Decide();
        if PartlyFilled(order) && unexitable {
          var g := Elsewhere();
          return if g.Some? then Err(g.value) else Ok(false);
        }
        var answer := SendCancel(id);
        SentNow(before, before, CancelSent(id));
        if answer.Err? {
          return if IsInvalidOrder(answer.error) then Ok(false) else Err(answer.error);
        }
        corder := answer.value;
        cancelled := true;
      }
      ghost var sent := calls;
      var u := UpdateTradeState(trade, corder);
      StillSent(before, sent, calls);
      if u.Err? {
        return Err(u.error);
      }
      var f := Elsewhere();
      if f.Some? {
        return Err(f.value);
      }
      return Ok(cancelled);
    }

    // Every open order is looked up; those of the given sides are cancelled.
    method CancelOpenOrdersOfTrade(trade: Trade, sides: set<Side>, replacing: bool) returns (f: Option<Failure>)
      requires Sound(trade.orders, nextId)
      modifies this`calls, trade`orders, trade`amount, trade`isOpen, trade`deleted
      ensures Extends(old(calls), calls)
      ensures Sound(trade.orders, nextId) && Evolves(old(trade.orders), trade.orders)
      ensures OnlyOpenChange(old(trade.orders), trade.orders)
      ensures trade.EntrySide() !in sides && trade.ExitSide() !in sides ==> trade.orders == old(trade.orders)
      ensures replacing || trade.EntrySide() !in sides ==> trade.deleted == old(trade.deleted)
      ensures trade.deleted ==> old(trade.deleted) || NoSuccessfulEntry(trade.orders, trade.EntrySide())
      ensures f.None? ==> AllHandled(old(trade.orders), old(calls), calls, sides * {Buy, Sell})
    {
      var ids := OpenIds(trade.orders);
      AtMostOneOpen(trade.orders);
      for i := 0 to |ids|
        invariant Extends(old(calls), calls)
        invariant i == 0 ==> trade.orders == old(trade.orders) && trade.deleted == old(trade.deleted)
        invariant i == 0 ==> calls == old(calls)
        invariant i > 0 ==> Sound(trade.orders, nextId) && Evolves(old(trade.orders), trade.orders)
        invariant i > 0 ==> OnlyOpenChange(old(trade.orders), trade.orders)
        invariant trade.EntrySide() !in sides && trade.ExitSide() !in sides ==> trade.orders == old(trade.orders)
        invariant replacing || trade.EntrySide() !in sides ==> trade.deleted == old(trade.deleted)
        invariant trade.deleted ==> old(trade.deleted) || NoSuccessfulEntry(trade.orders, trade.EntrySide())
        invariant i > 0 ==> Handled(old(calls), calls, ids[0], sides * {Buy, Sell})
      {
        assert ids[i] in ids;
        f := LookUpAndCancel(trade, ids[i], sides, replacing);
        if f.Some? {
          return;
        }
      }
      return None;
    }

    // The body of the loop of cancel_open_orders_of_trade.
    method LookUpAndCancel(trade: Trade, id: nat, sides: set<Side>, replacing: bool) returns (f: Option<Failure>)
      requires Sound(trade.orders, nextId)
      requires exists i :: 0 <= i < |trade.orders| && trade.orders[i].id == id && Regular(trade.orders[i])
                           && trade.orders[i].isOpen
      modifies this`calls, trade`orders, trade`amount, trade`isOpen, trade`deleted
      ensures Extends(old(calls), calls)
      ensures Sound(trade.orders, nextId) && OnlyOrder(old(trade.orders), trade.orders, id)
      ensures Evolves(old(trade.orders), trade.orders) && OnlyOpenChange(old(trade.orders), trade.orders)
      ensures trade.EntrySide() !in sides && trade.ExitSide() !in sides ==> trade.orders == old(trade.orders)
      ensures replacing || trade.EntrySide() !in sides ==> trade.deleted == old(trade.deleted)
      ensures trade.deleted ==> old(trade.deleted) || NoSuccessfulEntry(trade.orders, trade.EntrySide())
      ensures f.None? ==> Handled(old(calls), calls, id, sides * {Buy, Sell})
    {
      var order := Fetch(id);
      SentNow(old(calls), old(calls), Fetched(id, order));
      ghost var sent := calls;
      OpenRows(trade.orders, id, nextId);
      if order.Err? {
        return if IsExchangeError(order.error) then None else Some(order.error);
      }
      if order.value.side.Some? && order.value.side.value in sides {
        var r: Result<bool, Failure> := Ok(false);
        if order.value.side.value == trade.EntrySide() {
          r := HandleCancelEnter(trade, order.value, id, replacing);
        } else if order.value.side.value == trade.ExitSide() {
          r := HandleCancelExit(trade, order.value, id);
        }
        StillSent(old(calls), sent, calls);
        StillAsked(old(calls), sent, calls);
        OnlyOpenChanged(old(trade.orders), trade.orders, id, nextId);
        return if r.Err? then Some(r.error) else None;
      }
      return None;
    }

    // The gate in front of every order on an existing trade. An open order just like the new one is kept.
    method HandleSimilarOpenOrder(trade: Trade, price: real, amount: real, side: Side)
      returns (r: Result<bool, Failure>)
      requires Sound(trade.orders, nextId)
      modifies this`calls, trade`orders, trade`amount, trade`isOpen, trade`deleted
      ensures Extends(old(calls), calls)
      ensures Sound(trade.orders, nextId) && Evolves(old(trade.orders), trade.orders)
      ensures trade.deleted == old(trade.deleted) && |trade.orders| == |old(trade.orders)|
      ensures HasSimilar(old(trade.orders), side, price, amount) || !HasOpenOrders(old(trade.orders)) ==>
                trade.orders == old(trade.orders) && calls == old(calls)
      ensures HasSimilar(old(trade.orders), side, price, amount) ==> r == Ok(true)
      ensures !HasOpenOrders(old(trade.orders)) ==> r == Ok(false)
      ensures r.Ok? ==> (r.value <==> HasOpenOrders(trade.orders))
      ensures !HasSimilar(old(trade.orders), side, price, amount) && r.Ok? ==>
                AllHandled(old(trade.orders), old(calls), calls, {Buy, Sell})
    {
      SelectOpenIsLatest(trade.orders, side);
      AtMostOneOpen(trade.orders);
      if HasOpenOrders(trade.orders) {
        var oo := SelectOpen(trade.orders, side);
        if oo.Some? && Similar(oo.value, side, price, amount) {
          return Ok(true);
        }
        var f := CancelOpenOrdersOfTrade(trade, {trade.EntrySide(), trade.ExitSide()}, true);
        if f.Some? {
          return Err(f.value);
        }
        return Ok(HasOpenOrders(trade.orders));
      }
      return Ok(false);
    }

    // ---- placing ----

    method Place(trade: Trade, rec: Record, side: Side, price: real, amount: real)
      requires Sound(trade.orders, rec.id) && nextId == rec.id + 1
      requires side != Stoploss && !HasOpenOrders(trade.orders)
      modifies trade`orders
      ensures Sound(trade.orders, nextId) && Evolves(old(trade.orders), trade.orders)
      ensures |trade.orders| == |old(trade.orders)| + 1 && Placed(trade.orders, side, price, amount)
      ensures trade.orders[|trade.orders| - 1] == Parse(rec, side, price, amount)
      ensures trade.orders[..|old(trade.orders)|] == old(trade.orders)
    {
      AppendSoundExactly(trade.orders, Parse(rec, side, price, amount), rec.id);
      trade.orders := trade.orders + [Parse(rec, side, price, amount)];
    }

    // What the exchange makes of an order that it did not simply accept: one that it turned down unfilled leaves no
    // trace.
    method TurnedDown(rec: Record) returns (r: Result<bool, Failure>)
      ensures rec.status == Some(Expired) || rec.status == Some(Rejected) ==>
                r == if rec.filled.None? then Err(Operational) else Ok(rec.filled.value == 0.0)
      ensures rec.status != Some(Expired) && rec.status != Some(Rejected) ==> r == Ok(false)
    {
      if rec.status in {Some(Expired), Some(Rejected)} {
        if rec.filled.None? {
          return Err(Operational);
        }
        return Ok(rec.filled.value == 0.0);
      }
      return Ok(false);
    }

    method ExecuteEntry(trade: Trade, price: real, amount: real, replacing: bool) returns (r: Result<bool, Failure>)
      requires Sound(trade.orders, nextId)
      modifies this, trade
      ensures Extends(old(calls), calls) && Tried(old(calls), calls)
      ensures Sound(trade.orders, nextId) && nextId >= old(nextId) && Evolves(old(trade.orders), trade.orders)
      ensures r == Ok(true) ==>
                && |trade.orders| == |old(trade.orders)| + 1
                && Placed(trade.orders, trade.EntrySide(), price, amount)
                && SentSince(old(calls), calls, Created(trade.EntrySide(), price, amount, false))
      ensures |trade.orders| != |old(trade.orders)| ==>
                |trade.orders| == |old(trade.orders)| + 1 && Placed(trade.orders, trade.EntrySide(), price, amount)
      ensures r == Ok(false) ==>
                && |trade.orders| == |old(trade.orders)|
                && (SentSince(old(calls), calls, Confirmed(false)) || HasOpenOrders(trade.orders)
                    || SentSince(old(calls), calls, Created(trade.EntrySide(), price, amount, false)))
      ensures r == Ok(false) && !SentSince(old(calls), calls, Confirmed(false)) ==>
                || HasSimilar(old(trade.orders), trade.EntrySide(), price, amount)
                || AllHandled(old(trade.orders), old(calls), calls, {Buy, Sell})
      ensures trade.deleted ==> old(trade.deleted) || NoSuccessfulEntry(trade.orders, trade.EntrySide())
      ensures r == Ok(false) || replacing ==> trade.deleted == old(trade.deleted)
    {
      var f := Prepare();
      if f.Some? {
        SentNow(old(calls), old(calls), Broke(f.value));
        return Err(f.value);
      }
      var go := Confirm();
      SentNow(old(calls), old(calls), Confirmed(go));
      if !go {
        return Ok(false);
      }
      ghost var agreed := calls;
      var similar := HandleSimilarOpenOrder(trade, price, amount, trade.EntrySide());
      StillSent(old(calls), agreed, calls);
      HandledLater(old(trade.orders), old(calls), agreed, calls);
      if similar.Err? || similar.value {
        return if similar.Err? then Err(similar.error) else Ok(false);
      }
      ghost var gated, rows := calls, trade.orders;
      r := PlaceEntry(trade, price, amount, replacing);
      StillSent(old(calls), gated, calls);
      HandledLater(old(trade.orders), old(calls), gated, calls);
      StillAsked(old(calls), gated, calls);
      EvolvesTransitive(old(trade.orders), rows, trade.orders);
    }

    // The second half of execute_entry: to the exchange and into the table.
    method PlaceEntry(trade: Trade, price: real, amount: real, replacing: bool) returns (r: Result<bool, Failure>)
      requires Sound(trade.orders, nextId) && !HasOpenOrders(trade.orders)
      modifies this, trade
      ensures Extends(old(calls), calls)
      ensures SentSince(old(calls), calls, Created(trade.EntrySide(), price, amount, false))
      ensures Sound(trade.orders, nextId) && nextId >= old(nextId) && Evolves(old(trade.orders), trade.orders)
      ensures r == Ok(true) ==> |trade.orders| == |old(trade.orders)| + 1
      ensures |trade.orders| != |old(trade.orders)| ==>
                |trade.orders| == |old(trade.orders)| + 1 && Placed(trade.orders, trade.EntrySide(), price, amount)
      ensures r == Ok(false) ==> trade.orders == old(trade.orders)
      ensures trade.deleted ==> old(trade.deleted) || NoSuccessfulEntry(trade.orders, trade.EntrySide())
      ensures r == Ok(false) || replacing ==> trade.deleted == old(trade.deleted)
    {
      var created := CreateOrder(trade.EntrySide(), price, amount, HasOpenOrders(trade.orders));
      SentNow(old(calls), old(calls), Created(trade.EntrySide(), price, amount, false));
      ghost var sent := calls;
      if created.Err? {
        return Err(created.error);
      }
      var turnedDown := TurnedDown(created.value);
      if turnedDown.Err? || turnedDown.value {
        return if turnedDown.Err? then Err(turnedDown.error) else Ok(false);
      }
      var f := Elsewhere();
      if f.Some? {
        return Err(f.value);
      }
      trade.isOpen := true;
      Place(trade, created.value, trade.EntrySide(), price, amount);
      ghost var placed := trade.orders;
      r := AfterEntry(trade, created.value, replacing, price, amount);
      StillSent(old(calls), sent, calls);
      EvolvesTransitive(old(trade.orders), placed, trade.orders);
    }

    // What becomes of an entry that was just placed.
    method AfterEntry(trade: Trade, rec: Record, replacing: bool, ghost price: real, ghost amount: real)
      returns (r: Result<bool, Failure>)
      requires Sound(trade.orders, nextId) && trade.orders != []
      requires trade.orders[|trade.orders| - 1] == Parse(rec, trade.EntrySide(), price, amount)
      requires Placed(trade.orders, trade.EntrySide(), price, amount)
      modifies this`calls, trade
      ensures Extends(old(calls), calls)
      ensures Sound(trade.orders, nextId) && |trade.orders| == |old(trade.orders)|
      ensures Evolves(old(trade.orders), trade.orders) && Placed(trade.orders, trade.EntrySide(), price, amount)
      ensures r.Ok? ==> r.value
      ensures trade.deleted ==> old(trade.deleted) || NoSuccessfulEntry(trade.orders, trade.EntrySide())
      ensures replacing || !CanceledEmpty(rec) ==> trade.deleted == old(trade.deleted)
      ensures r.Ok? && CanceledEmpty(rec) && !replacing && rec.status != Some(Closed) &&
              OnlyUnfilled(old(trade.orders), rec.id, trade.EntrySide()) ==>
                trade.deleted
    {
      var f := Elsewhere();
      if f.Some? {
        return Err(f.value);
      }
      if rec.status == Some(Closed) {
        f := CancelStoplossOnExchange(trade, OpenStops(trade.orders));
        if f.Some? {
          return Err(f.value);
        }
      }
      if NonOpen(rec.status) {
        ghost var before, looked := trade.orders, calls;
        AfterSameRegular(old(trade.orders), before, trade.EntrySide(), price, amount);
        r := FinishEntry(trade, rec, replacing, price, amount);
        StillSent(old(calls), looked, calls);
        EvolvesTransitive(old(trade.orders), before, trade.orders);
        return;
      }
      return Ok(true);
    }

    // An entry that was over at once, unfilled, takes a trade along that holds nothing else.
    method FinishEntry(trade: Trade, rec: Record, replacing: bool, ghost price: real, ghost amount: real)
      returns (r: Result<bool, Failure>)
      requires Sound(trade.orders, nextId) && trade.orders != [] && NonOpen(rec.status)
      requires trade.orders[|trade.orders| - 1] == Parse(rec, trade.EntrySide(), price, amount)
      requires Placed(trade.orders, trade.EntrySide(), price, amount)
      modifies this`calls, trade
      ensures Extends(old(calls), calls)
      ensures Sound(trade.orders, nextId) && |trade.orders| == |old(trade.orders)|
      ensures Evolves(old(trade.orders), trade.orders) && Placed(trade.orders, trade.EntrySide(), price, amount)
      ensures r.Ok? ==> r.value
      ensures trade.deleted ==> old(trade.deleted) || NoSuccessfulEntry(trade.orders, trade.EntrySide())
      ensures replacing || !CanceledEmpty(rec) ==> trade.deleted == old(trade.deleted)
      ensures CanceledEmpty(rec) && !replacing && OnlyUnfilled(old(trade.orders), rec.id, trade.EntrySide()) ==>
                trade.deleted
    {
      TakenOverAgain(trade.orders, rec, trade.EntrySide(), price, amount, nextId);
      var u := UpdateTradeState(trade, rec);
      if u.Err? {
        return Err(u.error);
      }
      ghost var updated, looked := trade.orders, calls;
      AfterSameRegular(old(trade.orders), updated, trade.EntrySide(), price, amount);
      if u.value && !replacing {
        var c := HandleCancelEnter(trade, rec, rec.id, false);
        StillSent(old(calls), looked, calls);
        AfterOnlyOrder(old(trade.orders), updated, trade.orders, rec.id, trade.EntrySide(), price, amount);
        if c.Err? {
          return Err(c.error);
        }
      }
      return Ok(true);
    }

    // execute_entry without a trade: the first order of a new one.
    method EnterNewTrade(isShort: bool, price: real, amount: real) returns (r: Result<bool, Failure>, trade: Trade?)
      modifies this
      ensures Extends(old(calls), calls) && nextId >= old(nextId)
      ensures trade != null ==>
                && fresh(trade) && trade.isShort == isShort && Sound(trade.orders, nextId) && |trade.orders| == 1
                && Placed(trade.orders, trade.EntrySide(), price, amount)
      ensures r == Ok(true) ==> trade != null
      ensures r == Ok(false) ==>
                && trade == null
                && (SentSince(old(calls), calls, Confirmed(false))
                    || SentSince(old(calls), calls, Created(if isShort then Sell else Buy, price, amount, false)))
    {
      trade := null;
      var f := Elsewhere();
      if f.Some? {
        return Err(f.value), null;
      }
      var go := Confirm();
      SentNow(old(calls), old(calls), Confirmed(go));
      if !go {
        return Ok(false), null;
      }
      ghost var agreed := calls;
      var created := CreateOrder(if isShort then Sell else Buy, price, amount, false);
      SentNow(old(calls), agreed, Created(if isShort then Sell else Buy, price, amount, false));
      if created.Err? {
        return Err(created.error), null;
      }
      var turnedDown := TurnedDown(created.value);
      if turnedDown.Err? || turnedDown.value {
        return (if turnedDown.Err? then Err(turnedDown.error) else Ok(false)), null;
      }
      f := Elsewhere();
      if f.Some? {
        return Err(f.value), null;
      }
      ghost var sent := calls;
      trade := new Trade(isShort, []);
      Place(trade, created.value, trade.EntrySide(), price, amount);
      r := AfterEntry(trade, created.value, false, price, amount);
      StillSent(old(calls), sent, calls);
    }

    method ExecuteTradeExit(trade: Trade, price: real, amount: real) returns (r: Result<bool, Failure>)
      requires Sound(trade.orders, nextId)
      modifies this, trade
      ensures Extends(old(calls), calls) && calls != old(calls) && (r.Ok? ==> Tried(old(calls), calls))
      ensures r.Ok? && stoplossBlocksAssets ==>
                forall id :: id in old(OpenStops(trade.orders)) ==> SentSince(old(calls), calls, CancelSent(id))
      ensures |trade.orders| != |old(trade.orders)| ==>
                |trade.orders| == |old(trade.orders)| + 1 && Placed(trade.orders, trade.ExitSide(), price, amount)
      ensures Sound(trade.orders, nextId) && nextId >= old(nextId) && Evolves(old(trade.orders), trade.orders)
      ensures r == Ok(true) ==>
                && |trade.orders| == |old(trade.orders)| + 1
                && Placed(trade.orders, trade.ExitSide(), price, amount)
                && SentSince(old(calls), calls, Created(trade.ExitSide(), price, amount, false))
      ensures r == Ok(false) ==>
                && |trade.orders| == |old(trade.orders)|
                && (SentSince(old(calls), calls, Confirmed(false)) || HasOpenOrders(trade.orders)
                    || SentSince(old(calls), calls, Created(trade.ExitSide(), price, amount, false)))
      ensures r == Ok(false) && !SentSince(old(calls), calls, Confirmed(false)) ==>
                || HasSimilar(old(trade.orders), trade.ExitSide(), price, amount)
                || AllHandled(old(trade.orders), old(calls), calls, {Buy, Sell})
      ensures trade.deleted == old(trade.deleted)
    {
      var f := Prepare();
      if f.Some? {
        return Err(f.value);
      }
      if stoplossBlocksAssets {
        f := CancelStoplossOnExchange(trade, OpenStops(trade.orders));
        if f.Some? {
          return Err(f.value);
        }
      }
      ghost var looked, rows := calls, trade.orders;
      SameOpenRows(old(trade.orders), rows, trade.ExitSide());
      r := ConfirmExit(trade, price, amount);
      StillSent(old(calls), looked, calls);
      StillAsked(old(calls), looked, calls);
      HandledLater(old(trade.orders), old(calls), looked, calls);
      EvolvesTransitive(old(trade.orders), rows, trade.orders);
    }

    // The strategy has the last word on an exit.
    method ConfirmExit(trade: Trade, price: real, amount: real) returns (r: Result<bool, Failure>)
      requires Sound(trade.orders, nextId)
      modifies this, trade
      ensures Extends(old(calls), calls) && calls != old(calls) && Tried(old(calls), calls)
      ensures |trade.orders| != |old(trade.orders)| ==>
                |trade.orders| == |old(trade.orders)| + 1 && Placed(trade.orders, trade.ExitSide(), price, amount)
      ensures Sound(trade.orders, nextId) && nextId >= old(nextId) && Evolves(old(trade.orders), trade.orders)
      ensures r == Ok(true) ==>
                && |trade.orders| == |old(trade.orders)| + 1
                && Placed(trade.orders, trade.ExitSide(), price, amount)
                && SentSince(old(calls), calls, Created(trade.ExitSide(), price, amount, false))
      ensures r == Ok(false) ==>
                && |trade.orders| == |old(trade.orders)|
                && (SentSince(old(calls), calls, Confirmed(false)) || HasOpenOrders(trade.orders)
                    || SentSince(old(calls), calls, Created(trade.ExitSide(), price, amount, false)))
      ensures r == Ok(false) && !SentSince(old(calls), calls, Confirmed(false)) ==>
                || HasSimilar(old(trade.orders), trade.ExitSide(), price, amount)
                || AllHandled(old(trade.orders), old(calls), calls, {Buy, Sell})
      ensures trade.deleted == old(trade.deleted)
    {
      var f := Prepare();
      if f.Some? {
        SentNow(old(calls), old(calls), Broke(f.value));
        return Err(f.value);
      }
      var confirmed := Confirm();
      SentNow(old(calls), old(calls), Confirmed(confirmed));
      if !confirmed {
        return Ok(false);
      }
      ghost var agreed := calls;
      r := PlaceExit(trade, price, amount);
      StillSent(old(calls), agreed, calls);
      StillAsked(old(calls), agreed, calls);
      HandledLater(old(trade.orders), old(calls), agreed, calls);
    }

    // The second half of execute_trade_exit: through the gate, to the exchange, into the table.
    method PlaceExit(trade: Trade, price: real, amount: real) returns (r: Result<bool, Failure>)
      requires Sound(trade.orders, nextId)
      modifies this, trade
      ensures Extends(old(calls), calls)
      ensures |trade.orders| != |old(trade.orders)| ==>
                |trade.orders| == |old(trade.orders)| + 1 && Placed(trade.orders, trade.ExitSide(), price, amount)
      ensures Sound(trade.orders, nextId) && nextId >= old(nextId) && Evolves(old(trade.orders), trade.orders)
      ensures r == Ok(true) ==>
                && |trade.orders| == |old(trade.orders)| + 1
                && Placed(trade.orders, trade.ExitSide(), price, amount)
                && SentSince(old(calls), calls, Created(trade.ExitSide(), price, amount, false))
      ensures r == Ok(false) ==>
                && |trade.orders| == |old(trade.orders)|
                && (HasOpenOrders(trade.orders)
                    || SentSince(old(calls), calls, Created(trade.ExitSide(), price, amount, false)))
      ensures HasSimilar(old(trade.orders), trade.ExitSide(), price, amount) ==> r == Ok(false)
      ensures r.Ok? && !HasSimilar(old(trade.orders), trade.ExitSide(), price, amount) ==>
                AllHandled(old(trade.orders), old(calls), calls, {Buy, Sell})
      ensures trade.deleted == old(trade.deleted)
    {
      AtMostOneOpen(trade.orders);
      if HasOpenOrders(trade.orders) {
        var similar := HandleSimilarOpenOrder(trade, price, amount, trade.ExitSide());
        if similar.Err? || similar.value {
          return if similar.Err? then Err(similar.error) else Ok(false);
        }
      }
      ghost var gated, rows := calls, trade.orders;
      r := SendExit(trade, price, amount);
      HandledLater(old(trade.orders), old(calls), gated, calls);
      StillAsked(old(calls), gated, calls);
      EvolvesTransitive(old(trade.orders), rows, trade.orders);
    }

    method SendExit(trade: Trade, price: real, amount: real) returns (r: Result<bool, Failure>)
      requires Sound(trade.orders, nextId) && !HasOpenOrders(trade.orders)
      modifies this, trade
      ensures Extends(old(calls), calls)
      ensures |trade.orders| != |old(trade.orders)| ==>
                |trade.orders| == |old(trade.orders)| + 1 && Placed(trade.orders, trade.ExitSide(), price, amount)
      ensures SentSince(old(calls), calls, Created(trade.ExitSide(), price, amount, false))
      ensures Sound(trade.orders, nextId) && nextId >= old(nextId) && Evolves(old(trade.orders), trade.orders)
      ensures r == Ok(true) ==>
                |trade.orders| == |old(trade.orders)| + 1 && Placed(trade.orders, trade.ExitSide(), price, amount)
      ensures r == Ok(false) ==> |trade.orders| == |old(trade.orders)|
      ensures trade.deleted == old(trade.deleted)
    {
      var created := CreateOrder(trade.ExitSide(), price, amount, HasOpenOrders(trade.orders));
      SentNow(old(calls), old(calls), Created(trade.ExitSide(), price, amount, false));
      ghost var sent := calls;
      if created.Err? {
        if created.error.InsufficientFunds? {
          var f := HandleInsufficientFunds(trade);
          StillSent(old(calls), sent, calls);
          return if f.Some? then Err(f.value) else Ok(false);
        }
        return Err(created.error);
      }
      Place(trade, created.value, trade.ExitSide(), price, amount);
      ghost var placed := trade.orders;
      r := AfterExit(trade, created.value, price, amount);
      StillSent(old(calls), sent, calls);
      EvolvesTransitive(old(trade.orders), placed, trade.orders);
    }

    method AfterExit(trade: Trade, rec: Record, ghost price: real, ghost amount: real)
      returns (r: Result<bool, Failure>)
      requires Sound(trade.orders, nextId) && trade.orders != [] && trade.orders[|trade.orders| - 1].id == rec.id
      requires Placed(trade.orders, trade.ExitSide(), price, amount)
      requires trade.orders[|trade.orders| - 1].isOpen == !NonOpen(rec.status)
      modifies this`calls, trade`orders, trade`amount, trade`isOpen
      ensures Extends(old(calls), calls)
      ensures Sound(trade.orders, nextId) && |trade.orders| == |old(trade.orders)|
      ensures Evolves(old(trade.orders), trade.orders) && Placed(trade.orders, trade.ExitSide(), price, amount)
      ensures r.Ok? ==> r.value
    {
      var f := Elsewhere();
      if f.Some? {
        return Err(f.value);
      }
      if rec.status in {Some(Closed), Some(Expired)} {
        var u := UpdateTradeState(trade, rec);
        if u.Err? {
          return Err(u.error);
        }
      }
      return Ok(true);
    }

    // Every row that counts as open is looked up again.
    method HandleInsufficientFunds(trade: Trade) returns (f: Option<Failure>)
      requires Sound(trade.orders, nextId)
      modifies this`calls, trade`orders, trade`amount, trade`isOpen
      ensures Extends(old(calls), calls)
      ensures Sound(trade.orders, nextId) && |trade.orders| == |old(trade.orders)|
      ensures Evolves(old(trade.orders), trade.orders)
      ensures f.None? ==> forall id :: id in OpenIds(old(trade.orders)) ==> WasFetched(old(calls), calls, id)
    {
      for i := 0 to |trade.orders|
        invariant Extends(old(calls), calls)
        invariant Sound(trade.orders, nextId) && |trade.orders| == |old(trade.orders)|
        invariant Evolves(old(trade.orders), trade.orders) && StillOpen(old(trade.orders), trade.orders, i)
        invariant LookedUp(old(trade.orders), i, old(calls), calls)
      {
        var o := trade.orders[i];
        ghost var before, rows := calls, trade.orders;
        if o.isOpen {
          var fo := Fetch(o.id);
          SentNow(old(calls), before, Fetched(o.id, fo));
          ghost var sent := calls;
          if fo.Err? {
            if !IsExchangeError(fo.error) {
              return Some(fo.error);
            }
          } else {
            var u := UpdateOrderState(trade, fo.value, i);
            StillSent(old(calls), sent, calls);
            if u.Err? && !IsExchangeError(u.error) {
              return Some(u.error);
            }
          }
          StillSent(old(calls), before, calls);
          EvolvesTransitive(old(trade.orders), rows, trade.orders);
        }
        StillOpenRest(old(trade.orders), rows, trade.orders, i, nextId);
      }
      forall id | id in OpenIds(old(trade.orders)) ensures WasFetched(old(calls), calls, id) {
        OpenIdsExactly(old(trade.orders), id);
      }
      return None;
    }

    // update_trade_state for a row of either kind, a regular one still being open.
    method UpdateOrderState(trade: Trade, rec: Record, i: nat) returns (r: Result<bool, Failure>)
      requires Sound(trade.orders, nextId) && i < |trade.orders| && trade.orders[i].id == rec.id
      requires Regular(trade.orders[i]) ==> trade.orders[i].isOpen
      modifies this`calls, trade`orders, trade`amount, trade`isOpen
      ensures Extends(old(calls), calls)
      ensures Sound(trade.orders, nextId) && OnlyOrder(old(trade.orders), trade.orders, rec.id)
      ensures r == Ok(true) <==> CanceledEmpty(rec)
      ensures NonOpen(rec.status) ==> ClosedAt(trade.orders, rec.id)
    {
      if Regular(trade.orders[i]) {
        r := UpdateTradeState(trade, rec);
      } else {
        r := UpdateStoplossState(trade, rec, OpenStops(trade.orders) + {rec.id});
      }
    }

    // ---- emergency exits and replacements ----

    method EmergencyExit(trade: Trade, price: real, amount: real) returns (f: Option<Failure>)
      requires Sound(trade.orders, nextId)
      modifies this, trade
      ensures Extends(old(calls), calls)
      ensures Sound(trade.orders, nextId) && nextId >= old(nextId) && Evolves(old(trade.orders), trade.orders)
      ensures trade.deleted == old(trade.deleted) && (f.Some? ==> f.value == Operational)
    {
      var r := ExecuteTradeExit(trade, price, amount);
      return if r.Err? && !IsDependency(r.error) then Some(r.error) else None;
    }

    // An order of the entry side is cancelled as an entry, any other as an exit.
    method HandleCancelOrder(trade: Trade, order: Record, id: nat, replacing: bool)
      returns (r: Result<bool, Failure>)
      requires Sound(trade.orders, nextId) && order.id == id
      requires OpenAt(trade.orders, id) || NonOpen(order.status)
      modifies this, trade
      ensures Extends(old(calls), calls)
      ensures Sound(trade.orders, nextId) && nextId >= old(nextId) && Evolves(old(trade.orders), trade.orders)
      ensures NonOpen(order.status) ==> OnlyOrder(old(trade.orders), trade.orders, id)
      ensures replacing ==> |trade.orders| == |old(trade.orders)|
      ensures replacing || r == Ok(false) ==> nextId == old(nextId)
      ensures r == Ok(true) && !NonOpen(order.status) ==> SentSince(old(calls), calls, CancelSent(id))
      ensures r.Ok? && !NonOpen(order.status) && !PartlyFilled(order) ==> SentSince(old(calls), calls, CancelSent(id))
      ensures replacing || r == Ok(false) || order.side != Some(trade.EntrySide()) ==>
                trade.deleted == old(trade.deleted)
      ensures trade.deleted ==> old(trade.deleted) || NoSuccessfulEntry(trade.orders, trade.EntrySide())
      ensures NonOpen(order.status) && order.filled.Some? && !Negligible(order.filled.value) ==>
                trade.deleted == old(trade.deleted) && r != Ok(true)
      ensures NonOpen(order.status) && order.filled.Some? && Negligible(order.filled.value) &&
              order.side == Some(trade.EntrySide()) ==>
                && r != Ok(false)
                && (!replacing && OnlyUnfilled(old(trade.orders), id, trade.EntrySide()) ==> trade.deleted)
      ensures NonOpen(order.status) && order.side != Some(trade.EntrySide()) ==>
                r != Ok(true) && ClosedAt(trade.orders, id)
    {
      if order.side == Some(trade.EntrySide()) {
        r := HandleCancelEnter(trade, order, id, replacing);
      } else {
        r := HandleCancelExit(trade, order, id);
        ghost var cancelled, sent := trade.orders, calls;
        if r.Ok? && !replacing {
          var timedOutTooOften := Decide();
          if r.value && timedOutTooOften {
            var price: real, amount: real := *, *;
            var f := EmergencyExit(trade, price, amount);
            StillSent(old(calls), sent, calls);
            EvolvesTransitive(old(trade.orders), cancelled, trade.orders);
            if f.Some? {
              return Err(f.value);
            }
          }
        }
      }
    }

    method ReplaceOrderFailed(trade: Trade) returns (f: Option<Failure>)
      modifies trade`deleted
      ensures f.None? ==>
                (trade.deleted <==> old(trade.deleted) || NoSuccessfulEntry(trade.orders, trade.EntrySide()))
      ensures f.Some? ==> trade.deleted == old(trade.deleted)
    {
      if NoSuccessfulEntry(trade.orders, trade.EntrySide()) {
        f := Elsewhere();
        if f.Some? {
          return;
        }
        trade.deleted := true;
      }
      return None;
    }

    // The order is cancelled first. `failed` says that no new order came about, though one may have been wanted.
    method HandleReplaceOrder(trade: Trade, order: Record, id: nat, newPrice: Option<real>, amount: real, isEntry: bool)
      returns (f: Option<Failure>, ghost failed: bool)
      requires Sound(trade.orders, nextId) && order.id == id
      requires OpenAt(trade.orders, id) || NonOpen(order.status)
      modifies this, trade
      ensures Extends(old(calls), calls)
      ensures Sound(trade.orders, nextId) && nextId >= old(nextId) && Evolves(old(trade.orders), trade.orders)
      ensures failed && f.None? && NoSuccessfulEntry(trade.orders, trade.EntrySide()) ==> trade.deleted
      ensures failed && f.None? && newPrice.Some? ==>
                (trade.deleted <==> old(trade.deleted) || NoSuccessfulEntry(trade.orders, trade.EntrySide()))
      ensures f.None? && !NonOpen(order.status) && (!PartlyFilled(order) || !failed) ==>
                SentSince(old(calls), calls, CancelSent(id))
      ensures f.None? && NonOpen(order.status) && order.side != Some(trade.EntrySide()) ==>
                failed && nextId == old(nextId)
      ensures f.None? && NonOpen(order.status) && order.filled.Some? && !Negligible(order.filled.value) ==>
                failed && nextId == old(nextId)
      ensures f.None? && NonOpen(order.status) && order.filled.Some? && Negligible(order.filled.value) &&
              order.side == Some(trade.EntrySide()) && isEntry && newPrice.Some? ==>
                Tried(old(calls), calls)
      ensures f.None? && !failed && newPrice.Some? ==>
                && |trade.orders| == |old(trade.orders)| + 1 && trade.deleted == old(trade.deleted)
                && Placed(trade.orders, if isEntry then trade.EntrySide() else trade.ExitSide(), newPrice.value, amount)
      ensures trade.deleted ==> old(trade.deleted) || NoSuccessfulEntry(trade.orders, trade.EntrySide())
    {
      failed := false;
      var replacing := newPrice.Some?;
      var res := HandleCancelOrder(trade, order, id, replacing);
      if res.Err? {
        return Some(res.error), failed;
      }
      if !res.value {
        failed := true;
        f := ReplaceOrderFailed(trade);
        return;
      }
      if newPrice.Some? {
        ghost var cancelled, sent := trade.orders, calls;
        f, failed := PlaceReplacement(trade, newPrice.value, amount, isEntry);
        StillSent(old(calls), sent, calls);
        StillAsked(old(calls), sent, calls);
        EvolvesTransitive(old(trade.orders), cancelled, trade.orders);
        return;
      }
      return None, failed;
    }

    // The second half of handle_replace_order.
    method PlaceReplacement(trade: Trade, price: real, amount: real, isEntry: bool)
      returns (f: Option<Failure>, ghost failed: bool)
      requires Sound(trade.orders, nextId)
      modifies this, trade
      ensures Extends(old(calls), calls) && (isEntry ==> Tried(old(calls), calls))
      ensures Sound(trade.orders, nextId) && nextId >= old(nextId) && Evolves(old(trade.orders), trade.orders)
      ensures f.None? && !failed ==>
                && |trade.orders| == |old(trade.orders)| + 1 && trade.deleted == old(trade.deleted)
                && Placed(trade.orders, if isEntry then trade.EntrySide() else trade.ExitSide(), price, amount)
      ensures f.None? && failed ==>
                (trade.deleted <==> old(trade.deleted) || NoSuccessfulEntry(trade.orders, trade.EntrySide()))
      ensures trade.deleted ==> old(trade.deleted) || NoSuccessfulEntry(trade.orders, trade.EntrySide())
    {
      failed := false;
      var placed: Result<bool, Failure>;
      if isEntry {
        placed := ExecuteEntry(trade, price, amount, true);
      } else {
        placed := ExecuteTradeExit(trade, price, amount);
      }
      if placed.Err? && !IsDependency(placed.error) {
        return Some(placed.error), failed;
      }
      if placed.Err? || !placed.value {
        failed := true;
        f := ReplaceOrderFailed(trade);
        return;
      }
      return None, failed;
    }

    // replace_order: only on a new candle, and only if the strategy wants another price.
    method ReplaceOrder(trade: Trade, order: Record, id: nat) returns (f: Option<Failure>)
      requires Sound(trade.orders, nextId) && order.id == id
      requires OpenAt(trade.orders, id) || NonOpen(order.status)
      modifies this, trade
      ensures Extends(old(calls), calls)
      ensures Sound(trade.orders, nextId) && nextId >= old(nextId) && Evolves(old(trade.orders), trade.orders)
      ensures trade.deleted ==> old(trade.deleted) || NoSuccessfulEntry(trade.orders, trade.EntrySide())
    {
      f := Elsewhere();
      if f.Some? {
        return;
      }
      var adjust := Decide();
      if adjust {
        var adjustedPrice: Option<real>, amount: real, isEntry: bool := *, *, *;
        ghost var failed;
        f, failed := HandleReplaceOrder(trade, order, id, adjustedPrice, amount, isEntry);
      }
    }

    // The body of manage_open_orders for one trade.
    method ManageOpenOrders(trade: Trade) returns (f: Option<Failure>)
      requires Sound(trade.orders, nextId)
      modifies this, trade
      ensures Extends(old(calls), calls)
      ensures Sound(trade.orders, nextId) && nextId >= old(nextId) && Evolves(old(trade.orders), trade.orders)
      ensures trade.deleted ==> old(trade.deleted) || NoSuccessfulEntry(trade.orders, trade.EntrySide())
      ensures f.None? ==> forall id :: id in OpenIds(old(trade.orders)) ==> WasFetched(old(calls), calls, id)
    {
      var ids := OpenIds(trade.orders);
      AtMostOneOpen(trade.orders);
      for i := 0 to |ids|
        invariant Extends(old(calls), calls)
        invariant Sound(trade.orders, nextId) && nextId >= old(nextId) && Evolves(old(trade.orders), trade.orders)
        invariant i == 0 ==> trade.orders == old(trade.orders) && trade.deleted == old(trade.deleted)
        invariant i == 0 ==> calls == old(calls)
        invariant trade.deleted ==> old(trade.deleted) || NoSuccessfulEntry(trade.orders, trade.EntrySide())
        invariant i > 0 ==> WasFetched(old(calls), calls, ids[0])
      {
        assert ids[i] in ids;
        var order := Fetch(ids[i]);
        SentNow(old(calls), old(calls), Fetched(ids[i], order));
        ghost var sent := calls;
        if order.Err? {
          if !IsExchangeError(order.error) {
            return Some(order.error);
          }
        } else {
          OpenRows(trade.orders, ids[i], nextId);
          ghost var timedOut;
          f, timedOut := ManageOpenOrder(trade, order.value, ids[i]);
          StillSent(old(calls), sent, calls);
          if f.Some? {
            return;
          }
        }
      }
      return None;
    }

    // What is over is taken over, what is over and unfilled takes its trade along, what timed out is cancelled.
    method ManageOpenOrder(trade: Trade, order: Record, id: nat) returns (f: Option<Failure>, ghost timedOut: bool)
      requires Sound(trade.orders, nextId) && order.id == id && OpenAt(trade.orders, id)
      modifies this, trade
      ensures Extends(old(calls), calls)
      ensures Sound(trade.orders, nextId) && nextId >= old(nextId) && Evolves(old(trade.orders), trade.orders)
      ensures trade.deleted ==> old(trade.deleted) || NoSuccessfulEntry(trade.orders, trade.EntrySide())
      ensures order.status != Some(Open) && !CanceledEmpty(order) ==>
                && trade.deleted == old(trade.deleted)
                && SameRegular(Updated(old(trade.orders), order), trade.orders)
      ensures CanceledEmpty(order) && order.side == Some(trade.EntrySide()) &&
              OnlyUnfilled(Updated(old(trade.orders), order), id, trade.EntrySide()) ==>
                trade.deleted
      ensures f.None? && order.status == Some(Open) && timedOut && !PartlyFilled(order) ==>
                SentSince(old(calls), calls, CancelSent(id))
    {
      timedOut := false;
      var fullyCancelled := UpdateTradeState(trade, order);
      if fullyCancelled.Err? {
        return Some(fullyCancelled.error), timedOut;
      }
      ghost var updated, sent := trade.orders, calls;
      if order.status == Some(Open) || fullyCancelled.value {
        OpenAfterUpdate(old(trade.orders), updated, order, nextId);
        var late := Decide();
        timedOut := late;
        if fullyCancelled.value || late {
          var r := HandleCancelOrder(trade, order, id, false);
          f := if r.Err? then Some(r.error) else None;
          StillAsked(old(calls), sent, calls);
        } else {
          f := ReplaceOrder(trade, order, id);
          StillAsked(old(calls), sent, calls);
        }
        EvolvesTransitive(old(trade.orders), updated, trade.orders);
        return;
      }
      return None, timedOut;
    }

    // ---- stoploss orders ----

    method CreateStoplossOrder(trade: Trade, stop: real) returns (r: Result<bool, Failure>)
      requires Sound(trade.orders, nextId)
      modifies this, trade
      ensures Extends(old(calls), calls)
      ensures Sound(trade.orders, nextId) && nextId >= old(nextId) && Evolves(old(trade.orders), trade.orders)
      ensures trade.deleted == old(trade.deleted)
      ensures StoplossAsked(old(calls), calls, stop, old(trade.amount))
      ensures r == Ok(true) ==>
                && |trade.orders| == |old(trade.orders)| + 1
                && trade.orders[..|old(trade.orders)|] == old(trade.orders)
                && trade.orders[|old(trade.orders)|].side == Stoploss
                && trade.orders[|old(trade.orders)|].askedPrice == stop
                && trade.orders[|old(trade.orders)|].askedAmount == old(trade.amount)
    {
      var created := CreateOrder(Stoploss, stop, trade.amount, HasOpenOrders(trade.orders));
      SentNow(old(calls), old(calls), Created(Stoploss, stop, trade.amount, HasOpenOrders(trade.orders)));
      ghost var sent := calls;
      if created.Ok? {
        var row := Parse(created.value, Stoploss, stop, trade.amount);
        AppendStopKeepsSound(trade.orders, row, old(nextId));
        trade.orders := trade.orders + [row];
        return Ok(true);
      }
      if created.error.InsufficientFunds? {
        var f := HandleInsufficientFunds(trade);
        StillSent(old(calls), sent, calls);
        return if f.Some? then Err(f.value) else Ok(false);
      }
      if created.error.InvalidOrder? {
        var f := EmergencyExit(trade, stop, trade.amount);
        StillSent(old(calls), sent, calls);
        return if f.Some? then Err(f.value) else Ok(false);
      }
      return if IsExchangeError(created.error) then Ok(false) else Err(created.error);
    }

    // handle_stoploss_on_exchange: the open stoploss orders are looked up, and a trade that has none gets one.
    method HandleStoplossOnExchange(trade: Trade) returns (r: Result<bool, Failure>)
      requires Sound(trade.orders, nextId)
      modifies this, trade
      ensures Extends(old(calls), calls)
      ensures Sound(trade.orders, nextId) && nextId >= old(nextId) && Evolves(old(trade.orders), trade.orders)
      ensures trade.deleted == old(trade.deleted)
      ensures r == Ok(false) ==> forall id :: id in OpenStopIds(old(trade.orders)) ==> WasFetched(old(calls), calls, id)
      ensures OpenStopIds(old(trade.orders)) == [] && old(trade.amount) > 0.0 && old(trade.isOpen) &&
              !(HasOpenOrders(old(trade.orders)) && stoplossBlocksAssets) ==>
                exists stop :: StoplossAsked(old(calls), calls, stop, old(trade.amount))
    {
      var fetched, cancelled := 0, 0;
      var ids := OpenStopIds(trade.orders);
      for i := 0 to |ids|
        invariant Extends(old(calls), calls)
        invariant Sound(trade.orders, nextId) && SameRegular(old(trade.orders), trade.orders)
        invariant nextId == old(nextId) && trade.deleted == old(trade.deleted) && cancelled <= fetched <= i
        invariant i == 0 ==> trade.orders == old(trade.orders) && trade.amount == old(trade.amount)
        invariant i == 0 ==> trade.isOpen == old(trade.isOpen) && calls == old(calls)
        invariant forall j :: 0 <= j < i ==> WasFetched(old(calls), calls, ids[j])
      {
        assert ids[i] in ids;
        StopRows(old(trade.orders), trade.orders, ids[i], nextId);
        ghost var before := calls;
        var slo := Fetch(ids[i]);
        SentNow(old(calls), before, Fetched(ids[i], slo));
        ghost var sent := calls;
        if slo.Ok? {
          fetched := fetched + 1;
          var u := UpdateStoplossState(trade, slo.value, OpenStops(trade.orders) + {ids[i]});
          StillSent(old(calls), sent, calls);
          if u.Err? {
            return Err(u.error);
          }
          if slo.value.status == Some(Canceled) {
            cancelled := cancelled + 1;
          }
          if slo.value.status == Some(Closed) {
            var f := Elsewhere();
            return if f.Some? then Err(f.value) else Ok(true);
          }
        } else if !IsInvalidOrder(slo.error) {
          return Err(slo.error);
        }
      }
      ghost var looked, sent := trade.orders, calls;
      r := SecureTrade(trade, fetched, cancelled);
      StillSent(old(calls), sent, calls);
      EvolvesTransitive(old(trade.orders), looked, trade.orders);
    }

    // The second half of handle_stoploss_on_exchange, with manage_trade_stoploss_orders.
    method SecureTrade(trade: Trade, fetched: nat, cancelled: nat) returns (r: Result<bool, Failure>)
      requires Sound(trade.orders, nextId) && cancelled <= fetched
      modifies this, trade
      ensures Extends(old(calls), calls)
      ensures Sound(trade.orders, nextId) && nextId >= old(nextId) && Evolves(old(trade.orders), trade.orders)
      ensures trade.deleted == old(trade.deleted) && r != Ok(true)
      ensures fetched == cancelled && old(trade.amount) > 0.0 && old(trade.isOpen) &&
              !(HasOpenOrders(old(trade.orders)) && stoplossBlocksAssets) ==>
                exists stop :: StoplossAsked(old(calls), calls, stop, old(trade.amount))
    {
      if trade.amount <= 0.0 || !trade.isOpen || (HasOpenOrders(trade.orders) && stoplossBlocksAssets) {
        return Ok(false);
      }
      var stop: real := *;
      if fetched == 0 {
        var placed := CreateStoplossOrder(trade, stop);
        return if placed.Err? then Err(placed.error) else Ok(false);
      }
      ghost var tried, asked := trade.orders, calls;
      if fetched == cancelled {
        var again := CreateStoplossOrder(trade, stop);
        return if again.Err? then Err(again.error) else Ok(false);
      }
      var moveUp := Decide();
      if moveUp {
        var moved: real := *;
        r := MoveStoploss(trade, moved);
        return;
      }
      return Ok(false);
    }

    // handle_trailing_stoploss_on_exchange once an update is due.
    method MoveStoploss(trade: Trade, stop: real) returns (r: Result<bool, Failure>)
      requires Sound(trade.orders, nextId)
      modifies this, trade
      ensures Extends(old(calls), calls)
      ensures Sound(trade.orders, nextId) && nextId >= old(nextId) && Evolves(old(trade.orders), trade.orders)
      ensures trade.deleted == old(trade.deleted) && r != Ok(true)
      ensures r.Ok? ==> forall id :: id in old(OpenStops(trade.orders)) ==> SentSince(old(calls), calls, CancelSent(id))
      ensures r.Ok? && trade.isOpen ==> exists amount :: StoplossAsked(old(calls), calls, stop, amount)
    {
      var f := CancelStoplossOnExchange(trade, OpenStops(trade.orders));
      if f.Some? {
        return Err(f.value);
      }
      if !trade.isOpen {
        return Ok(false);
      }
      ghost var cancelled, sent, amount := trade.orders, calls, trade.amount;
      var placed := CreateStoplossOrder(trade, stop);
      StoplossAskedLater(old(calls), sent, calls, stop, amount);
      StillSent(old(calls), sent, calls);
      EvolvesTransitive(old(trade.orders), cancelled, trade.orders);
      return if placed.Err? then Err(placed.error) else Ok(false);
    }

    // ---- the rest of an iteration, and the remote commands ----

    // exit_positions for one trade, without the recovery of unknown orders.
    method ExitPosition(trade: Trade) returns (f: Option<Failure>)
      requires Sound(trade.orders, nextId)
      modifies this, trade
      ensures Extends(old(calls), calls)
      ensures Sound(trade.orders, nextId) && nextId >= old(nextId) && Evolves(old(trade.orders), trade.orders)
      ensures trade.deleted == old(trade.deleted) && (f.Some? ==> f.value == Operational)
    {
      var stoplossOnExchange := Decide();
      if stoplossOnExchange {
        var hit := HandleStoplossOnExchange(trade);
        if hit.Err? && !IsInvalidOrder(hit.error) {
          return if IsDependency(hit.error) then None else Some(hit.error);
        }
        if hit == Ok(true) {
          return None;
        }
      }
      if trade.amount > 0.0 && trade.isOpen {
        ghost var before, looked := trade.orders, calls;
        var price: real, exits: seq<bool> := *, *;
        f := TryExits(trade, price, exits);
        EvolvesTransitive(old(trade.orders), before, trade.orders);
        StillSent(old(calls), looked, calls);
        return if f.Some? && IsDependency(f.value) then None else f;
      }
      return None;
    }

    // _check_and_execute_exit: the exit reasons that hold are tried one after the other, until one leads to an order.
    method TryExits(trade: Trade, price: real, exits: seq<bool>) returns (f: Option<Failure>)
      requires Sound(trade.orders, nextId)
      modifies this, trade
      ensures Extends(old(calls), calls)
      ensures Sound(trade.orders, nextId) && nextId >= old(nextId) && Evolves(old(trade.orders), trade.orders)
      ensures trade.deleted == old(trade.deleted)
      ensures true in exits <==> calls != old(calls)
      ensures true !in exits ==> f.None? && trade.orders == old(trade.orders)
    {
      for i := 0 to |exits|
        invariant Extends(old(calls), calls)
        invariant Sound(trade.orders, nextId) && nextId >= old(nextId) && Evolves(old(trade.orders), trade.orders)
        invariant trade.deleted == old(trade.deleted)
        invariant true in exits[..i] <==> calls != old(calls)
        invariant true !in exits[..i] ==> trade.orders == old(trade.orders)
      {
        assert exits[..i + 1] == exits[..i] + [exits[i]];
        if exits[i] {
          ghost var before, asked := trade.orders, calls;
          var r := ExecuteTradeExit(trade, price, trade.amount);
          StillSent(old(calls), asked, calls);
          EvolvesTransitive(old(trade.orders), before, trade.orders);
          if r.Err? {
            return Some(r.error);
          }
          if r.value {
            return None;
          }
        }
      }
      assert exits[..|exits|] == exits;
      return None;
    }

    // check_and_call_adjust_trade_position, with what the strategy wants and whether the limits on adjustments
    // allow it
    method AdjustPosition(trade: Trade, price: real, stake: Option<real>, allowed: bool) returns (f: Option<Failure>)
      requires Sound(trade.orders, nextId)
      modifies this, trade
      ensures Extends(old(calls), calls)
      ensures Sound(trade.orders, nextId) && nextId >= old(nextId) && Evolves(old(trade.orders), trade.orders)
      ensures trade.deleted ==> old(trade.deleted) || NoSuccessfulEntry(trade.orders, trade.EntrySide())
      ensures stake == None || stake == Some(0.0) || !allowed ==>
                trade.orders == old(trade.orders) && calls == old(calls)
      ensures stake.Some? && stake.value > 0.0 && allowed ==>
                && Tried(old(calls), calls)
                && (|trade.orders| != |old(trade.orders)| ==>
                      Placed(trade.orders, trade.EntrySide(), price, stake.value))
      ensures stake.Some? && stake.value < 0.0 && allowed ==>
                && calls != old(calls)
                && (|trade.orders| != |old(trade.orders)| ==>
                      Placed(trade.orders, trade.ExitSide(), price, -stake.value))
    {
      if stake.Some? && stake.value > 0.0 && allowed {
        var r := ExecuteEntry(trade, price, stake.value, false);
        return if r.Err? && !IsDependency(r.error) then Some(r.error) else None;
      }
      if stake.Some? && stake.value < 0.0 && allowed {
        var r := ExecuteTradeExit(trade, price, -stake.value);
        return if r.Err? && !IsDependency(r.error) then Some(r.error) else None;
      }
      return None;
    }

    // __exec_force_exit of rpc.py: open orders are cancelled first; an exit follows unless an entry was cancelled in
    // full or an order is still open.
    method ForceExit(trade: Trade, price: real, amount: real) returns (r: Result<bool, Failure>)
      requires Sound(trade.orders, nextId)
      modifies this, trade
      ensures Extends(old(calls), calls)
      ensures Sound(trade.orders, nextId) && nextId >= old(nextId) && Evolves(old(trade.orders), trade.orders)
      ensures r.Ok? ==> AllHandled(old(trade.orders), old(calls), calls, {Buy, Sell})
      ensures trade.deleted ==> old(trade.deleted) || NoSuccessfulEntry(trade.orders, trade.EntrySide())
      ensures !HasOpenOrders(old(trade.orders)) ==> r != Ok(false) && trade.deleted == old(trade.deleted)
      ensures r == Ok(true) ==>
                || SentSince(old(calls), calls, Created(trade.ExitSide(), price, amount, false))
                || SentSince(old(calls), calls, Confirmed(false)) || HasOpenOrders(trade.orders)
      ensures r == Ok(false) && HasOpenOrders(trade.orders) ==> |trade.orders| == |old(trade.orders)|
    {
      var cancelled := CancelForExit(trade);
      if cancelled.Err? {
        return Err(cancelled.error);
      }
      if cancelled.value || HasOpenOrders(trade.orders) {
        return Ok(false);
      }
      ghost var rows, sent := trade.orders, calls;
      var f := Elsewhere();
      if f.Some? {
        return Err(f.value);
      }
      var placed := ExecuteTradeExit(trade, price, amount);
      StillAsked(old(calls), sent, calls);
      HandledLater(old(trade.orders), old(calls), sent, calls);
      EvolvesTransitive(old(trade.orders), rows, trade.orders);
      if placed.Err? {
        return Err(placed.error);
      }
      assert if placed.value then placed == Ok(true) else placed == Ok(false);
      return Ok(true);
    }

    // The first half of __exec_force_exit: whether an entry was cancelled in full.
    method CancelForExit(trade: Trade) returns (r: Result<bool, Failure>)
      requires Sound(trade.orders, nextId)
      modifies this`calls, trade`orders, trade`amount, trade`isOpen, trade`deleted
      ensures Extends(old(calls), calls)
      ensures Sound(trade.orders, nextId) && Evolves(old(trade.orders), trade.orders)
      ensures |trade.orders| == |old(trade.orders)|
      ensures trade.deleted ==> old(trade.deleted) || NoSuccessfulEntry(trade.orders, trade.EntrySide())
      ensures r == Ok(false) ==> trade.deleted == old(trade.deleted)
      ensures r == Ok(true) ==> trade.deleted || !HasOpenOrders(trade.orders)
      ensures !HasOpenOrders(old(trade.orders)) ==>
                r == Ok(false) && trade.orders == old(trade.orders) && calls == old(calls)
      ensures r.Ok? ==> AllHandled(old(trade.orders), old(calls), calls, {Buy, Sell})
    {
      var ids := OpenIds(trade.orders);
      AtMostOneOpen(trade.orders);
      var entryCancelled := false;
      for i := 0 to |ids|
        invariant Extends(old(calls), calls)
        invariant i == 0 ==> trade.orders == old(trade.orders) && trade.deleted == old(trade.deleted)
        invariant i == 0 ==> calls == old(calls) && !entryCancelled
        invariant i > 0 ==> Sound(trade.orders, nextId) && Evolves(old(trade.orders), trade.orders)
        invariant |trade.orders| == |old(trade.orders)|
        invariant trade.deleted ==> old(trade.deleted) || NoSuccessfulEntry(trade.orders, trade.EntrySide())
        invariant !entryCancelled ==> trade.deleted == old(trade.deleted)
        invariant entryCancelled ==> trade.deleted || !HasOpenOrders(trade.orders)
        invariant i > 0 ==> Handled(old(calls), calls, ids[0], {Buy, Sell})
      {
        assert ids[i] in ids;
        var c := CancelOneForExit(trade, ids[i]);
        if c.Err? {
          return Err(c.error);
        }
        entryCancelled := entryCancelled || c.value;
      }
      return Ok(entryCancelled);
    }

    // The body of the loop of __exec_force_exit.
    method CancelOneForExit(trade: Trade, id: nat) returns (r: Result<bool, Failure>)
      requires Sound(trade.orders, nextId) && id in OpenIds(trade.orders)
      modifies this`calls, trade`orders, trade`amount, trade`isOpen, trade`deleted
      ensures Extends(old(calls), calls)
      ensures Sound(trade.orders, nextId) && OnlyOrder(old(trade.orders), trade.orders, id)
      ensures trade.deleted ==> old(trade.deleted) || NoSuccessfulEntry(trade.orders, trade.EntrySide())
      ensures r == Ok(false) ==> trade.deleted == old(trade.deleted)
      ensures r == Ok(true) ==> trade.deleted || !HasOpenOrders(trade.orders)
      ensures r.Ok? ==> Handled(old(calls), calls, id, {Buy, Sell})
    {
      var order := Fetch(id);
      SentNow(old(calls), old(calls), Fetched(id, order));
      ghost var sent := calls;
      if order.Err? {
        return Err(order.error);
      }
      OpenRows(trade.orders, id, nextId);
      if order.value.side == Some(trade.EntrySide()) {
        r := HandleCancelEnter(trade, order.value, id, false);
        StillSent(old(calls), sent, calls);
        StillAsked(old(calls), sent, calls);
        OnlyOneOpen(old(trade.orders), trade.orders, id, nextId);
        return;
      }
      if order.value.side == Some(trade.ExitSide()) {
        var c := HandleCancelExit(trade, order.value, id);
        StillSent(old(calls), sent, calls);
        StillAsked(old(calls), sent, calls);
        if c.Err? {
          return Err(c.error);
        }
      }
      return Ok(false);
    }

    // startup_update_open_orders for the rows of one trade that were open when the program started.
    method StartupUpdateOpenOrders(trade: Trade) returns (f: Option<Failure>)
      requires Sound(trade.orders, nextId)
      modifies this, trade
      ensures Extends(old(calls), calls)
      ensures Sound(trade.orders, nextId) && nextId >= old(nextId) && Evolves(old(trade.orders), trade.orders)
      ensures f.None? ==> forall id :: id in OpenIds(old(trade.orders)) ==> WasFetched(old(calls), calls, id)
    {
      var rows := trade.orders;
      for i := 0 to |rows|
        invariant Extends(old(calls), calls)
        invariant Sound(trade.orders, nextId) && nextId >= old(nextId) && Evolves(rows, trade.orders)
        invariant StillOpen(rows, trade.orders, i) && LookedUp(rows, i, old(calls), calls)
      {
        ghost var asked := calls;
        if rows[i].isOpen {
          ghost var before := trade.orders;
          f := StartupUpdate(trade, rows[i], i);
          StillSent(old(calls), asked, calls);
          StillAsked(old(calls), asked, calls);
          EvolvesTransitive(rows, before, trade.orders);
          StillOpenRest(rows, before, trade.orders, i, nextId);
          if f.Some? {
            return;
          }
        }
      }
      forall id | id in OpenIds(rows) ensures WasFetched(old(calls), calls, id) {
        OpenIdsExactly(rows, id);
      }
      return None;
    }

    // An order that the exchange does not know, and that is not too old, counts as cancelled.
    method StartupUpdate(trade: Trade, row: Order, i: nat) returns (f: Option<Failure>)
      requires Sound(trade.orders, nextId) && i < |trade.orders|
      requires trade.orders[i].id == row.id && (Regular(trade.orders[i]) ==> trade.orders[i].isOpen)
      modifies this, trade
      ensures Extends(old(calls), calls) && WasFetched(old(calls), calls, row.id)
      ensures Sound(trade.orders, nextId) && nextId >= old(nextId) && Evolves(old(trade.orders), trade.orders)
      ensures OnlyOrder(old(trade.orders), trade.orders, row.id)
      ensures trade.deleted ==> old(trade.deleted) || NoSuccessfulEntry(trade.orders, trade.EntrySide())
    {
      var fetched := Fetch(row.id);
      SentNow(old(calls), old(calls), Fetched(row.id, fetched));
      ghost var sent := calls;
      var failure := if fetched.Err? then Some(fetched.error) else None;
      if fetched.Ok? {
        var u := UpdateOrderState(trade, fetched.value, i);
        failure := if u.Err? then Some(u.error) else None;
      }
      StillSent(old(calls), sent, calls);
      var recent := Decide();
      if failure.Some? && IsInvalidOrder(failure.value) && recent {
        ghost var updated := trade.orders;
        var canceled := Record(row.id, Some(row.side), Some(Canceled), row.filled, row.price, row.amount);
        var r := HandleCancelOrder(trade, canceled, row.id, false);
        StillSent(old(calls), sent, calls);
        EvolvesTransitive(old(trade.orders), updated, trade.orders);
        return if r.Err? then Some(r.error) else None;
      }
      return if failure.Some? && !IsExchangeError(failure.value) then failure else None;
    }

    // _rpc_cancel_open_order of rpc.py
    method CancelOpenOrder(trade: Trade) returns (f: Option<Failure>)
      requires Sound(trade.orders, nextId)
      modifies this, trade
      ensures Extends(old(calls), calls)
      ensures Sound(trade.orders, nextId) && nextId >= old(nextId) && Evolves(old(trade.orders), trade.orders)
      ensures trade.deleted ==> old(trade.deleted) || NoSuccessfulEntry(trade.orders, trade.EntrySide())
      ensures f.None? ==> AllHandled(old(trade.orders), old(calls), calls, {Buy, Sell})
    {
      var ids := OpenIds(trade.orders);
      AtMostOneOpen(trade.orders);
      for i := 0 to |ids|
        invariant Extends(old(calls), calls)
        invariant Sound(trade.orders, nextId) && nextId >= old(nextId) && Evolves(old(trade.orders), trade.orders)
        invariant i == 0 ==> trade.orders == old(trade.orders) && trade.deleted == old(trade.deleted)
        invariant i == 0 ==> calls == old(calls)
        invariant trade.deleted ==> old(trade.deleted) || NoSuccessfulEntry(trade.orders, trade.EntrySide())
        invariant i > 0 ==> Handled(old(calls), calls, ids[0], {Buy, Sell})
      {
        assert ids[i] in ids;
        var order := Fetch(ids[i]);
        SentNow(old(calls), old(calls), Fetched(ids[i], order));
        ghost var sent := calls;
        if order.Err? {
          return Some(order.error);
        }
        OpenRows(trade.orders, ids[i], nextId);
        var r := HandleCancelOrder(trade, order.value, ids[i], false);
        StillSent(old(calls), sent, calls);
        StillAsked(old(calls), sent, calls);
        if r.Err? {
          return Some(r.error);
        }
      }
      return None;
    }

    // Fee detection looks at an order again long after it was filled. The record must not open an order again that
    // others have followed; UpdateSoundExactly says that no other record does harm.
    method UpdateFees(trade: Trade, i: nat, fetched: Result<Record, Failure>) returns (f: Option<Failure>)
      requires Sound(trade.orders, nextId) && i < |trade.orders| && Regular(trade.orders[i])
      requires fetched.Ok? ==> fetched.value.id == trade.orders[i].id && Final(trade.orders, fetched.value)
      modifies this`calls, trade`orders, trade`amount, trade`isOpen
      ensures Extends(old(calls), calls)
      ensures Sound(trade.orders, nextId) && Evolves(old(trade.orders), trade.orders)
      ensures fetched.Ok? ==> SameRegular(Updated(old(trade.orders), fetched.value), trade.orders)
      ensures fetched.Err? ==> trade.orders == old(trade.orders) && (f.None? <==> IsInvalidOrder(fetched.error))
    {
      if fetched.Err? {
        return if IsInvalidOrder(fetched.error) then None else Some(fetched.error);
      }
      var u := UpdateTradeState(trade, fetched.value);
      return if u.Err? then Some(u.error) else None;
    }

    // Any history of one trade: in every state only the regular order placed last can be open, so there is
    // never more than one, and no regular order was asked for while another was open, whatever the exchange, the
    // strategy and the user do.
    method AnyHistory(trade: Trade, steps: nat)
      requires Sound(trade.orders, nextId)
      modifies this, trade
      ensures Extends(old(calls), calls)
      ensures Sound(trade.orders, nextId) && Evolves(old(trade.orders), trade.orders)
      ensures |OpenIds(trade.orders)| <= 1
    {
      for n := 0 to steps
        invariant Extends(old(calls), calls)
        invariant Sound(trade.orders, nextId) && Evolves(old(trade.orders), trade.orders)
      {
        ghost var before := trade.orders;
        var op: nat, price: real, amount: real, flag: bool, row: nat := *, *, *, *, *;
        AnyStep(trade, op, price, amount, flag, row);
        EvolvesTransitive(old(trade.orders), before, trade.orders);
      }
      AtMostOneOpen(trade.orders);
    }

    method AnyStep(trade: Trade, op: nat, price: real, amount: real, flag: bool, row: nat)
      requires Sound(trade.orders, nextId)
      modifies this, trade
      ensures Extends(old(calls), calls)
      ensures Sound(trade.orders, nextId) && Evolves(old(trade.orders), trade.orders)
    {
      if op == 0 {
        var _ := ManageOpenOrders(trade);
      } else if op == 1 {
        var _ := ExitPosition(trade);
      } else if op == 2 {
        var _ := AdjustPosition(trade, price, if flag then Some(amount) else None, row == 0);
      } else if op == 3 {
        var _ := ExecuteEntry(trade, price, amount, flag);
      } else if op == 4 {
        var _ := ExecuteTradeExit(trade, price, amount);
      } else if op == 5 {
        var _ := ForceExit(trade, price, amount);
      } else if op == 6 {
        var _ := CancelOpenOrdersOfTrade(trade, {Buy, Sell}, flag);
      } else if op == 7 {
        var _ := HandleInsufficientFunds(trade);
      } else if op == 8 {
        var _ := CancelOpenOrder(trade);
      } else if op == 9 {
        var _ := StartupUpdateOpenOrders(trade);
      } else if op == 10 && row < |trade.orders| && Regular(trade.orders[row]) {
        // Here the exchange is trusted not to report an order as unfinished that it has finished.
        var fetched := Fetch(trade.orders[row].id);
        if fetched.Ok? ==> Final(trade.orders, fetched.value) {
          var _ := UpdateFees(trade, row, fetched);
        }
      } else {
        var _ := MoveStoploss(trade, price);
      }
    }
  }

  ghost predicate StoplossAsked(a: seq<Call>, b: seq<Call>, stop: real, amount: real) {
    exists blocked :: SentSince(a, b, Created(Stoploss, stop, amount, blocked))
  }

  lemma AfterSameRegular(a: seq<Order>, b: seq<Order>, side: Side, price: real, amount: real)
    requires SameRegular(a, b) && a != [] && Regular(a[|a| - 1]) && Placed(a, side, price, amount)
    ensures Placed(b, side, price, amount) && Evolves(a, b) && b[|b| - 1] == a[|a| - 1]
  {
    forall i | 0 <= i < |b| - 1 && Regular(b[i]) ensures !b[i].isOpen {
      assert SameOrder(a[i], b[i]);
    }
  }

  lemma AfterOnlyOrder(a: seq<Order>, b: seq<Order>, c: seq<Order>, id: nat, side: Side, price: real, amount: real)
    requires SameRegular(a, b) && OnlyOrder(b, c, id) && Placed(b, side, price, amount)
    ensures Placed(c, side, price, amount) && Evolves(a, c)
  {
    forall i | 0 <= i < |c|
      ensures SameOrder(a[i], c[i]) && (Regular(a[i]) && !a[i].isOpen ==> !c[i].isOpen)
      ensures i < |c| - 1 && Regular(c[i]) ==> !c[i].isOpen
    {
      assert SameOrder(a[i], b[i]) && SameOrder(b[i], c[i]);
    }
  }

  // A row that was made from a record has nothing to take over from it.
  lemma TakenOverAgain(os: seq<Order>, rec: Record, side: Side, price: real, amount: real, nextId: nat)
    requires DistinctBelow(os, nextId) && os != [] && os[|os| - 1] == Parse(rec, side, price, amount)
    ensures Updated(os, rec) == os
  {
  }

  lemma StoplossAskedLater(a: seq<Call>, b: seq<Call>, c: seq<Call>, stop: real, amount: real)
    requires Extends(a, b) && Extends(b, c) && StoplossAsked(b, c, stop, amount)
    ensures StoplossAsked(a, c, stop, amount)
  {
    StillAsked(a, b, c);
  }

  lemma OnlyOpenChanged(a: seq<Order>, b: seq<Order>, id: nat, nextId: nat)
    requires OnlyOrder(a, b, id) && DistinctBelow(a, nextId)
    requires exists i :: 0 <= i < |a| && a[i].id == id && Regular(a[i]) && a[i].isOpen
    ensures OnlyOpenChange(a, b)
  {
  }

  // A record that does not end its order leaves it open; a final one leaves nothing to cancel.
  lemma OpenAfterUpdate(before: seq<Order>, after: seq<Order>, rec: Record, nextId: nat)
    requires DistinctBelow(before, nextId) && OpenAt(before, rec.id)
    requires SameRegular(Updated(before, rec), after)
    ensures rec.status.Some? && !NonOpen(rec.status) ==> OpenAt(after, rec.id)
  {
    if rec.status.Some? && !NonOpen(rec.status) {
      forall i | 0 <= i < |after| && after[i].id == rec.id && Regular(after[i]) ensures after[i].isOpen {
        assert SameOrder(Updated(before, rec)[i], after[i]);
      }
    }
  }

  // The order that was open was the only one.
  lemma OnlyOneOpen(before: seq<Order>, after: seq<Order>, id: nat, nextId: nat)
    requires Sound(before, nextId) && OnlyOrder(before, after, id)
    requires id in OpenIds(before)
    ensures ClosedAt(after, id) ==> !HasOpenOrders(after)
  {
    OpenIdsExactly(before, id);
    var k :| 0 <= k < |before| && before[k].id == id && Regular(before[k]) && before[k].isOpen;
    if ClosedAt(after, id) {
      forall i | 0 <= i < |after| && Regular(after[i]) ensures !after[i].isOpen {
        assert SameOrder(before[i], after[i]);
        if before[i].id != id {
          assert i != k && after[i] == before[i];
        }
      }
    }
  }

  // The regular rows from `n` on that were open are so still.
  ghost predicate StillOpen(rows: seq<Order>, now: seq<Order>, n: nat) {
    && |rows| <= |now|
    && forall k :: n <= k < |rows| && Regular(rows[k]) && rows[k].isOpen ==> now[k].isOpen
  }

  lemma StillOpenRest(rows: seq<Order>, before: seq<Order>, now: seq<Order>, n: nat, nextId: nat)
    requires StillOpen(rows, before, n) && n < |rows| && Evolves(rows, before) && DistinctBelow(before, nextId)
    requires OnlyOrder(before, now, rows[n].id)
    ensures StillOpen(rows, now, n + 1)
  {
    forall k | n + 1 <= k < |rows| && Regular(rows[k]) && rows[k].isOpen ensures now[k].isOpen {
      assert before[k].id != before[n].id;
    }
  }

  // Something of the order is filled, as far as the record says.
  predicate PartlyFilled(order: Record) {
    order.filled.Some? && order.filled.value > 0.0
  }

  // One cancel request, and after that the order is only looked up.
  ghost predicate CancelledOnce(calls: seq<Call>, id: nat) {
    calls != [] && calls[0] == CancelSent(id) && forall i :: 0 < i < |calls| ==> calls[i].Fetched? && calls[i].id == id
  }

  // The latest open order of the side is just like the one that is wanted.
  ghost predicate HasSimilar(os: seq<Order>, side: Side, price: real, amount: real) {
    && HasOpenOrders(os) && SelectOpen(os, side).Some? && SelectOpen(os, side).value.exchangeSide == Some(side)
    && SelectOpen(os, side).value.price == Some(price) && SelectOpen(os, side).value.amount == Some(amount)
  }

  // Nothing holds a trade but this order: no other is open and no entry was ever filled.
  predicate OnlyUnfilled(os: seq<Order>, id: nat, entry: Side) {
    NoOtherOpen(os, id) && NoSuccessfulEntry(os, entry)
  }

  lemma SentNow(a: seq<Call>, b: seq<Call>, call: Call)
    requires a <= b
    ensures SentSince(a, b + [call], call)
    ensures forall c :: SentSince(a, b, c) ==> SentSince(a, b + [call], c)
  {
    assert (b + [call])[|a|..] == b[|a|..] + [call];
    assert (b[|a|..] + [call])[|b| - |a|] == call;
  }

  lemma SentFirst(a: seq<Call>, b: seq<Call>, id: nat)
    requires a <= b && CancelledOnce(b[|a|..], id)
    ensures SentSince(a, b, CancelSent(id))
  {
    assert b[|a|..][0] == CancelSent(id);
  }

  lemma StillSent(a: seq<Call>, b: seq<Call>, c: seq<Call>)
    requires Extends(a, b) && Extends(b, c)
    ensures Extends(a, c) && forall call :: SentSince(a, b, call) ==> SentSince(a, c, call)
  {
    forall call | SentSince(a, b, call) ensures SentSince(a, c, call) {
      var i :| 0 <= i < |b[|a|..]| && b[|a|..][i] == call;
      assert c[|a|..][i] == call;
    }
  }

  // What was asked in the second of two stretches was asked in both together.
  lemma StillAsked(a: seq<Call>, b: seq<Call>, c: seq<Call>)
    requires Extends(a, b) && Extends(b, c)
    ensures Extends(a, c) && forall call :: SentSince(b, c, call) ==> SentSince(a, c, call)
  {
    forall call | SentSince(b, c, call) ensures SentSince(a, c, call) {
      var i :| 0 <= i < |c[|b|..]| && c[|b|..][i] == call;
      assert c[|a|..][|b| - |a| + i] == call;
    }
  }

  // What was handled in one of two stretches was handled in both together.
  lemma HandledLater(os: seq<Order>, a: seq<Call>, b: seq<Call>, c: seq<Call>)
    requires Extends(a, b) && Extends(b, c)
    ensures Extends(a, c)
    ensures AllHandled(os, a, b, {Buy, Sell}) || AllHandled(os, b, c, {Buy, Sell}) ==> AllHandled(os, a, c, {Buy, Sell})
  {
    StillSent(a, b, c);
    StillAsked(a, b, c);
    if AllHandled(os, a, b, {Buy, Sell}) {
      forall id | id in OpenIds(os) ensures Handled(a, c, id, {Buy, Sell}) {
        assert Handled(a, b, id, {Buy, Sell});
      }
    } else if AllHandled(os, b, c, {Buy, Sell}) {
      forall id | id in OpenIds(os) ensures Handled(a, c, id, {Buy, Sell}) {
        assert Handled(b, c, id, {Buy, Sell});
      }
    }
  }

  // Stoploss orders are no part of what a trade reports as open, nor of what a new order is compared with.
  lemma {:induction false} SameOpenRows(a: seq<Order>, b: seq<Order>, side: Side)
    requires SameRegular(a, b)
    ensures OpenIds(a) == OpenIds(b) && (HasOpenOrders(a) <==> HasOpenOrders(b))
    ensures side != Stoploss ==> SelectOpen(a, side) == SelectOpen(b, side)
  {
    if a != [] {
      var x, y := a[..|a| - 1], b[..|b| - 1];
      assert SameRegular(x, y);
      SameOpenRows(x, y, side);
      assert SameOrder(a[|a| - 1], b[|b| - 1]);
      if i :| 0 <= i < |a| && Regular(a[i]) && a[i].isOpen {
        assert b[i] == a[i];
      }
      if i :| 0 <= i < |b| && Regular(b[i]) && b[i].isOpen {
        assert SameOrder(a[i], b[i]) && a[i] == b[i];
      }
    }
  }

  // No order is open but, perhaps, the one with this id.
  predicate NoOtherOpen(os: seq<Order>, id: nat) {
    forall i :: 0 <= i < |os| && os[i].isOpen ==> os[i].id == id
  }

  // The same rows, and a regular one that was closed already is left exactly as it was.
  ghost predicate OnlyOpenChange(a: seq<Order>, b: seq<Order>) {
    && |a| == |b|
    && forall i :: 0 <= i < |a| ==>
         SameOrder(a[i], b[i]) && (Regular(a[i]) && !a[i].isOpen ==> a[i] == b[i])
  }

  // The last row is the order just placed, as it was asked for, and every regular order before it is closed.
  ghost predicate Placed(os: seq<Order>, side: Side, price: real, amount: real) {
    && os != [] && os[|os| - 1].side == side
    && os[|os| - 1].askedPrice == price && os[|os| - 1].askedAmount == amount
    && forall i :: 0 <= i < |os| - 1 && Regular(os[i]) ==> !os[i].isOpen
  }

  // The open regular rows before `n` have been looked up.
  ghost predicate LookedUp(rows: seq<Order>, n: nat, a: seq<Call>, b: seq<Call>) {
    forall k :: 0 <= k < n && k < |rows| && Regular(rows[k]) && rows[k].isOpen ==> WasFetched(a, b, rows[k].id)
  }

  // A record of a stoploss order touches no regular order, and a final one takes it off the open ones.
  lemma StopUpdated(os: seq<Order>, rec: Record, nextId: nat, budget: set<nat>)
    requires Sound(os, nextId) && OpenStops(os) <= budget && rec.id in budget
    requires forall i :: 0 <= i < |os| && os[i].id == rec.id ==> !Regular(os[i])
    ensures var updated := Updated(os, rec);
            && Sound(updated, nextId) && SameRegular(os, updated)
            && OpenStops(updated) <= if NonOpen(rec.status) then budget - {rec.id} else budget
  {
  }

  lemma OpenRows(os: seq<Order>, id: nat, nextId: nat)
    requires DistinctBelow(os, nextId)
    requires exists i :: 0 <= i < |os| && os[i].id == id && Regular(os[i]) && os[i].isOpen
    ensures OpenAt(os, id)
  {
    var k :| 0 <= k < |os| && os[k].id == id && Regular(os[k]) && os[k].isOpen;
    forall i | 0 <= i < |os| && os[i].id == id && Regular(os[i]) ensures os[i].isOpen {
      assert i == k;
    }
  }

  lemma StopRows(a: seq<Order>, b: seq<Order>, id: nat, nextId: nat)
    requires SameRegular(a, b) && DistinctBelow(b, nextId) && id in OpenStops(a)
    ensures forall i :: 0 <= i < |b| && b[i].id == id ==> !Regular(b[i])
  {
    var k :| 0 <= k < |a| && !Regular(a[k]) && a[k].isOpen && a[k].id == id;
    assert b[k].id == id;
    forall i | 0 <= i < |b| && b[i].id == id ensures !Regular(b[i]) {
      assert i == k;
    }
  }
}
