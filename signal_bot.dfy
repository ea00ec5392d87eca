/** The trading path of main.py: checks on a parsed signal, the older
    fill wait (no timeout, no fallback), the placement of the entry and of
    four take-profit legs with fixed shares, and the per-signal handler that
    opens and closes the exchange session around them. */
module SignalBot {
  import opened Venue
  import Sizing
  import TakeProfit

  /** The fields the signal pattern captures, already converted. */
  datatype Signal = Signal(symbol: string, side: string, leverage: real, entry: real, takeProfits: seq<real>)

  /** The exceptions that escape to the handler's catch-all. */
  datatype SignalError =
    | NoQuoteCurrency                 // `split('/')[1]` on a symbol without '/'
    | WrongBaseCurrency(quote: string)  // the quote part is not 'USDT'
    | PlacementFailed(sizing: Sizing.SizingError)

  /** 'Long' maps to 'buy'; every other side string maps to 'sell'. */
  function OrderSide(side: string): (r: string)
    ensures r == "buy" || r == "sell"
    ensures r == "buy" <==> side == "Long"
  {
    if side == "Long" then "buy" else "sell"
  }

  /** Position of the first '/' in `s`. */
  function IndexOfSlash(s: string): (r: Option<nat>)
    ensures r.None? <==> '/' !in s
    ensures r.Some? ==> r.value < |s| && s[r.value] == '/' && '/' !in s[..r.value]
  {
    if s == [] then None
    else if s[0] == '/' then Some(0)
    else
      match IndexOfSlash(s[1..])
      case None => None
      case Some(i) =>
        assert s[..i + 1] == [s[0]] + s[1..][..i];
        Some(i + 1)
  }

  /** `symbol.split('/')[1]`: the field between the first '/' and the next
      one (or the end); `None` where the split yields a single field and the
      subscript raises. */
  function QuotePart(symbol: string): (r: Option<string>)
    ensures r.None? <==> '/' !in symbol
    ensures r.Some? ==> '/' !in r.value
  {
    match IndexOfSlash(symbol)
    case None => None
    case Some(i) =>
      var rest := symbol[i + 1..];
      match IndexOfSlash(rest)
      case None => Some(rest)
      case Some(j) => Some(rest[..j])
  }

  /** The quote part of `base/quote` followed by nothing or by further
      '/'-separated fields is `quote`. */
  lemma QuoteIsSecondField(base: string, quote: string, tail: string)
    requires '/' !in base && '/' !in quote
    requires tail == [] || tail[0] == '/'
    ensures QuotePart(base + "/" + quote + tail) == Some(quote)
  {
    var s := base + "/" + quote + tail;
    assert s[|base|] == '/';
    assert IndexOfSlash(s) == Some(|base|);
    var rest := s[|base| + 1..];
    assert rest == quote + tail;
    if tail == [] {
      assert rest == quote;
    } else {
      assert rest[|quote|] == '/';
      assert IndexOfSlash(rest) == Some(|quote|);
      assert rest[..|quote|] == quote;
    }
  }

  /** Conversely, a quote part is the text after the first '/' (the one
      `IndexOfSlash` finds), up to the next '/' or the end. */
  lemma QuotePartIsSecondField(symbol: string)
    requires '/' in symbol
    ensures var i := IndexOfSlash(symbol).value; var q := QuotePart(symbol).value;
      i + 1 + |q| <= |symbol| && symbol[i + 1..i + 1 + |q|] == q &&
      (i + 1 + |q| == |symbol| || symbol[i + 1 + |q|] == '/')
  {
    var i := IndexOfSlash(symbol).value;
    var rest := symbol[i + 1..];
    var q := QuotePart(symbol).value;
    match IndexOfSlash(rest)
    case None =>
      assert q == rest;
    case Some(j) =>
      assert q == rest[..j];
      assert symbol[i + 1 + j] == rest[j];
  }

  /** The checks `process_signal` makes before touching the exchange: the
      order side, and a quote currency of exactly 'USDT'. */
  function ValidateSignal(symbol: string, side: string): (r: Result<string, SignalError>)
    ensures r.Ok? <==> QuotePart(symbol) == Some("USDT")
    ensures r.Ok? ==> r.value == OrderSide(side)
    ensures '/' !in symbol ==> r == Err(NoQuoteCurrency)
    ensures QuotePart(symbol).Some? && QuotePart(symbol).value != "USDT" ==>
      r == Err(WrongBaseCurrency(QuotePart(symbol).value))
  {
    var orderSide := OrderSide(side);
    match QuotePart(symbol)
    case None => Err(NoQuoteCurrency)
    case Some(quote) => if quote != "USDT" then Err(WrongBaseCurrency(quote)) else Ok(orderSide)
  }

  /** A USDT pair is accepted and its direction mapped. */
  lemma UsdtPairAccepted()
    ensures ValidateSignal("BTC/USDT", "Long") == Ok("buy")
  {
    QuoteIsSecondField("BTC", "USDT", "");
    assert "BTC" + "/" + "USDT" + "" == "BTC/USDT";
  }

  /** Another quote currency is rejected by name, and a symbol without '/'
      fails on the subscript. */
  lemma OtherSymbolsRejected()
    ensures ValidateSignal("ETH/BTC", "Long") == Err(WrongBaseCurrency("BTC"))
    ensures ValidateSignal("BTCUSDT", "Long") == Err(NoQuoteCurrency)
  {
    QuoteIsSecondField("ETH", "BTC", "");
    assert "ETH" + "/" + "BTC" + "" == "ETH/BTC";
    assert forall c :: c in "BTCUSDT" ==> c != '/';
  }

  /** The run of `wait_for_order_filled` over the orders successive
      `fetch_order` calls return. */
  function WaitForFilled(id: string, responses: seq<Order>): (r: Run)
    ensures |r.actions| <= |responses|
    ensures forall a :: a in r.actions ==> a == FetchOrder(id)
  {
    if responses == [] then Run(StillPolling, [])
    else if IsTerminal(responses[0].status) then Run(Decide(responses[0]), [FetchOrder(id)])
    else
      var rest := WaitForFilled(id, responses[1..]);
      Run(rest.outcome, [FetchOrder(id)] + rest.actions)
  }

  /** The imperative wait: poll until the status is terminal, then return the
      order only if it was filled. */
  method WaitForOrderFilled(id: string, responses: seq<Order>) returns (outcome: Outcome, actions: seq<Action>)
    ensures Run(outcome, actions) == WaitForFilled(id, responses)
  {
    var status := Open;
    var order := Order(id, Open);  // unbound in the source until the first fetch
    var i := 0;
    actions := [];
    ghost var full := WaitForFilled(id, responses);
    assert responses[0..] == responses;
    while !IsTerminal(status)
      invariant 0 <= i <= |responses|
      invariant status == order.status
      invariant !IsTerminal(status) ==> full == WaitAfter(id, responses, i, actions)
      invariant IsTerminal(status) ==> full == Run(Decide(order), actions)
      decreases |responses| - i
    {
      if i == |responses| {
        assert responses[i..] == [];
        return StillPolling, actions;
      }
      WaitAdvance(id, responses, i, actions);
      order := responses[i];
      status := order.status;
      actions := actions + [FetchOrder(id)];
      i := i + 1;
    }
    if order.status == Closed {
      outcome := Filled(order);
    } else {
      outcome := NotFilled;
    }
  }

  /** The whole wait, given that the actions `done` have been issued and the
      responses from position `i` on are still to come. */
  function WaitAfter(id: string, responses: seq<Order>, i: nat, done: seq<Action>): Run
    requires i <= |responses|
  {
    var tail := WaitForFilled(id, responses[i..]);
    Run(tail.outcome, done + tail.actions)
  }

  /** One fetch: a terminal response ends the wait, any other leaves the
      responses after it still to come. */
  lemma WaitAdvance(id: string, responses: seq<Order>, i: nat, done: seq<Action>)
    requires i < |responses|
    ensures IsTerminal(responses[i].status) ==>
      WaitAfter(id, responses, i, done) == Run(Decide(responses[i]), done + [FetchOrder(id)])
    ensures !IsTerminal(responses[i].status) ==>
      WaitAfter(id, responses, i, done) == WaitAfter(id, responses, i + 1, done + [FetchOrder(id)])
  {
    assert responses[i..][1..] == responses[i + 1..];
    var tail := WaitForFilled(id, responses[i + 1..]);
    assert done + ([FetchOrder(id)] + tail.actions) == (done + [FetchOrder(id)]) + tail.actions;
  }

  /** The wait ends at the first terminal status: it has fetched once per
      response up to and including that one, and returns the order exactly
      when the status is 'closed'. */
  lemma {:induction false} WaitStopsAtFirstTerminal(id: string, responses: seq<Order>, k: nat)
    requires k < |responses| && IsTerminal(responses[k].status)
    requires forall j :: 0 <= j < k ==> !IsTerminal(responses[j].status)
    ensures WaitForFilled(id, responses).outcome == Decide(responses[k])
    ensures |WaitForFilled(id, responses).actions| == k + 1
  {
    if k > 0 {
      forall j | 0 <= j < k - 1 ensures !IsTerminal(responses[1..][j].status) {
        assert responses[1..][j] == responses[j + 1];
      }
      WaitStopsAtFirstTerminal(id, responses[1..], k - 1);
    }
  }

  /** There is no timeout: the wait is still polling when the responses run
      out exactly when none of them is terminal, and every poll fetches. */
  lemma {:induction false} WaitNoTimeout(id: string, responses: seq<Order>)
    ensures WaitForFilled(id, responses).outcome == StillPolling
        <==> forall j :: 0 <= j < |responses| ==> !IsTerminal(responses[j].status)
    ensures WaitForFilled(id, responses).outcome == StillPolling ==>
      |WaitForFilled(id, responses).actions| == |responses|
  {
    if responses != [] && !IsTerminal(responses[0].status) {
      WaitNoTimeout(id, responses[1..]);
      if forall j :: 0 <= j < |responses| - 1 ==> !IsTerminal(responses[1..][j].status) {
        forall j | 0 <= j < |responses| ensures !IsTerminal(responses[j].status) {
          if j > 0 { assert responses[j] == responses[1..][j - 1]; }
        }
      } else {
        var j :| 0 <= j < |responses| - 1 && IsTerminal(responses[1..][j].status);
        assert responses[1..][j] == responses[j + 1];
      }
    }
  }

  /** The wait returns an order only after at least one fetch, only the last
      one fetched, and only if its status is 'closed'; it reports not filled
      only on another terminal status. */
  lemma {:induction false} WaitReturnsOrderIffClosed(id: string, responses: seq<Order>)
    ensures var r := WaitForFilled(id, responses);
      r.outcome != StillPolling ==>
        1 <= |r.actions| &&
        IsTerminal(responses[|r.actions| - 1].status) &&
        (r.outcome.Filled? <==> responses[|r.actions| - 1].status == Closed) &&
        (r.outcome.Filled? ==> r.outcome.order == responses[|r.actions| - 1])
  {
    if responses != [] && !IsTerminal(responses[0].status) {
      WaitReturnsOrderIffClosed(id, responses[1..]);
      var rest := WaitForFilled(id, responses[1..]);
      if rest.outcome != StillPolling {
        assert responses[|rest.actions|] == responses[1..][|rest.actions| - 1];
      }
    }
  }

  /** What the venue answers to one run of the main script's placement. */
  datatype Responses = Responses(balance: map<string, real>, entryId: string, statuses: seq<Order>)

  datatype Placement = Placement(result: Result<Outcome, SignalError>, actions: seq<Action>)

  /** The specification of `place_order` in main.py: no stop-loss, the fixed
      fraction 0.02, the older wait and the fixed take-profit shares. */
  function PlaceOrderRun(side: string, symbol: string, leverage: real, price: real, takeProfits: seq<real>,
                         venue: Responses, precision: Sizing.Precision): (p: Placement)
    ensures |p.actions| >= 2 && p.actions[0] == SetLeverage(leverage, symbol) && p.actions[1] == FetchBalance
    ensures p.result.Err? <==> |p.actions| == 2
    ensures p.result.Ok? <==> Sizing.MainOrderQty(venue.balance, 0.02, leverage, price, symbol, precision).Ok?
    ensures p.result.Ok? ==>
      p.actions[2] == CreateLimitOrder(symbol, side, Sizing.MainOrderQty(venue.balance, 0.02, leverage, price, symbol, precision).value, price, None)
  {
    var setup := [SetLeverage(leverage, symbol), FetchBalance];
    match Sizing.MainOrderQty(venue.balance, 0.02, leverage, price, symbol, precision)
    case Err(e) => Placement(Err(PlacementFailed(e)), setup)
    case Ok(quantity) =>
      var run := WaitForFilled(venue.entryId, venue.statuses);
      var legs := if run.outcome.Filled?
        then TakeProfit.LegActions(TakeProfit.TakeProfitLegs(symbol, side, quantity, takeProfits, TakeProfit.MAIN_PROFIT_PCTS, precision))
        else [];
      Placement(Ok(run.outcome), setup + [CreateLimitOrder(symbol, side, quantity, price, None)] + run.actions + legs)
  }

  method PlaceOrder(side: string, symbol: string, leverage: real, price: real, takeProfits: seq<real>,
                    venue: Responses, precision: Sizing.Precision)
    returns (result: Result<Outcome, SignalError>, actions: seq<Action>)
    ensures Placement(result, actions) == PlaceOrderRun(side, symbol, leverage, price, takeProfits, venue, precision)
  {
    actions := [SetLeverage(leverage, symbol)];  // any exception here is only printed
    actions := actions + [FetchBalance];
    var quantity := Sizing.MainOrderQty(venue.balance, 0.02, leverage, price, symbol, precision);
    if quantity.Err? {
      assert PlaceOrderRun(side, symbol, leverage, price, takeProfits, venue, precision)
          == Placement(Err(PlacementFailed(quantity.error)), actions);
      return Err(PlacementFailed(quantity.error)), actions;
    }
    PlaceOrderRunPlaced(side, symbol, leverage, price, takeProfits, venue, precision);
    actions := actions + [CreateLimitOrder(symbol, side, quantity.value, price, None)];
    ghost var head := actions;
    var outcome, waitActions := WaitForOrderFilled(venue.entryId, venue.statuses);
    actions := actions + waitActions;
    var legActions := [];
    if outcome.Filled? {
      legActions := TakeProfit.PlaceTakeProfits(
        symbol, side, quantity.value, takeProfits, TakeProfit.MAIN_PROFIT_PCTS, precision);
    }
    actions := actions + legActions;
    assert head == [SetLeverage(leverage, symbol), FetchBalance, CreateLimitOrder(symbol, side, quantity.value, price, None)];
    assert actions == head + waitActions + legActions;
    result := Ok(outcome);
  }

  /** A placement that passes sizing: the entry, the wait's fetches, then
      the legs only on a fill. */
  lemma PlaceOrderRunPlaced(side: string, symbol: string, leverage: real, price: real, takeProfits: seq<real>,
                            venue: Responses, precision: Sizing.Precision)
    requires Sizing.MainOrderQty(venue.balance, 0.02, leverage, price, symbol, precision).Ok?
    ensures var quantity := Sizing.MainOrderQty(venue.balance, 0.02, leverage, price, symbol, precision).value;
      var run := WaitForFilled(venue.entryId, venue.statuses);
      PlaceOrderRun(side, symbol, leverage, price, takeProfits, venue, precision) == Placement(Ok(run.outcome),
        [SetLeverage(leverage, symbol), FetchBalance, CreateLimitOrder(symbol, side, quantity, price, None)] + run.actions +
        (if run.outcome.Filled?
         then TakeProfit.LegActions(TakeProfit.TakeProfitLegs(symbol, side, quantity, takeProfits, TakeProfit.MAIN_PROFIT_PCTS, precision))
         else []))
  {
    var quantity := Sizing.MainOrderQty(venue.balance, 0.02, leverage, price, symbol, precision).value;
    assert [SetLeverage(leverage, symbol), FetchBalance] + [CreateLimitOrder(symbol, side, quantity, price, None)]
        == [SetLeverage(leverage, symbol), FetchBalance, CreateLimitOrder(symbol, side, quantity, price, None)];
  }

  /** The orders the main script creates: the entry, then the four fixed-share
      legs, each opposite to the entry, only when the wait returned the
      filled order. */
  lemma MainTakeProfitsOnlyAfterFill(side: string, symbol: string, leverage: real, price: real,
                                     takeProfits: seq<real>, venue: Responses, precision: Sizing.Precision)
    requires PlaceOrderRun(side, symbol, leverage, price, takeProfits, venue, precision).result.Ok?
    ensures var p := PlaceOrderRun(side, symbol, leverage, price, takeProfits, venue, precision);
      var quantity := Sizing.MainOrderQty(venue.balance, 0.02, leverage, price, symbol, precision).value;
      OrdersCreated(p.actions) ==
        [CreateLimitOrder(symbol, side, quantity, price, None)] +
        (if p.result.value.Filled?
         then TakeProfit.LegActions(TakeProfit.TakeProfitLegs(symbol, side, quantity, takeProfits, TakeProfit.MAIN_PROFIT_PCTS, precision))
         else [])
    ensures var p := PlaceOrderRun(side, symbol, leverage, price, takeProfits, venue, precision);
      p.result.value == WaitForFilled(venue.entryId, venue.statuses).outcome
  {
    var quantity := Sizing.MainOrderQty(venue.balance, 0.02, leverage, price, symbol, precision).value;
    var run := WaitForFilled(venue.entryId, venue.statuses);
    var legs := TakeProfit.LegActions(TakeProfit.TakeProfitLegs(symbol, side, quantity, takeProfits, TakeProfit.MAIN_PROFIT_PCTS, precision));
    var setup := [SetLeverage(leverage, symbol), FetchBalance];
    WaitCreatesNoOrders(venue.entryId, venue.statuses);
    TakeProfit.LegActionsAreOrders(TakeProfit.TakeProfitLegs(symbol, side, quantity, takeProfits, TakeProfit.MAIN_PROFIT_PCTS, precision));
    assert OrdersCreated(setup) == [];
    OrdersAroundEntry(setup, CreateLimitOrder(symbol, side, quantity, price, None), run.actions, if run.outcome.Filled? then legs else []);
  }

  /** The wait only fetches the order: it creates none. */
  lemma {:induction false} WaitCreatesNoOrders(id: string, responses: seq<Order>)
    ensures OrdersCreated(WaitForFilled(id, responses).actions) == []
  {
    if responses != [] {
      assert OrdersCreated([FetchOrder(id)]) == [];
      if !IsTerminal(responses[0].status) {
        WaitCreatesNoOrders(id, responses[1..]);
        OrdersCreatedAppend([FetchOrder(id)], WaitForFilled(id, responses[1..]).actions);
      }
    }
  }

  /** `process_signal` after parsing: reject a non-USDT market before any
      exchange client is created; otherwise create the client in sandbox
      mode, load the markets, place the order and close the exchange. The
      close is skipped when the placement raises, and is never reached while
      the wait is still polling. */
  method ProcessSignal(signal: Signal, venue: Responses, precision: Sizing.Precision)
    returns (result: Result<Outcome, SignalError>, actions: seq<Action>)
    ensures ValidateSignal(signal.symbol, signal.side).Err? ==>
      result == Err(ValidateSignal(signal.symbol, signal.side).error) && actions == []
    ensures ValidateSignal(signal.symbol, signal.side).Ok? ==>
      var p := PlaceOrderRun(ValidateSignal(signal.symbol, signal.side).value, signal.symbol, signal.leverage,
                             signal.entry, signal.takeProfits, venue, precision);
      result == p.result &&
      actions == [CreateExchange, SetSandboxMode, LoadMarkets] + p.actions +
                 (if p.result.Ok? && p.result.value != StillPolling then [CloseExchange] else [])
    ensures CloseExchange in actions <==> result.Ok? && result.value != StillPolling
  {
    var orderSide := ValidateSignal(signal.symbol, signal.side);
    if orderSide.Err? {
      return Err(orderSide.error), [];
    }
    actions := [CreateExchange, SetSandboxMode, LoadMarkets];
    var placed, placeActions := PlaceOrder(orderSide.value, signal.symbol, signal.leverage, signal.entry,
                                           signal.takeProfits, venue, precision);
    PlacementNeverCloses(orderSide.value, signal.symbol, signal.leverage, signal.entry, signal.takeProfits, venue, precision);
    actions := actions + placeActions;
    result := placed;
    if placed.Ok? && placed.value != StillPolling {
      actions := actions + [CloseExchange];
    }
  }

  /** The placement itself never closes the exchange. */
  lemma PlacementNeverCloses(side: string, symbol: string, leverage: real, price: real, takeProfits: seq<real>,
                             venue: Responses, precision: Sizing.Precision)
    ensures CloseExchange !in PlaceOrderRun(side, symbol, leverage, price, takeProfits, venue, precision).actions
  {
    match Sizing.MainOrderQty(venue.balance, 0.02, leverage, price, symbol, precision)
    case Err(e) =>
    case Ok(quantity) =>
      var run := WaitForFilled(venue.entryId, venue.statuses);
      var legs := TakeProfit.LegActions(TakeProfit.TakeProfitLegs(symbol, side, quantity, takeProfits, TakeProfit.MAIN_PROFIT_PCTS, precision));
      forall i | 0 <= i < |legs| ensures legs[i] != CloseExchange {
        assert legs[i].CreateLimitOrder?;
      }
      assert CloseExchange !in legs;
      assert CloseExchange !in run.actions;
  }

  /** Every take-profit leg of a signal is on the side opposite to the entry
      the signal's direction maps to. */
  lemma SignalLegsOppositeToEntry(signal: Signal, quantity: real, precision: Sizing.Precision)
    ensures var side := OrderSide(signal.side);
      forall leg :: leg in TakeProfit.TakeProfitLegs(signal.symbol, side, quantity, signal.takeProfits, TakeProfit.MAIN_PROFIT_PCTS, precision) ==>
        leg.side != side && (leg.side == "buy" <==> signal.side != "Long")
  {
    TakeProfit.LegsOppositeToEntry(signal.symbol, OrderSide(signal.side), quantity, signal.takeProfits, TakeProfit.MAIN_PROFIT_PCTS, precision);
  }
}
