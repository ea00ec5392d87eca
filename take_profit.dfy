/** Take-profit legs placed after the entry order fills: one limit order per
    (price, share) pair, on the side opposite to the entry. */
module TakeProfit {
  import opened Venue
  import Sizing
  import StopPrice

  /** One take-profit limit order. */
  datatype Leg = Leg(symbol: string, side: string, amount: real, price: real)

  /** `'buy' if side == 'sell' else 'sell'`: an exact, case-sensitive
      comparison. */
  function OppositeSide(side: string): (r: string)
    ensures r == "buy" || r == "sell"
    ensures side == "buy" || side == "sell" ==> r != side
    ensures r == "buy" <==> side == "sell"
  {
    if side == "sell" then "buy" else "sell"
  }

  function Min(a: nat, b: nat): nat
  {
    if a <= b then a else b
  }

  /** The unrounded amount of a leg: its share of the entry quantity. */
  function LegShare(quantity: real, pct: real): real
  {
    quantity * pct
  }

  /** The legs of `zip(prices, pcts)`: the i-th leg is at the i-th price, for
      the venue-rounded i-th share of the entry quantity; the zip stops at the
      shorter list. */
  function TakeProfitLegs(symbol: string, side: string, quantity: real, prices: seq<real>, pcts: seq<real>,
                          precision: Sizing.Precision): (legs: seq<Leg>)
    ensures |legs| == Min(|prices|, |pcts|)
    ensures forall i :: 0 <= i < |legs| ==>
      legs[i] == Leg(symbol, OppositeSide(side), precision(symbol, LegShare(quantity, pcts[i])), prices[i])
  {
    if prices == [] || pcts == [] then []
    else
      [Leg(symbol, OppositeSide(side), precision(symbol, LegShare(quantity, pcts[0])), prices[0])]
      + TakeProfitLegs(symbol, side, quantity, prices[1..], pcts[1..], precision)
  }

  function LegAction(leg: Leg): Action
  {
    CreateLimitOrder(leg.symbol, leg.side, leg.amount, leg.price, None)
  }

  function LegActions(legs: seq<Leg>): (r: seq<Action>)
    ensures |r| == |legs|
    ensures forall i :: 0 <= i < |legs| ==> r[i] == LegAction(legs[i])
  {
    seq(|legs|, i requires 0 <= i < |legs| => LegAction(legs[i]))
  }

  /** The `for` loop over the zip, issuing one limit order per leg. */
  method PlaceTakeProfits(symbol: string, side: string, quantity: real, prices: seq<real>, pcts: seq<real>,
                          precision: Sizing.Precision) returns (actions: seq<Action>)
    ensures actions == LegActions(TakeProfitLegs(symbol, side, quantity, prices, pcts, precision))
  {
    ghost var legs := TakeProfitLegs(symbol, side, quantity, prices, pcts, precision);
    actions := [];
    for i := 0 to Min(|prices|, |pcts|)
      invariant |actions| == i
      invariant forall k :: 0 <= k < i ==> actions[k] == LegAction(legs[k])
    {
      var amount := precision(symbol, LegShare(quantity, pcts[i]));
      var tpSide := OppositeSide(side);
      actions := actions + [CreateLimitOrder(symbol, tpSide, amount, prices[i], None)];
    }
  }

  /** Every leg sits on the opposite side to an entry on 'buy' or 'sell'. */
  lemma LegsOppositeToEntry(symbol: string, side: string, quantity: real, prices: seq<real>, pcts: seq<real>,
                            precision: Sizing.Precision)
    requires side == "buy" || side == "sell"
    ensures forall leg :: leg in TakeProfitLegs(symbol, side, quantity, prices, pcts, precision) ==>
      leg.side != side && (leg.side == "buy" || leg.side == "sell")
  {
  }

  /** The legs with the side flipped as the stop-loss calculator reads the
      entry side, that is after lower-casing it. */
  function IntendedTakeProfitLegs(symbol: string, side: string, quantity: real, prices: seq<real>, pcts: seq<real>,
                                  precision: Sizing.Precision): (legs: seq<Leg>)
    ensures |legs| == Min(|prices|, |pcts|)
    ensures forall i :: 0 <= i < |legs| ==>
      legs[i] == Leg(symbol, OppositeSide(StopPrice.Lower(side)), precision(symbol, LegShare(quantity, pcts[i])), prices[i])
  {
    TakeProfitLegs(symbol, StopPrice.Lower(side), quantity, prices, pcts, precision)
  }

  /** With the flip on the lower-cased side, every leg of an entry the
      stop-loss calculator accepts, in any capitalisation, is on the other
      side of the position: a buy exactly when the entry is a sell. */
  lemma IntendedLegsOppositeToEntry(symbol: string, side: string, quantity: real, prices: seq<real>, pcts: seq<real>,
                                    precision: Sizing.Precision, entry: real, roi: real, leverage: real)
    requires StopPrice.CalculateStopPrice(entry, roi, leverage, side).Ok?
    ensures forall leg :: leg in IntendedTakeProfitLegs(symbol, side, quantity, prices, pcts, precision) ==>
      leg.side != StopPrice.Lower(side) && (leg.side == "buy" <==> StopPrice.Lower(side) == "sell")
  {
    LegsOppositeToEntry(symbol, StopPrice.Lower(side), quantity, prices, pcts, precision);
  }

  /** As written, the legs of an entry on "SELL" are sells: the flip does
      not recognise the upper-case spelling. */
  lemma UpperCaseSellLegsAreSells(symbol: string, quantity: real, prices: seq<real>, pcts: seq<real>,
                                  precision: Sizing.Precision)
    ensures forall a :: a in LegActions(TakeProfitLegs(symbol, "SELL", quantity, prices, pcts, precision)) ==>
      a.side == "sell"
  {
    assert OppositeSide("SELL") == "sell";
  }

  /** After an entry order, every order of the legs of an entry on "SELL"
      is a sell, and there is at least one when both lists are non-empty. */
  lemma UpperCaseSellOrdersAfterEntry(entry: Action, symbol: string, quantity: real, prices: seq<real>,
                                      pcts: seq<real>, precision: Sizing.Precision)
    requires prices != [] && pcts != []
    ensures var orders := [entry] + LegActions(TakeProfitLegs(symbol, "SELL", quantity, prices, pcts, precision));
      |orders| >= 2 && orders[0] == entry && forall k :: 1 <= k < |orders| ==> orders[k].side == "sell"
  {
    var legs := TakeProfitLegs(symbol, "SELL", quantity, prices, pcts, precision);
    var orders := [entry] + LegActions(legs);
    assert OppositeSide("SELL") == "sell";
    forall k | 1 <= k < |orders| ensures orders[k].side == "sell" {
      assert orders[k] == LegAction(legs[k - 1]);
    }
  }

  /** On a side already in lower case the correction changes nothing. */
  lemma IntendedAgreesOnLowerCase(symbol: string, side: string, quantity: real, prices: seq<real>, pcts: seq<real>,
                                  precision: Sizing.Precision)
    requires StopPrice.Lower(side) == side
    ensures IntendedTakeProfitLegs(symbol, side, quantity, prices, pcts, precision)
         == TakeProfitLegs(symbol, side, quantity, prices, pcts, precision)
  {
  }

  /** The legs' orders are the only orders created by the loop. */
  lemma LegActionsAreOrders(legs: seq<Leg>)
    ensures OrdersCreated(LegActions(legs)) == LegActions(legs)
    decreases |legs|
  {
    if legs != [] {
      LegActionsAreOrders(legs[1..]);
      assert LegActions(legs)[1..] == LegActions(legs[1..]);
    }
  }

  /** The fixed take-profit shares of the main script. */
  const MAIN_PROFIT_PCTS: seq<real> := [0.4, 0.2, 0.2, 0.2]

  /** The four fixed shares are each in (0, 1] and sum to one. */
  lemma MainProfitPctsSumToOne()
    ensures |MAIN_PROFIT_PCTS| == 4
    ensures forall p :: p in MAIN_PROFIT_PCTS ==> 0.0 < p <= 1.0
    ensures Sum(MAIN_PROFIT_PCTS) == 1.0
  {
    assert MAIN_PROFIT_PCTS[1..] == [0.2, 0.2, 0.2];
    assert MAIN_PROFIT_PCTS[1..][1..] == [0.2, 0.2];
    assert MAIN_PROFIT_PCTS[1..][1..][1..] == [0.2];
  }

  /** With the four parsed take-profit prices, the main script places four
      legs, the i-th at the i-th price for the rounded i-th fixed share. */
  lemma MainScriptFourLegs(symbol: string, side: string, quantity: real, prices: seq<real>,
                           precision: Sizing.Precision)
    requires |prices| == 4
    ensures var legs := TakeProfitLegs(symbol, side, quantity, prices, MAIN_PROFIT_PCTS, precision);
      |legs| == 4 &&
      legs[0] == Leg(symbol, OppositeSide(side), precision(symbol, LegShare(quantity, 0.4)), prices[0]) &&
      forall i :: 1 <= i < 4 ==> legs[i] == Leg(symbol, OppositeSide(side), precision(symbol, LegShare(quantity, 0.2)), prices[i])
  {
    assert forall i :: 1 <= i < 4 ==> MAIN_PROFIT_PCTS[i] == 0.2;
  }
}
