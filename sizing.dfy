/** Sizing of the entry order: a fixed fraction of the free USDT balance,
    multiplied by the leverage and divided by the entry price, then rounded
    by the venue. */
module Sizing {
  import opened Venue
  import Config

  datatype SizingError =
    | NoUsdtBalance  // the balance has no 'USDT' entry: subscripting None
    | ZeroDivision   // a zero entry price

  /** The venue's `amount_to_precision(symbol, amount)`, supplied by the
      caller because its rounding rules live in the exchange client. */
  type Precision = (string, real) -> real

  /** The quantity before venue rounding, from the free balances per
      currency. */
  function RawQuantity(balance: map<string, real>, balancePct: real, leverage: real, price: real): (r: Result<real, SizingError>)
    ensures r.Ok? <==> "USDT" in balance && price != 0.0
    ensures "USDT" !in balance ==> r == Err(NoUsdtBalance)
    ensures r.Ok? ==> r.value * price == balance["USDT"] * balancePct * leverage
  {
    if "USDT" !in balance then Err(NoUsdtBalance)
    else if price == 0.0 then Err(ZeroDivision)
    else Ok(balance["USDT"] * balancePct * leverage / price)
  }

  /** `calculate_main_order_qty`: the raw quantity rounded by the venue. */
  function MainOrderQty(balance: map<string, real>, balancePct: real, leverage: real, price: real,
                        symbol: string, precision: Precision): (r: Result<real, SizingError>)
    ensures r.Ok? <==> RawQuantity(balance, balancePct, leverage, price).Ok?
    ensures r.Ok? ==> r.value == precision(symbol, RawQuantity(balance, balancePct, leverage, price).value)
    ensures r.Err? ==> r == RawQuantity(balance, balancePct, leverage, price)
  {
    match RawQuantity(balance, balancePct, leverage, price)
    case Ok(q) => Ok(precision(symbol, q))
    case Err(e) => Err(e)
  }

  /** The literal 0.02 of the main script is the configured BALANCE_PCT, so
      both sizing variants agree. */
  lemma MainScriptFractionIsBalancePct(balance: map<string, real>, leverage: real, price: real)
    ensures RawQuantity(balance, 0.02, leverage, price) == RawQuantity(balance, Config.BALANCE_PCT, leverage, price)
  {
  }

  /** With a non-negative balance and positive leverage and price the raw
      quantity is non-negative, and it grows in proportion to the leverage. */
  lemma RawQuantitySignAndScale(balance: map<string, real>, leverage: real, price: real, k: real)
    requires "USDT" in balance && balance["USDT"] >= 0.0
    requires leverage > 0.0 && price > 0.0 && k > 0.0
    ensures RawQuantity(balance, Config.BALANCE_PCT, leverage, price).value >= 0.0
    ensures RawQuantity(balance, Config.BALANCE_PCT, k * leverage, price).value
         == k * RawQuantity(balance, Config.BALANCE_PCT, leverage, price).value
  {
    var q := RawQuantity(balance, Config.BALANCE_PCT, leverage, price).value;
    var q2 := RawQuantity(balance, Config.BALANCE_PCT, k * leverage, price).value;
    assert q * price == balance["USDT"] * Config.BALANCE_PCT * leverage;
    assert q2 * price == k * (q * price);
    assert (q2 - k * q) * price == 0.0;
  }

  /** 1000 USDT free at 2 %, 10x leverage and price 50000 gives 0.004. */
  lemma ExampleQuantity()
    ensures RawQuantity(map["USDT" := 1000.0], Config.BALANCE_PCT, 10.0, 50000.0) == Ok(0.004)
  {
  }
}
