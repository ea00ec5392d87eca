/** The stop-loss price calculator of order_functions.py, over exact reals. */
module StopPrice {
  import opened Venue
  import Config

  datatype StopPriceError =
    | RoiNotNegative          // ValueError: ROI should be negative
    | InvalidSide(side: string) // ValueError: invalid order side
    | ZeroDivision            // ZeroDivisionError from a zero leverage

  function LowerChar(c: char): (r: char)
    ensures 'A' <= c <= 'Z' ==> 'a' <= r <= 'z' && r as int - c as int == 32
    ensures !('A' <= c <= 'Z') ==> r == c
  {
    if 'A' <= c <= 'Z' then (c as int + 32) as char else c
  }

  /** `str.lower()` restricted to ASCII letters: other characters are kept. */
  function Lower(s: string): (r: string)
    ensures |r| == |s|
    ensures forall i :: 0 <= i < |s| ==> r[i] == LowerChar(s[i])
  {
    if s == [] then [] else [LowerChar(s[0])] + Lower(s[1..])
  }

  lemma LowerIdempotent(s: string)
    ensures Lower(Lower(s)) == Lower(s)
  {
  }

  /** The stop price for a position opened at `entry` with `leverage`, placed
      so that the position's ROI at that price is `roi` percent. The ROI check
      comes first; the side is matched case-insensitively. */
  function CalculateStopPrice(entry: real, roi: real, leverage: real, side: string): (r: Result<real, StopPriceError>)
    ensures roi >= 0.0 ==> r == Err(RoiNotNegative)
    ensures r.Ok? <==> roi < 0.0 && leverage != 0.0 && (Lower(side) == "buy" || Lower(side) == "sell")
    ensures r == Err(ZeroDivision) <==> roi < 0.0 && leverage == 0.0 && (Lower(side) == "buy" || Lower(side) == "sell")
    ensures r.Err? && r.error.InvalidSide? <==> roi < 0.0 && Lower(side) != "buy" && Lower(side) != "sell"
    ensures r.Err? && r.error.InvalidSide? ==> r.error.side == side
  {
    if roi >= 0.0 then Err(RoiNotNegative)
    else if Lower(side) == "buy" then
      if leverage == 0.0 then Err(ZeroDivision) else Ok(entry * (1.0 + roi / (100.0 * leverage)))
    else if Lower(side) == "sell" then
      if leverage == 0.0 then Err(ZeroDivision) else Ok(entry * (1.0 - roi / (100.0 * leverage)))
    else Err(InvalidSide(side))
  }

  /** Reference definition: the ROI in percent of a leveraged position opened
      at `entry` and valued at `exit`, long or short. */
  function PositionRoi(entry: real, exit: real, leverage: real, long: bool): real
    requires entry != 0.0
  {
    (if long then exit - entry else entry - exit) / entry * 100.0 * leverage
  }

  /** The computed stop price is exactly the price at which the leveraged
      position reaches the requested ROI, and the only such price. */
  lemma StopPriceRealisesRoi(entry: real, roi: real, leverage: real, side: string, exit: real)
    requires entry != 0.0
    requires CalculateStopPrice(entry, roi, leverage, side).Ok?
    ensures PositionRoi(entry, exit, leverage, Lower(side) == "buy") == roi
        <==> exit == CalculateStopPrice(entry, roi, leverage, side).value
  {
    var p := CalculateStopPrice(entry, roi, leverage, side).value;
    var long := Lower(side) == "buy";
    var d := roi / (100.0 * leverage);
    assert d * (100.0 * leverage) == roi;
    if long {
      assert p == entry + entry * d;
    } else {
      assert p == entry - entry * d;
    }
    var diff := if long then exit - entry else entry - exit;
    assert PositionRoi(entry, exit, leverage, long) == diff / entry * 100.0 * leverage;
    calc {
      PositionRoi(entry, exit, leverage, long) == roi;
    <==> diff / entry * (100.0 * leverage) == d * (100.0 * leverage);
    <==> { RealCancel(diff / entry, d, 100.0 * leverage); }
      diff / entry == d;
    <==> { RealCancel(diff / entry * entry, d * entry, 1.0); }
      diff == d * entry;
    <==> exit == p;
    }
  }

  /** Multiplying by a non-zero factor is injective. */
  lemma RealCancel(x: real, y: real, k: real)
    requires k != 0.0
    ensures x * k == y * k <==> x == y
  {
    if x * k == y * k {
      assert (x - y) * k == 0.0;
    }
  }

  /** A long stop sits strictly below a positive entry. */
  lemma BuyStopBelowEntry(entry: real, roi: real, leverage: real, side: string)
    requires entry > 0.0 && leverage > 0.0 && roi < 0.0
    requires Lower(side) == "buy"
    ensures CalculateStopPrice(entry, roi, leverage, side).Ok?
    ensures CalculateStopPrice(entry, roi, leverage, side).value < entry
  {
    var d := roi / (100.0 * leverage);
    assert d < 0.0;
    assert entry * d < 0.0;
  }

  /** A short stop sits strictly above a positive entry. */
  lemma SellStopAboveEntry(entry: real, roi: real, leverage: real, side: string)
    requires entry > 0.0 && leverage > 0.0 && roi < 0.0
    requires Lower(side) == "sell"
    ensures CalculateStopPrice(entry, roi, leverage, side).Ok?
    ensures CalculateStopPrice(entry, roi, leverage, side).value > entry
  {
    var d := roi / (100.0 * leverage);
    assert d < 0.0;
    assert entry * d < 0.0;
  }

  /** Long and short stops for the same inputs are mirror images about the
      entry price. */
  lemma LongShortSymmetric(entry: real, roi: real, leverage: real)
    requires roi < 0.0 && leverage != 0.0
    ensures CalculateStopPrice(entry, roi, leverage, "buy").Ok?
    ensures CalculateStopPrice(entry, roi, leverage, "sell").Ok?
    ensures CalculateStopPrice(entry, roi, leverage, "buy").value
          + CalculateStopPrice(entry, roi, leverage, "sell").value == 2.0 * entry
  {
    assert Lower("buy") == "buy";
    assert Lower("sell") == "sell";
  }

  /** The side is compared case-insensitively: a side and its lower-case
      form give the same stop price. */
  lemma SideCaseInsensitive(entry: real, roi: real, leverage: real, side: string)
    ensures CalculateStopPrice(entry, roi, leverage, side).Ok?
        == CalculateStopPrice(entry, roi, leverage, Lower(side)).Ok?
    ensures CalculateStopPrice(entry, roi, leverage, side).Ok? ==>
            CalculateStopPrice(entry, roi, leverage, side) == CalculateStopPrice(entry, roi, leverage, Lower(side))
  {
    LowerIdempotent(side);
  }

  /** Upper-case spellings of the sides are accepted. */
  lemma UpperCaseSidesAccepted(entry: real, roi: real, leverage: real)
    ensures CalculateStopPrice(entry, roi, leverage, "BUY") == CalculateStopPrice(entry, roi, leverage, "buy")
    ensures CalculateStopPrice(entry, roi, leverage, "Sell") == CalculateStopPrice(entry, roi, leverage, "sell")
  {
    assert Lower("BUY") == "buy";
    assert Lower("buy") == "buy";
    assert Lower("Sell") == "sell";
    assert Lower("sell") == "sell";
  }

  /** The configured stop-loss ROIs all pass the calculator's sign check. */
  lemma ConfiguredStopLossesAccepted(entry: real, leverage: real, side: string)
    requires leverage != 0.0
    requires Lower(side) == "buy" || Lower(side) == "sell"
    ensures forall l :: l in Config.LEVELS ==> CalculateStopPrice(entry, l.roiSL as real, leverage, side).Ok?
    ensures CalculateStopPrice(entry, Config.TRAILING_SL_ROI as real, leverage, side).Ok?
  {
    Config.LevelRoiSigns();
  }
}
