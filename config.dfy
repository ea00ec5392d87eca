/** The bot's configuration constants, with their units made explicit. */
module Config {
  import opened Venue

  /** One rung of the configured ladder: the share of the position, the
      take-profit ROI and the stop-loss ROI, both in percent. */
  datatype Level = Level(qtyPct: real, roiTP: int, roiSL: int)

  const LEVELS: seq<Level> := [
    Level(0.2, 100, -150),
    Level(0.3, 80, -100),
    Level(0.5, 60, -50)
  ]

  /** ROI, in percent, of the trailing stop. */
  const TRAILING_SL_ROI: int := -50

  /** Fraction of the free quote balance committed to one signal. */
  const BALANCE_PCT: real := 0.02

  /** Order lifetime, one day, declared in milliseconds. */
  const ORDER_EXPIRATION_TIME: Millis := Millis((24 * 60 * 60 * 1000) as real)

  /** Interval between two status polls. */
  const MONITOR_ORDER_TIME: Seconds := Seconds(5.0)

  function ToSeconds(d: Millis): (r: Seconds)
    ensures r.s * 1000.0 == d.ms
  {
    Seconds(d.ms / 1000.0)
  }

  /** The threshold the order monitor actually applies: the millisecond
      count compared, unconverted, with an elapsed time in seconds. */
  function ExpiryAsCompared(): (r: Seconds)
    ensures r.s == ORDER_EXPIRATION_TIME.ms
  {
    Seconds(ORDER_EXPIRATION_TIME.ms)
  }

  /** The threshold the declaration documents: one day, in seconds. */
  function ExpiryIntended(): (r: Seconds)
    ensures r == ToSeconds(ORDER_EXPIRATION_TIME)
    ensures r.s == 86400.0
  {
    Seconds(86400.0)
  }

  /** The ladder's quantity shares, rung by rung. */
  function QtyPcts(levels: seq<Level>): (r: seq<real>)
    ensures |r| == |levels|
    ensures forall i :: 0 <= i < |levels| ==> r[i] == levels[i].qtyPct
  {
    seq(|levels|, i requires 0 <= i < |levels| => levels[i].qtyPct)
  }

  lemma LevelsSharesSumToOne()
    ensures |LEVELS| == 3
    ensures Sum(QtyPcts(LEVELS)) == 1.0
    ensures forall l :: l in LEVELS ==> 0.0 < l.qtyPct <= 1.0
  {
    var shares := QtyPcts(LEVELS);
    assert shares == [0.2, 0.3, 0.5];
    assert shares[1..] == [0.3, 0.5];
    assert shares[1..][1..] == [0.5];
    assert shares[1..][1..][1..] == [];
    assert Sum(shares[1..][1..]) == 0.5;
    assert Sum(shares[1..]) == 0.8;
  }

  /** Every stop-loss ROI (per level and trailing) is negative and every
      take-profit ROI is positive. */
  lemma LevelRoiSigns()
    ensures forall l :: l in LEVELS ==> l.roiSL < 0 && l.roiTP > 0
    ensures TRAILING_SL_ROI < 0
  {
  }

  /** The expiration constant is one day in milliseconds; read as seconds,
      as the monitor does, it is a thousand days. */
  lemma ExpirationUnits()
    ensures ORDER_EXPIRATION_TIME.ms == 86400000.0
    ensures ToSeconds(ORDER_EXPIRATION_TIME) == Seconds(86400.0)
    ensures ExpiryAsCompared().s == 1000.0 * ExpiryIntended().s
  {
  }

  lemma BalanceAndPollBounds()
    ensures 0.0 < BALANCE_PCT < 1.0
    ensures MONITOR_ORDER_TIME.s > 0.0
  {
  }
}
