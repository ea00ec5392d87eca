/** Shared vocabulary of the bot: the values the trading venue reports and
    the log of actions the bot performs against it.

    Every network call of the exchange client is represented here only by the
    action it issues and, where the bot looks at the answer, by an input that
    stands for the venue's response. */
module Venue {

  datatype Option<+T> = None | Some(value: T)

  datatype Result<+T, +E> = Ok(value: T) | Err(error: E)

  /** A duration in seconds, the unit of `time.time()` differences. */
  datatype Seconds = Seconds(s: real)

  /** A duration in milliseconds. */
  datatype Millis = Millis(ms: real)

  /** A status string other than the five the bot names. */
  type OtherName = s: string | s !in {"open", "closed", "canceled", "expired", "rejected"}

  /** The order status strings of the venue's unified order structure.
      `OtherStatus` stands for any other string the venue may report. */
  datatype Status = Open | Closed | Canceled | Expired | Rejected | OtherStatus(name: OtherName)

  /** The status a venue string stands for. */
  function ParseStatus(s: string): (r: Status)
    ensures r.OtherStatus? <==> s !in {"open", "closed", "canceled", "expired", "rejected"}
  {
    match s
    case "open" => Open
    case "closed" => Closed
    case "canceled" => Canceled
    case "expired" => Expired
    case "rejected" => Rejected
    case _ => OtherStatus(s)
  }

  /** The venue string of a status. */
  function StatusName(st: Status): string
  {
    match st
    case Open => "open"
    case Closed => "closed"
    case Canceled => "canceled"
    case Expired => "expired"
    case Rejected => "rejected"
    case OtherStatus(name) => name
  }

  /** Every venue string stands for exactly one status, and back. */
  lemma StatusRoundTrip(s: string, st: Status)
    ensures StatusName(ParseStatus(s)) == s
    ensures ParseStatus(StatusName(st)) == st
  {
  }

  /** The statuses that end both polling loops: 'closed', 'canceled',
      'expired' and 'rejected'. */
  predicate IsTerminal(s: Status)
  {
    s.Closed? || s.Canceled? || s.Expired? || s.Rejected?
  }

  /** A venue string ends the polling loops exactly when it is one of the
      four listed in their `while` conditions. */
  lemma TerminalStrings(s: string)
    ensures IsTerminal(ParseStatus(s)) <==> s in ["closed", "canceled", "expired", "rejected"]
  {
  }

  /** The part of an order structure the bot inspects. */
  datatype Order = Order(id: string, status: Status)

  /** The answer to a lookup that raises `OrderNotFound` when the venue does
      not know the order (in the view that was queried). */
  datatype Lookup = Found(order: Order) | NotFound

  /** What a polling loop ends with: the order when it was filled, nothing
      when it was not, or still polling when the responses supplied to the
      model ran out before the loop ended. */
  datatype Outcome = Filled(order: Order) | NotFilled | StillPolling

  /** One action of the bot against the exchange, in the order issued. */
  datatype Action =
    | CreateExchange   // builds the client object; opens no connection
    | SetSandboxMode
    | LoadMarkets
    | SetLeverage(leverage: real, symbol: string)
    | FetchBalance
    | CreateLimitOrder(symbol: string, side: string, amount: real, price: real, stopLoss: Option<real>)
    | FetchOrder(id: string)
    | FetchOpenOrder(id: string)
    | FetchClosedOrder(id: string)
    | CancelOrder(id: string, symbol: string)
    | CloseExchange

  /** Sum of a list of shares. */
  function Sum(xs: seq<real>): real
  {
    if xs == [] then 0.0 else xs[0] + Sum(xs[1..])
  }

  /** The outcome of a polling loop together with the actions it issued. */
  datatype Run = Run(outcome: Outcome, actions: seq<Action>)

  /** An order-status outcome decided by an order in a terminal status:
      filled exactly when the status is 'closed'. */
  function Decide(o: Order): (r: Outcome)
    ensures r.Filled? <==> o.status == Closed
    ensures r.Filled? ==> r.order == o
    ensures r != StillPolling
  {
    if o.status == Closed then Filled(o) else NotFilled
  }

  /** The orders created, in order, among a log of actions. */
  function OrdersCreated(actions: seq<Action>): (r: seq<Action>)
    ensures |r| <= |actions|
    ensures forall a :: a in r ==> a.CreateLimitOrder? && a in actions
    ensures forall a :: a in actions && a.CreateLimitOrder? ==> a in r
  {
    if actions == [] then []
    else if actions[0].CreateLimitOrder? then [actions[0]] + OrdersCreated(actions[1..])
    else OrdersCreated(actions[1..])
  }

  /** Filtering the created orders distributes over concatenation of logs. */
  lemma {:induction false} OrdersCreatedAppend(a: seq<Action>, b: seq<Action>)
    ensures OrdersCreated(a + b) == OrdersCreated(a) + OrdersCreated(b)
  {
    if a == [] {
      assert a + b == b;
    } else {
      assert (a + b)[1..] == a[1..] + b;
      OrdersCreatedAppend(a[1..], b);
    }
  }

  /** The orders of a log made of a setup that creates none, one order, a
      stretch that creates none and a tail. */
  lemma OrdersAroundEntry(setup: seq<Action>, entry: Action, middle: seq<Action>, tail: seq<Action>)
    requires OrdersCreated(setup) == [] && entry.CreateLimitOrder? && OrdersCreated(middle) == []
    ensures OrdersCreated(setup + [entry] + middle + tail) == [entry] + OrdersCreated(tail)
  {
    OrdersCreatedAppend(setup + [entry] + middle, tail);
    OrdersCreatedAppend(setup + [entry], middle);
    OrdersCreatedAppend(setup, [entry]);
    assert OrdersCreated([entry]) == [entry] + OrdersCreated([]);
  }
}
