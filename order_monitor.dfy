/** `monitor_order`: polls an order until it reaches a terminal status,
    cancelling it once it has stayed open past the expiry threshold and
    falling back to the closed-order view when the open-order view no longer
    knows it.

    Each iteration of the loop is one element of a sequence of polls: the
    elapsed time measured after the sleep, and the venue's answers to the two
    lookups. The length of the sequence bounds the run; when it is used up
    before the loop ends the outcome is `StillPolling`. */
module OrderMonitor {
  import opened Venue
  import Config

  /** What one iteration observes. `closedLookup` is only consulted when
      `openLookup` is `NotFound`. */
  datatype Poll = Poll(elapsed: Seconds, openLookup: Lookup, closedLookup: Lookup)

  /** The actions of one iteration, and the outcome if it ends the loop. */
  datatype Step = Step(actions: seq<Action>, stop: Option<Outcome>)

  /** The poll reports the order open after the expiry threshold. */
  predicate ExpiredOpen(p: Poll, expiry: Seconds)
  {
    p.openLookup.Found? && p.openLookup.order.status == Open && p.elapsed.s > expiry.s
  }

  function PollStep(id: string, symbol: string, expiry: Seconds, p: Poll): (st: Step)
    ensures |st.actions| >= 1 && st.actions[0] == FetchOpenOrder(id)
    ensures forall a :: a in st.actions ==> a == FetchOpenOrder(id) || a == FetchClosedOrder(id) || a == CancelOrder(id, symbol)
    ensures CancelOrder(id, symbol) in st.actions <==> ExpiredOpen(p, expiry)
    ensures ExpiredOpen(p, expiry) ==> st == Step([FetchOpenOrder(id), CancelOrder(id, symbol)], Some(NotFilled))
    ensures FetchClosedOrder(id) in st.actions <==> p.openLookup.NotFound?
    ensures st.stop.Some? ==> st.stop.value != StillPolling
  {
    match p.openLookup
    case Found(o) =>
      if o.status == Open && p.elapsed.s > expiry.s then
        Step([FetchOpenOrder(id), CancelOrder(id, symbol)], Some(NotFilled))
      else if IsTerminal(o.status) then Step([FetchOpenOrder(id)], Some(Decide(o)))
      else Step([FetchOpenOrder(id)], None)
    case NotFound =>
      match p.closedLookup
      case Found(o) =>
        Step([FetchOpenOrder(id), FetchClosedOrder(id)], if IsTerminal(o.status) then Some(Decide(o)) else None)
      case NotFound =>
        Step([FetchOpenOrder(id), FetchClosedOrder(id)], Some(NotFilled))
  }

  predicate Continues(id: string, symbol: string, expiry: Seconds, p: Poll)
  {
    PollStep(id, symbol, expiry, p).stop.None?
  }

  /** Every poll before index `k` continues the loop. */
  predicate ContinuesBefore(id: string, symbol: string, expiry: Seconds, polls: seq<Poll>, k: nat)
    requires k <= |polls|
  {
    forall j :: 0 <= j < k ==> Continues(id, symbol, expiry, polls[j])
  }

  /** The run of the monitor over a sequence of polls. */
  function Monitor(id: string, symbol: string, expiry: Seconds, polls: seq<Poll>): (r: Run)
    ensures |r.actions| >= |polls| || r.outcome != StillPolling
  {
    if polls == [] then Run(StillPolling, [])
    else
      var st := PollStep(id, symbol, expiry, polls[0]);
      if st.stop.Some? then Run(st.stop.value, st.actions)
      else
        var rest := Monitor(id, symbol, expiry, polls[1..]);
        Run(rest.outcome, st.actions + rest.actions)
  }

  /** The actions of the iterations for a prefix of polls, concatenated. */
  function StepActions(id: string, symbol: string, expiry: Seconds, polls: seq<Poll>): seq<Action>
  {
    if polls == [] then [] else PollStep(id, symbol, expiry, polls[0]).actions + StepActions(id, symbol, expiry, polls[1..])
  }

  /** The body of one loop iteration (the `try` block and its `except`
      fallback): the lookups and the cancel it issues, whether it returns
      early, and otherwise the order it observed. */
  method PollOnce(id: string, symbol: string, expiry: Seconds, p: Poll)
    returns (actions: seq<Action>, early: bool, observed: Order)
    ensures actions == PollStep(id, symbol, expiry, p).actions
    ensures early ==> PollStep(id, symbol, expiry, p).stop == Some(NotFilled)
    ensures !early ==>
      PollStep(id, symbol, expiry, p).stop == if IsTerminal(observed.status) then Some(Decide(observed)) else None
    ensures !early && p.openLookup.Found? ==> observed == p.openLookup.order
    ensures !early && p.openLookup.NotFound? ==> p.closedLookup.Found? && observed == p.closedLookup.order
  {
    actions := [FetchOpenOrder(id)];
    early := false;
    observed := Order(id, Open);
    match p.openLookup {
      case Found(o) =>
        observed := o;
        if o.status == Open && p.elapsed.s > expiry.s {
          actions := actions + [CancelOrder(id, symbol)];
          early := true;
        }
      case NotFound =>
        actions := actions + [FetchClosedOrder(id)];
        match p.closedLookup {
          case Found(o) =>
            observed := o;
          case NotFound =>
            early := true;
        }
    }
  }

  /** The imperative monitor: a `while` loop over the order status that
      returns early after a cancel or when neither view knows the order. */
  method MonitorOrder(id: string, symbol: string, expiry: Seconds, polls: seq<Poll>)
    returns (outcome: Outcome, actions: seq<Action>)
    ensures Run(outcome, actions) == Monitor(id, symbol, expiry, polls)
  {
    var status := Open;
    var order := Order(id, Open);  // unbound in the source until the first lookup
    var i := 0;
    actions := [];
    ghost var full := Monitor(id, symbol, expiry, polls);
    assert polls[0..] == polls;
    while !IsTerminal(status)
      invariant 0 <= i <= |polls|
      invariant status == order.status
      invariant !IsTerminal(status) ==> full == After(id, symbol, expiry, polls, i, actions)
      invariant IsTerminal(status) ==> full == Run(Decide(order), actions)
      decreases |polls| - i
    {
      if i == |polls| {
        assert polls[i..] == [];
        return StillPolling, actions;
      }
      MonitorAdvance(id, symbol, expiry, polls, i, actions);
      var stepActions, early, observed := PollOnce(id, symbol, expiry, polls[i]);
      actions := actions + stepActions;
      i := i + 1;
      if early {
        return NotFilled, actions;
      }
      order := observed;
      status := observed.status;
    }
    if order.status == Closed {
      outcome := Filled(order);
    } else {
      outcome := NotFilled;
    }
  }

  /** The whole run, given that the actions `done` have been issued and the
      polls from position `i` on are still to come. */
  function After(id: string, symbol: string, expiry: Seconds, polls: seq<Poll>, i: nat, done: seq<Action>): Run
    requires i <= |polls|
  {
    var tail := Monitor(id, symbol, expiry, polls[i..]);
    Run(tail.outcome, done + tail.actions)
  }

  /** One step of the loop: the poll at position `i` either ends the run or
      leaves the polls after it still to come. */
  lemma MonitorAdvance(id: string, symbol: string, expiry: Seconds, polls: seq<Poll>, i: nat, done: seq<Action>)
    requires i < |polls|
    ensures var st := PollStep(id, symbol, expiry, polls[i]);
      (st.stop.Some? ==> After(id, symbol, expiry, polls, i, done) == Run(st.stop.value, done + st.actions)) &&
      (st.stop.None? ==> After(id, symbol, expiry, polls, i, done) == After(id, symbol, expiry, polls, i + 1, done + st.actions))
  {
    var st := PollStep(id, symbol, expiry, polls[i]);
    var tail := Monitor(id, symbol, expiry, polls[i + 1..]);
    MonitorUnfold(id, symbol, expiry, polls, i);
    if st.stop.None? {
      assert done + (st.actions + tail.actions) == (done + st.actions) + tail.actions;
    }
  }

  /** One unfolding of the monitor at position `i` of the polls. */
  lemma MonitorUnfold(id: string, symbol: string, expiry: Seconds, polls: seq<Poll>, i: nat)
    requires i < |polls|
    ensures var st := PollStep(id, symbol, expiry, polls[i]);
      var tail := Monitor(id, symbol, expiry, polls[i + 1..]);
      Monitor(id, symbol, expiry, polls[i..]) ==
        if st.stop.Some? then Run(st.stop.value, st.actions) else Run(tail.outcome, st.actions + tail.actions)
  {
    assert polls[i..][1..] == polls[i + 1..];
  }

  /** The run stops at the first poll that does not continue: its outcome is
      decided there and its actions are those of the polls up to that one. */
  lemma {:induction false} MonitorStopsAtFirstStop(id: string, symbol: string, expiry: Seconds, polls: seq<Poll>, k: nat)
    requires k < |polls|
    requires ContinuesBefore(id, symbol, expiry, polls, k)
    requires !Continues(id, symbol, expiry, polls[k])
    ensures Monitor(id, symbol, expiry, polls).outcome == PollStep(id, symbol, expiry, polls[k]).stop.value
    ensures Monitor(id, symbol, expiry, polls).actions == StepActions(id, symbol, expiry, polls[..k + 1])
  {
    if k == 0 {
      assert polls[..1] == [polls[0]];
      assert polls[..1][1..] == [];
      assert StepActions(id, symbol, expiry, polls[..1]) == PollStep(id, symbol, expiry, polls[0]).actions + [];
    } else {
      assert Continues(id, symbol, expiry, polls[0]);
      forall j | 0 <= j < k - 1 ensures Continues(id, symbol, expiry, polls[1..][j]) {
        assert polls[1..][j] == polls[j + 1];
      }
      MonitorStopsAtFirstStop(id, symbol, expiry, polls[1..], k - 1);
      assert polls[..k + 1][1..] == polls[1..][..k];
    }
  }

  /** The monitor is still polling when the polls run out exactly when every
      poll continues the loop. */
  lemma {:induction false} MonitorStillPollingIff(id: string, symbol: string, expiry: Seconds, polls: seq<Poll>)
    ensures Monitor(id, symbol, expiry, polls).outcome == StillPolling
        <==> ContinuesBefore(id, symbol, expiry, polls, |polls|)
  {
    if polls != [] {
      MonitorStillPollingIff(id, symbol, expiry, polls[1..]);
      if ContinuesBefore(id, symbol, expiry, polls[1..], |polls| - 1) {
        if Continues(id, symbol, expiry, polls[0]) {
          forall j | 0 <= j < |polls| ensures Continues(id, symbol, expiry, polls[j]) {
            if j > 0 { assert polls[j] == polls[1..][j - 1]; }
          }
        }
      } else {
        var j :| 0 <= j < |polls| - 1 && !Continues(id, symbol, expiry, polls[1..][j]);
        assert polls[1..][j] == polls[j + 1];
      }
    }
  }

  /** Every cancel in the run is its last action, and the order is then not
      filled. */
  predicate CancelOnlyLast(r: Run)
  {
    forall k :: 0 <= k < |r.actions| && r.actions[k].CancelOrder? ==>
      k == |r.actions| - 1 && r.outcome == NotFilled
  }

  /** A cancel ends the monitor: it is the last action issued and the order
      is reported not filled, so there is at most one cancel. */
  lemma {:induction false} CancelIsLastAction(id: string, symbol: string, expiry: Seconds, polls: seq<Poll>)
    ensures CancelOnlyLast(Monitor(id, symbol, expiry, polls))
  {
    if polls != [] {
      var st := PollStep(id, symbol, expiry, polls[0]);
      if st.stop.None? {
        CancelIsLastAction(id, symbol, expiry, polls[1..]);
        var rest := Monitor(id, symbol, expiry, polls[1..]);
        assert CancelOrder(id, symbol) !in st.actions;
        forall k | 0 <= k < |st.actions| + |rest.actions| && (st.actions + rest.actions)[k].CancelOrder?
          ensures k == |st.actions| + |rest.actions| - 1 && rest.outcome == NotFilled
        {
          if k < |st.actions| {
            assert false;
          } else {
            var k' := k - |st.actions|;
            assert (st.actions + rest.actions)[k] == rest.actions[k'];
            assert 0 <= k' < |rest.actions| && rest.actions[k'].CancelOrder?;
          }
        }
      } else if !ExpiredOpen(polls[0], expiry) {
        assert CancelOrder(id, symbol) !in st.actions;
        forall k | 0 <= k < |st.actions| ensures !st.actions[k].CancelOrder? {
          assert st.actions[k] in st.actions;
        }
      }
    }
  }

  /** A cancel is issued exactly when the first poll that ends the loop
      reports the order open past the threshold. */
  lemma {:induction false} CancelIffExpiredOpen(id: string, symbol: string, expiry: Seconds, polls: seq<Poll>)
    ensures CancelOrder(id, symbol) in Monitor(id, symbol, expiry, polls).actions <==>
      exists k :: 0 <= k < |polls| && ExpiredOpen(polls[k], expiry) && ContinuesBefore(id, symbol, expiry, polls, k)
  {
    if polls != [] {
      var st := PollStep(id, symbol, expiry, polls[0]);
      CancelIffExpiredOpen(id, symbol, expiry, polls[1..]);
      if st.stop.Some? {
        if ExpiredOpen(polls[0], expiry) {
          assert ContinuesBefore(id, symbol, expiry, polls, 0);
        } else {
          forall k | 0 < k < |polls| ensures !ContinuesBefore(id, symbol, expiry, polls, k) {
            assert !Continues(id, symbol, expiry, polls[0]);
          }
        }
      } else {
        var rest := Monitor(id, symbol, expiry, polls[1..]);
        assert !ExpiredOpen(polls[0], expiry);
        if CancelOrder(id, symbol) in rest.actions {
          var k :| 0 <= k < |polls| - 1 && ExpiredOpen(polls[1..][k], expiry) &&
            ContinuesBefore(id, symbol, expiry, polls[1..], k);
          forall j | 0 <= j < k + 1 ensures Continues(id, symbol, expiry, polls[j]) {
            if j > 0 { assert polls[j] == polls[1..][j - 1]; }
          }
          assert ExpiredOpen(polls[k + 1], expiry) && ContinuesBefore(id, symbol, expiry, polls, k + 1);
        }
        if exists k :: 0 <= k < |polls| && ExpiredOpen(polls[k], expiry) && ContinuesBefore(id, symbol, expiry, polls, k) {
          var k :| 0 <= k < |polls| && ExpiredOpen(polls[k], expiry) && ContinuesBefore(id, symbol, expiry, polls, k);
          assert k > 0;
          assert ExpiredOpen(polls[1..][k - 1], expiry);
          forall j | 0 <= j < k - 1 ensures Continues(id, symbol, expiry, polls[1..][j]) {
            assert polls[1..][j] == polls[j + 1];
          }
          assert ContinuesBefore(id, symbol, expiry, polls[1..], k - 1);
        }
      }
    }
  }

  /** On the fallback path the expiry check does not apply: when the
      open-order view never knows the order, no cancel is ever issued,
      however much time has passed. */
  lemma {:induction false} FallbackNeverCancels(id: string, symbol: string, expiry: Seconds, polls: seq<Poll>)
    requires forall j :: 0 <= j < |polls| ==> polls[j].openLookup.NotFound?
    ensures CancelOrder(id, symbol) !in Monitor(id, symbol, expiry, polls).actions
  {
    if polls != [] {
      FallbackNeverCancels(id, symbol, expiry, polls[1..]);
    }
  }

  /** The actions of a prefix one poll longer end with that poll's actions. */
  lemma {:induction false} StepActionsSnoc(id: string, symbol: string, expiry: Seconds, polls: seq<Poll>, k: nat)
    requires k < |polls|
    ensures StepActions(id, symbol, expiry, polls[..k + 1])
         == StepActions(id, symbol, expiry, polls[..k]) + PollStep(id, symbol, expiry, polls[k]).actions
  {
    if k == 0 {
      assert polls[..1] == [polls[0]];
      assert polls[..1][1..] == [];
      assert polls[..0] == [];
    } else {
      var rest := polls[1..];
      StepActionsSnoc(id, symbol, expiry, rest, k - 1);
      var longer, shorter := polls[..k + 1], polls[..k];
      assert longer[0] == polls[0] && longer[1..] == rest[..k];
      assert shorter != [] && shorter[0] == polls[0] && shorter[1..] == rest[..k - 1];
      assert rest[k - 1] == polls[k];
      var first := PollStep(id, symbol, expiry, polls[0]).actions;
      var last := PollStep(id, symbol, expiry, polls[k]).actions;
      calc {
        StepActions(id, symbol, expiry, longer);
        first + StepActions(id, symbol, expiry, rest[..k]);
        first + (StepActions(id, symbol, expiry, rest[..k - 1]) + last);
        (first + StepActions(id, symbol, expiry, rest[..k - 1])) + last;
        StepActions(id, symbol, expiry, shorter) + last;
      }
    }
  }

  /** The fallback to the closed-order view, at the first poll whose open
      view no longer knows the order: the order is filled when the closed
      view reports it closed, and not filled, without any cancel, when
      neither view knows it. Either way the run ends with the two lookups of
      that poll. */
  lemma ClosedFallback(id: string, symbol: string, expiry: Seconds, polls: seq<Poll>, k: nat)
    requires k < |polls| && ContinuesBefore(id, symbol, expiry, polls, k)
    requires polls[k].openLookup.NotFound?
    ensures polls[k].closedLookup.Found? && polls[k].closedLookup.order.status == Closed ==>
      Monitor(id, symbol, expiry, polls).outcome == Filled(polls[k].closedLookup.order)
    ensures polls[k].closedLookup.NotFound? ==>
      Monitor(id, symbol, expiry, polls).outcome == NotFilled &&
      CancelOrder(id, symbol) !in Monitor(id, symbol, expiry, polls).actions
    ensures !Continues(id, symbol, expiry, polls[k]) ==>
      Monitor(id, symbol, expiry, polls).actions
        == StepActions(id, symbol, expiry, polls[..k]) + [FetchOpenOrder(id), FetchClosedOrder(id)]
  {
    if !Continues(id, symbol, expiry, polls[k]) {
      MonitorStopsAtFirstStop(id, symbol, expiry, polls, k);
      StepActionsSnoc(id, symbol, expiry, polls, k);
    }
    if polls[k].closedLookup.NotFound? {
      CancelIffExpiredOpen(id, symbol, expiry, polls);
      forall j | 0 <= j < |polls|
        ensures !(ExpiredOpen(polls[j], expiry) && ContinuesBefore(id, symbol, expiry, polls, j))
      {
        if j < k {
          assert Continues(id, symbol, expiry, polls[j]);
          assert !ExpiredOpen(polls[j], expiry);
        } else if j > k {
          assert !Continues(id, symbol, expiry, polls[k]);
        }
      }
    }
  }

  /** The monitor's result is the order only when it was observed 'closed'. */
  lemma {:induction false} FilledMeansClosed(id: string, symbol: string, expiry: Seconds, polls: seq<Poll>)
    ensures Monitor(id, symbol, expiry, polls).outcome.Filled? ==>
      Monitor(id, symbol, expiry, polls).outcome.order.status == Closed &&
      exists j :: 0 <= j < |polls| &&
        (polls[j].openLookup == Found(Monitor(id, symbol, expiry, polls).outcome.order) ||
         (polls[j].openLookup.NotFound? && polls[j].closedLookup == Found(Monitor(id, symbol, expiry, polls).outcome.order)))
  {
    if polls != [] && PollStep(id, symbol, expiry, polls[0]).stop.None? {
      FilledMeansClosed(id, symbol, expiry, polls[1..]);
      var r := Monitor(id, symbol, expiry, polls);
      if r.outcome.Filled? {
        var j :| 0 <= j < |polls| - 1 &&
          (polls[1..][j].openLookup == Found(r.outcome.order) ||
           (polls[1..][j].openLookup.NotFound? && polls[1..][j].closedLookup == Found(r.outcome.order)));
        assert polls[1..][j] == polls[j + 1];
      }
    }
  }

  /** The converse: at the first poll that reports a terminal order, in
      the open view or, when that no longer knows it, in the closed view,
      the monitor returns that order exactly when it is 'closed', and
      otherwise reports it not filled. */
  lemma MonitorReturnsOrderIffClosed(id: string, symbol: string, expiry: Seconds, polls: seq<Poll>, k: nat, o: Order)
    requires k < |polls| && ContinuesBefore(id, symbol, expiry, polls, k)
    requires polls[k].openLookup == Found(o) || (polls[k].openLookup.NotFound? && polls[k].closedLookup == Found(o))
    requires IsTerminal(o.status)
    ensures Monitor(id, symbol, expiry, polls).outcome == Filled(o) <==> o.status == Closed
    ensures o.status != Closed ==> Monitor(id, symbol, expiry, polls).outcome == NotFilled
  {
    assert PollStep(id, symbol, expiry, polls[k]).stop == Some(Decide(o));
    MonitorStopsAtFirstStop(id, symbol, expiry, polls, k);
  }

  /** For an order the venue keeps reporting open, the monitor cancels it
      exactly when some poll comes after the threshold, and is still polling
      exactly when none does. */
  lemma {:induction false} OpenOrderCanceledIffPastExpiry(id: string, symbol: string, expiry: Seconds, polls: seq<Poll>)
    requires forall j :: 0 <= j < |polls| ==> polls[j].openLookup.Found? && polls[j].openLookup.order.status == Open
    ensures CancelOrder(id, symbol) in Monitor(id, symbol, expiry, polls).actions
        <==> exists j :: 0 <= j < |polls| && polls[j].elapsed.s > expiry.s
    ensures Monitor(id, symbol, expiry, polls).outcome == StillPolling
        <==> forall j :: 0 <= j < |polls| ==> polls[j].elapsed.s <= expiry.s
  {
    if polls != [] {
      forall j | 0 <= j < |polls| - 1
        ensures polls[1..][j].openLookup.Found? && polls[1..][j].openLookup.order.status == Open
      {
        assert polls[1..][j] == polls[j + 1];
      }
      OpenOrderCanceledIffPastExpiry(id, symbol, expiry, polls[1..]);
      if polls[0].elapsed.s <= expiry.s {
        var rest := Monitor(id, symbol, expiry, polls[1..]);
        assert PollStep(id, symbol, expiry, polls[0]) == Step([FetchOpenOrder(id)], None);
        assert Monitor(id, symbol, expiry, polls) == Run(rest.outcome, [FetchOpenOrder(id)] + rest.actions);
        if exists j :: 0 <= j < |polls| && polls[j].elapsed.s > expiry.s {
          var j :| 0 <= j < |polls| && polls[j].elapsed.s > expiry.s;
          assert polls[1..][j - 1] == polls[j];
        }
        if exists j :: 0 <= j < |polls| - 1 && polls[1..][j].elapsed.s > expiry.s {
          var j :| 0 <= j < |polls| - 1 && polls[1..][j].elapsed.s > expiry.s;
          assert polls[j + 1] == polls[1..][j];
        }
      } else {
        assert ExpiredOpen(polls[0], expiry);
        assert Monitor(id, symbol, expiry, polls) == Run(NotFilled, [FetchOpenOrder(id), CancelOrder(id, symbol)]);
      }
    }
  }

  /** The monitor only looks orders up and cancels: it creates none. */
  lemma {:induction false} MonitorCreatesNoOrders(id: string, symbol: string, expiry: Seconds, polls: seq<Poll>)
    ensures OrdersCreated(Monitor(id, symbol, expiry, polls).actions) == []
  {
    if polls != [] {
      var st := PollStep(id, symbol, expiry, polls[0]);
      assert OrdersCreated(st.actions) == [];
      if st.stop.None? {
        MonitorCreatesNoOrders(id, symbol, expiry, polls[1..]);
        OrdersCreatedAppend(st.actions, Monitor(id, symbol, expiry, polls[1..]).actions);
      }
    }
  }

  /** As written, the threshold is the millisecond constant read as seconds:
      an order still open two days after it was placed is not cancelled. */
  lemma AsWrittenKeepsTwoDayOldOrder(id: string, symbol: string)
    ensures var polls := [Poll(Seconds(172800.0), Found(Order(id, Open)), NotFound)];
      Monitor(id, symbol, Config.ExpiryAsCompared(), polls) == Run(StillPolling, [FetchOpenOrder(id)])
  {
    Config.ExpirationUnits();
  }

  /** With the threshold converted to seconds, an order reported open at any
      poll more than one day in is cancelled. */
  lemma IntendedExpiryCancelsAfterOneDay(id: string, symbol: string, polls: seq<Poll>)
    requires forall j :: 0 <= j < |polls| ==> polls[j].openLookup.Found? && polls[j].openLookup.order.status == Open
    requires exists j :: 0 <= j < |polls| && polls[j].elapsed.s > 86400.0
    ensures CancelOrder(id, symbol) in Monitor(id, symbol, Config.ExpiryIntended(), polls).actions
    ensures Monitor(id, symbol, Config.ExpiryIntended(), polls).outcome == NotFilled
  {
    OpenOrderCanceledIffPastExpiry(id, symbol, Config.ExpiryIntended(), polls);
    CancelIsLastAction(id, symbol, Config.ExpiryIntended(), polls);
    var r := Monitor(id, symbol, Config.ExpiryIntended(), polls);
    var k :| 0 <= k < |r.actions| && r.actions[k] == CancelOrder(id, symbol);
  }
}
