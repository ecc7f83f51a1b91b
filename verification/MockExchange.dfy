/** The mock exchange adapter as the program keeps it.  Each method is one region under the order
    mutex; `SimulateOrderExecution` is the body of the thread that `SubmitOrder` detaches. */
module MockExchange {
  import opened Orders
  import opened Sums

  class MockExchangeAdapter {
    var connected: bool
    var executionCallback: bool
    var orderCounter: nat
    var orders: map<string, OrderState>
    var detached: set<string>   // threads started and not yet run
    var reports: seq<Report>    // the heard ones are the calls of the execution callback

    ghost function View(): State
      reads this
    {
      State(connected, executionCallback, orderCounter, orders, detached, reports)
    }

    /** What every method keeps: the reports of every order match its status, its thread and its fill,
        identifiers are never reused, fills add up to the fills reported, and every report carries its
        order's fill, or zeros if it reports none. */
    ghost predicate Valid()
      reads this
    {
      Invariant(View()) && FillsBalance(View()) && ReportsMatch(View())
    }

    constructor ()
      ensures Valid() && View() == INITIAL
    {
      connected, executionCallback, orderCounter := false, false, 0;
      orders, detached, reports := map[], {}, [];
      new;
      InvariantHolds([]);
      FillsConserved([]);
      ReportsCarryFills([]);
    }

    method Connect() returns (ok: bool)
      requires Valid()
      modifies this`connected
      ensures ok && connected && View() == Step(old(View()), Action.Connect)
      ensures Valid()
    {
      ValidStep(View(), Action.Connect);
      connected := true;
      return true;
    }

    method Disconnect()
      requires Valid()
      modifies this`connected
      ensures !connected && View() == Step(old(View()), Action.Disconnect)
      ensures Valid()
    {
      ValidStep(View(), Action.Disconnect);
      if !connected {
        return;
      }
      connected := false;
    }

    method RegisterExecutionCallback(present: bool)
      requires Valid()
      modifies this`executionCallback
      ensures executionCallback == present && View() == Step(old(View()), SetCallback(present))
      ensures Valid()
    {
      ValidStep(View(), SetCallback(present));
      executionCallback := present;
    }

    method SubmitOrder(request: OrderRequest) returns (orderId: string)
      requires Valid()
      modifies this`orderCounter, this`orders, this`detached
      ensures View() == Step(old(View()), Submit(request))
      ensures Valid()
      ensures orderId == if connected then OrderId(orderCounter) else ""
      ensures connected ==>
                orderCounter == old(orderCounter) + 1 && detached == old(detached) + {orderId}
                && orders == old(orders)[orderId := OrderState(request, NEW, 0.0, 0.0)]
      ensures !connected ==> View() == old(View())
      ensures connected ==> orderId !in old(orders) && orderId !in old(detached) && Trace(old(reports), orderId) == []
    {
      ValidStep(View(), Submit(request));
      FreshId(View());
      if !connected {
        return "";
      }
      orderCounter := orderCounter + 1;
      orderId := OrderId(orderCounter);
      orders := orders[orderId := OrderState(request, NEW, 0.0, 0.0)];
      detached := detached + {orderId};
    }

    method CancelOrder(orderId: string) returns (ok: bool)
      requires Valid()
      modifies this`orders, this`reports
      ensures View() == Step(old(View()), Cancel(orderId))
      ensures Valid()
      ensures ok == (connected && orderId in old(orders) && old(orders)[orderId].status != FILLED)
      ensures ok ==>
                var o := old(orders)[orderId];
                && orders == old(orders)[orderId := o.(status := CANCELED)]
                && reports == old(reports) + [Orders.Report(orderId, o.request.clientOrderId, CANCELED, 0.0, 0.0,
                                                            executionCallback)]
      ensures !ok ==> View() == old(View())
    {
      ValidStep(View(), Cancel(orderId));
      if !connected {
        return false;
      }
      if orderId !in orders {
        return false;
      }
      var order := orders[orderId];
      if order.status != FILLED {
        orders := orders[orderId := order.(status := CANCELED)];
        Report(orderId, CANCELED, order.filledAmount, order.fillPrice);
        return true;
      }
      return false;
    }

    method ModifyOrder(orderId: string, newPrice: real, newSize: real) returns (ok: bool)
      requires Valid()
      modifies this`orders
      ensures View() == Step(old(View()), Modify(orderId, newPrice, newSize))
      ensures Valid()
      ensures ok == (connected && orderId in old(orders))
      ensures ok ==>
                var o := old(orders)[orderId];
                orders == old(orders)[orderId := o.(request := o.request.(price := newPrice, size := newSize))]
      ensures !ok ==> View() == old(View())
    {
      ValidStep(View(), Modify(orderId, newPrice, newSize));
      if !connected {
        return false;
      }
      if orderId !in orders {
        return false;
      }
      var order := orders[orderId];
      orders := orders[orderId := order.(request := order.request.(price := newPrice, size := newSize))];
      return true;
    }

    /** Runs a detached thread; the lock is held over both reports. */
    method SimulateOrderExecution(orderId: string)
      requires Valid() && orderId in detached
      modifies this`orders, this`detached, this`reports
      ensures View() == Step(old(View()), Execute(orderId))
      ensures Valid()
      ensures orderId in old(orders) && detached == old(detached) - {orderId}
      ensures var o := old(orders)[orderId];
              o.status == CANCELED ==> orders == old(orders) && TwoReports(old(reports), orderId, CANCELED, 0.0, 0.0)
      ensures var o := old(orders)[orderId];
              var size, price := o.request.size, o.request.price;
              o.status != CANCELED ==>
                && orders == old(orders)[orderId := o.(filledAmount := size, fillPrice := price, status := FILLED)]
                && TwoReports(old(reports), orderId, FILLED, size, price)
    {
      ValidStep(View(), Execute(orderId));
      assert OrderInvariant(View(), orderId);
      detached := detached - {orderId};
      if orderId !in orders {
        return;
      }
      Report(orderId, NEW, 0.0, 0.0);
      var order := orders[orderId];
      if order.status == CANCELED {
        Report(orderId, CANCELED, 0.0, 0.0);
        return;
      }
      var fillAmount := order.request.size;
      var fillPrice := order.request.price;
      orders := orders[orderId := order.(filledAmount := fillAmount, fillPrice := fillPrice, status := FILLED)];
      Report(orderId, FILLED, fillAmount, fillPrice);
    }

    /** Since `before` the order was reported NEW, and then as given. */
    predicate TwoReports(before: seq<Report>, orderId: string, status: OrderStatus, amount: real, price: real)
      requires orderId in orders
      reads this
    {
      var client := orders[orderId].request.clientOrderId;
      reports == before
                 + [Orders.Report(orderId, client, NEW, 0.0, 0.0, executionCallback)]
                 + [Orders.Report(orderId, client, status, amount, price, executionCallback)]
    }

    /** What holds of the orders and reports of an adapter at any time. */
    lemma Promises(orderId: string)
      requires Valid()
      ensures LegalTrace(Trace(reports, orderId))
      ensures orderId in orders ==> (orders[orderId].status == FILLED <==> Trace(reports, orderId) == [NEW, FILLED])
      ensures orderId in orders && orders[orderId].status != FILLED ==> Unfilled(orders[orderId])
      ensures forall r | r in reports && r.orderId == orderId :: orderId in orders && Matches(r, orders[orderId])
      ensures Total(FilledAmounts(orders)) == ReportedFills(reports)
    {
      InvariantIsLegal(View(), orderId);
    }

    /** Calls the callback, if there is one. */
    method Report(orderId: string, status: OrderStatus, amount: real, price: real)
      requires orderId in orders
      modifies this`reports
      ensures reports == old(reports) + [ReportOf(View(), orderId, status, amount, price)]
    {
      reports := reports
        + [Orders.Report(orderId, orders[orderId].request.clientOrderId, status, amount, price, executionCallback)];
    }
  }

  lemma ValidStep(s: State, a: Action)
    requires Invariant(s) && FillsBalance(s) && ReportsMatch(s)
    ensures Invariant(Step(s, a)) && FillsBalance(Step(s, a)) && ReportsMatch(Step(s, a))
  {
    InvariantStep(s, a);
    BalanceStep(s, a);
    MatchStep(s, a);
  }
}
