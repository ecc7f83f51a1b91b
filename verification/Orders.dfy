/** The order lifecycle of the mock exchange as a state machine: `submitOrder`, `cancelOrder`,
    `modifyOrder` and the asynchronous execution of each order, one step per locked region.
    A run is any sequence of such steps. */
module Orders {
  import opened Options
  import opened Sequences
  import opened Sums

  datatype OrderStatus = NEW | PARTIALLY_FILLED | FILLED | CANCELED | REJECTED
  datatype OrderSide = BUY | SELL
  datatype OrderType = MARKET | LIMIT

  datatype OrderRequest = OrderRequest(
    symbol: string, side: OrderSide, kind: OrderType, price: real, size: real, clientOrderId: string)

  datatype OrderState = OrderState(request: OrderRequest, status: OrderStatus, filledAmount: real, fillPrice: real)

  /** An execution report; `heard` tells whether a callback was registered to receive it. */
  datatype Report = Report(
    orderId: string, clientOrderId: string, status: OrderStatus, filledAmount: real, fillPrice: real, heard: bool)

  datatype State = State(
    connected: bool,
    callback: bool,
    counter: nat,
    orders: map<string, OrderState>,
    scheduled: set<string>,   // orders whose execution thread has yet to take the lock
    reports: seq<Report>)

  const INITIAL := State(false, false, 0, map[], {}, [])

  datatype Action =
    | Connect
    | Disconnect
    | SetCallback(present: bool)
    | Submit(request: OrderRequest)
    | Cancel(orderId: string)
    | Modify(orderId: string, price: real, size: real)
    | Execute(orderId: string)

  function Decimal(n: nat): string {
    if n < 10 then [Digit(n)] else Decimal(n / 10) + [Digit(n % 10)]
  }

  function Digit(d: nat): char
    requires d < 10
  {
    '0' + d as char
  }

  function OrderId(n: nat): string {
    "MOCK_" + Decimal(n)
  }

  function ReportOf(s: State, id: string, status: OrderStatus, amount: real, price: real): Report
    requires id in s.orders
  {
    Report(id, s.orders[id].request.clientOrderId, status, amount, price, s.callback)
  }

  function Step(s: State, a: Action): State {
    match a
    case Connect => s.(connected := true)
    case Disconnect => s.(connected := false)
    case SetCallback(present) => s.(callback := present)
    case Submit(request) =>
      if !s.connected then s else
        var id := OrderId(s.counter + 1);
        s.(counter := s.counter + 1,
           orders := s.orders[id := OrderState(request, NEW, 0.0, 0.0)],
           scheduled := s.scheduled + {id})
    case Cancel(id) => if Cancels(s, id) then CancelOrder(s, id) else s
    case Modify(id, price, size) =>
      if !s.connected || id !in s.orders then s else
        var o := s.orders[id];
        s.(orders := s.orders[id := o.(request := o.request.(price := price, size := size))])
    case Execute(id) =>
      if id !in s.scheduled then s else
        var t := s.(scheduled := s.scheduled - {id});
        if id !in s.orders then t else ExecuteOrder(t, id)
  }

  /** Whether `cancelOrder` returns true. */
  predicate Cancels(s: State, id: string) {
    s.connected && id in s.orders && s.orders[id].status != FILLED
  }

  function CancelOrder(s: State, id: string): State
    requires id in s.orders
  {
    var o := s.orders[id];
    s.(orders := s.orders[id := o.(status := CANCELED)],
       reports := s.reports + [ReportOf(s, id, CANCELED, o.filledAmount, o.fillPrice)])
  }

  /** NEW is reported first; then the cancellation, or the fill of what the request now asks for. */
  function ExecuteOrder(s: State, id: string): State
    requires id in s.orders
  {
    var o := s.orders[id];
    if o.status == CANCELED then
      s.(reports := s.reports + [ReportOf(s, id, NEW, 0.0, 0.0), ReportOf(s, id, CANCELED, 0.0, 0.0)])
    else
      s.(orders := s.orders[id := o.(filledAmount := o.request.size, fillPrice := o.request.price, status := FILLED)],
         reports := s.reports + [ReportOf(s, id, NEW, 0.0, 0.0),
                                 ReportOf(s, id, FILLED, o.request.size, o.request.price)])
  }

  function Exec(s: State, actions: seq<Action>): State {
    if actions == [] then s else Step(Exec(s, actions[..|actions| - 1]), actions[|actions| - 1])
  }

  // ---------------------------------------------------------------------------------------
  // Order identifiers
  // ---------------------------------------------------------------------------------------

  lemma {:induction false} DecimalInjective(m: nat, n: nat)
    requires Decimal(m) == Decimal(n)
    ensures m == n
  {
    var s, t := Decimal(m), Decimal(n);
    assert s[|s| - 1] == Digit(m % 10) && t[|t| - 1] == Digit(n % 10);
    if m >= 10 && n >= 10 {
      assert s[..|s| - 1] == Decimal(m / 10) && t[..|t| - 1] == Decimal(n / 10);
      DecimalInjective(m / 10, n / 10);
    } else {
      DecimalLength(m);
      DecimalLength(n);
    }
  }

  lemma DecimalLength(n: nat)
    ensures |Decimal(n)| == 1 <==> n < 10
  {
    if n >= 10 {
      assert |Decimal(n / 10)| >= 1;
    }
  }

  lemma OrderIdInjective(m: nat, n: nat)
    requires OrderId(m) == OrderId(n)
    ensures m == n
  {
    assert OrderId(m)[5..] == Decimal(m) && OrderId(n)[5..] == Decimal(n);
    DecimalInjective(m, n);
  }

  function DigitValue(c: char): int {
    c as int - '0' as int
  }

  /** The number a string of decimal digits stands for. */
  function ValueOf(s: string): int {
    if s == [] then 0 else 10 * ValueOf(s[..|s| - 1]) + DigitValue(s[|s| - 1])
  }

  predicate AllDigits(s: string) {
    s != "" && forall i | 0 <= i < |s| :: '0' <= s[i] <= '9'
  }

  lemma {:induction false} DecimalReads(n: nat)
    ensures AllDigits(Decimal(n)) && ValueOf(Decimal(n)) == n
    ensures Decimal(n)[0] == '0' ==> n == 0
  {
    if n < 10 {
      assert Decimal(n)[..0] == [];
    } else {
      DecimalReads(n / 10);
      assert Decimal(n)[..|Decimal(n)| - 1] == Decimal(n / 10);
    }
  }

  /** An identifier is the prefix and the counter in decimal digits, without leading zeros. */
  lemma OrderIdReads(n: nat)
    ensures var id := OrderId(n);
            && |id| > 5 && id[..5] == "MOCK_" && AllDigits(id[5..]) && ValueOf(id[5..]) == n
            && (id[5] == '0' ==> n == 0)
  {
    DecimalReads(n);
    assert OrderId(n)[5..] == Decimal(n);
  }

  // ---------------------------------------------------------------------------------------
  // Report traces
  // ---------------------------------------------------------------------------------------

  function About(id: string): Report -> bool {
    (r: Report) => r.orderId == id
  }

  function StatusOf(r: Report): OrderStatus {
    r.status
  }

  /** The statuses reported for one order, in order. */
  function Trace(reports: seq<Report>, id: string): seq<OrderStatus> {
    Select(reports, About(id), StatusOf)
  }

  /** CANCELED+ */
  predicate Cancellations(t: seq<OrderStatus>) {
    t != [] && forall i | 0 <= i < |t| :: t[i] == CANCELED
  }

  /** CANCELED+ NEW CANCELED+ */
  ghost predicate CanceledThenExecuted(t: seq<OrderStatus>) {
    exists k :: 0 <= k < |t| && t[k] == NEW && Cancellations(t[..k]) && Cancellations(t[k + 1..])
  }

  predicate Unfilled(o: OrderState) {
    o.filledAmount == 0.0 && o.fillPrice == 0.0
  }

  /** What an order's status, its execution thread, its filled amount and its reports have in common. */
  ghost predicate Consistent(o: OrderState, scheduled: bool, t: seq<OrderStatus>) {
    match o.status
    case NEW => scheduled && t == [] && Unfilled(o)
    case FILLED => !scheduled && t == [NEW, FILLED]
    case CANCELED => Unfilled(o) && if scheduled then Cancellations(t) else CanceledThenExecuted(t)
    case _ => false
  }

  ghost predicate Issued(counter: nat, id: string) {
    exists n :: 1 <= n <= counter && OrderId(n) == id
  }

  ghost predicate OrderInvariant(s: State, id: string) {
    if id in s.orders
    then Issued(s.counter, id) && Consistent(s.orders[id], id in s.scheduled, Trace(s.reports, id))
    else id !in s.scheduled && Trace(s.reports, id) == []
  }

  ghost predicate Invariant(s: State) {
    forall id :: OrderInvariant(s, id)
  }

  lemma TraceTwo(x: seq<Report>, q: Report, r: Report, id: string)
    requires q.orderId == r.orderId
    ensures Trace(x + [q, r], id) == if r.orderId == id then Trace(x, id) + [q.status, r.status] else Trace(x, id)
  {
    assert x + [q, r] == x + [q] + [r];
    SelectSnoc(x, q, About(id), StatusOf);
    SelectSnoc(x + [q], r, About(id), StatusOf);
  }

  lemma CancelTrace(t: seq<OrderStatus>)
    ensures t == [] || Cancellations(t) ==> Cancellations(t + [CANCELED])
    ensures CanceledThenExecuted(t) ==> CanceledThenExecuted(t + [CANCELED])
    ensures Cancellations(t) ==> CanceledThenExecuted(t + [NEW, CANCELED])
  {
    if CanceledThenExecuted(t) {
      var k :| 0 <= k < |t| && t[k] == NEW && Cancellations(t[..k]) && Cancellations(t[k + 1..]);
      var u := t + [CANCELED];
      assert u[..k] == t[..k] && u[k + 1..] == t[k + 1..] + [CANCELED];
      assert u[k] == NEW;
    }
    if Cancellations(t) {
      var u := t + [NEW, CANCELED];
      assert u[..|t|] == t && u[|t| + 1..] == [CANCELED] && u[|t|] == NEW;
    }
  }

  lemma ConsistentCancel(o: OrderState, scheduled: bool, t: seq<OrderStatus>)
    requires Consistent(o, scheduled, t) && o.status != FILLED
    ensures Consistent(o.(status := CANCELED), scheduled, t + [CANCELED])
  {
    CancelTrace(t);
  }

  lemma ConsistentExecute(o: OrderState, t: seq<OrderStatus>)
    requires Consistent(o, true, t)
    ensures o.status == CANCELED ==> Consistent(o, false, t + [NEW, CANCELED])
    ensures o.status != CANCELED ==>
              Consistent(o.(filledAmount := o.request.size, fillPrice := o.request.price, status := FILLED), false,
                         t + [NEW, FILLED])
  {
    CancelTrace(t);
  }

  /** A step that makes no report about an order, and does not change its state or schedule. */
  lemma OthersKeep(s: State, t: State, id: string)
    requires OrderInvariant(s, id) && t.counter >= s.counter
    requires id in t.orders <==> id in s.orders
    requires id in s.orders ==> t.orders[id] == s.orders[id]
    requires id in t.scheduled <==> id in s.scheduled
    requires Trace(t.reports, id) == Trace(s.reports, id)
    ensures OrderInvariant(t, id)
  {
    if id in s.orders {
      var n :| 1 <= n <= s.counter && OrderId(n) == id;
      assert 1 <= n <= t.counter && OrderId(n) == id;
    }
  }

  lemma StepKeeps(s: State, a: Action, id: string)
    requires Invariant(s)
    ensures OrderInvariant(Step(s, a), id)
  {
    assert OrderInvariant(s, id);
    match a
    case Submit(request) => SubmitKeeps(s, request, id);
    case Cancel(other) => CancelKeeps(s, other, id);
    case Modify(other, price, size) => ModifyKeeps(s, other, price, size, id);
    case Execute(other) =>
      assert OrderInvariant(s, other);
      ExecuteKeeps(s, other, id);
    case _ => OthersKeep(s, Step(s, a), id);
  }

  lemma SubmitKeeps(s: State, request: OrderRequest, id: string)
    requires Invariant(s)
    ensures OrderInvariant(Step(s, Submit(request)), id)
  {
    assert OrderInvariant(s, id);
    FreshId(s);
    var t, next := Step(s, Submit(request)), OrderId(s.counter + 1);
    if s.connected && id == next {
      assert Issued(t.counter, id);
    } else {
      OthersKeep(s, t, id);
    }
  }

  lemma CancelKeeps(s: State, other: string, id: string)
    requires OrderInvariant(s, id)
    ensures OrderInvariant(Step(s, Cancel(other)), id)
  {
    if Cancels(s, other) {
      var o := s.orders[other];
      SelectSnoc(s.reports, ReportOf(s, other, CANCELED, o.filledAmount, o.fillPrice), About(id), StatusOf);
      if id == other {
        ConsistentCancel(o, id in s.scheduled, Trace(s.reports, id));
      } else {
        OthersKeep(s, Step(s, Cancel(other)), id);
      }
    }
  }

  lemma ModifyKeeps(s: State, other: string, price: real, size: real, id: string)
    requires OrderInvariant(s, id)
    ensures OrderInvariant(Step(s, Modify(other, price, size)), id)
  {
    if id != other {
      OthersKeep(s, Step(s, Modify(other, price, size)), id);
    }
  }

  /** The next identifier has never been used. */
  lemma FreshId(s: State)
    requires Invariant(s)
    ensures OrderId(s.counter + 1) !in s.orders
    ensures OrderId(s.counter + 1) !in s.scheduled && Trace(s.reports, OrderId(s.counter + 1)) == []
  {
    var id := OrderId(s.counter + 1);
    assert OrderInvariant(s, id);
    if id in s.orders {
      var n :| 1 <= n <= s.counter && OrderId(n) == id;
      OrderIdInjective(n, s.counter + 1);
      assert false;
    }
  }

  lemma ExecuteTrace(s: State, other: string, id: string)
    requires other in s.scheduled && other in s.orders
    ensures Trace(Step(s, Execute(other)).reports, id)
         == if id != other then Trace(s.reports, id)
            else Trace(s.reports, id) + [NEW, if s.orders[other].status == CANCELED then CANCELED else FILLED]
  {
    var o, first := s.orders[other], ReportOf(s, other, NEW, 0.0, 0.0);
    if o.status == CANCELED {
      TraceTwo(s.reports, first, ReportOf(s, other, CANCELED, 0.0, 0.0), id);
    } else {
      TraceTwo(s.reports, first, ReportOf(s, other, FILLED, o.request.size, o.request.price), id);
    }
  }

  lemma ExecuteKeeps(s: State, other: string, id: string)
    requires OrderInvariant(s, other) && OrderInvariant(s, id)
    ensures OrderInvariant(Step(s, Execute(other)), id)
  {
    if other in s.scheduled {
      ExecuteTrace(s, other, id);
      if id == other {
        ConsistentExecute(s.orders[id], Trace(s.reports, id));
      } else {
        OthersKeep(s, Step(s, Execute(other)), id);
      }
    }
  }

  lemma InvariantStep(s: State, a: Action)
    requires Invariant(s)
    ensures Invariant(Step(s, a))
  {
    forall id
      ensures OrderInvariant(Step(s, a), id)
    {
      StepKeeps(s, a, id);
    }
  }

  lemma {:induction false} InvariantHolds(actions: seq<Action>)
    ensures Invariant(Exec(INITIAL, actions))
  {
    if actions == [] {
      forall id
        ensures OrderInvariant(INITIAL, id)
      {
      }
    } else {
      var init, last := actions[..|actions| - 1], actions[|actions| - 1];
      InvariantHolds(init);
      InvariantStep(Exec(INITIAL, init), last);
    }
  }

  ghost predicate LegalTrace(t: seq<OrderStatus>) {
    t == [] || t == [NEW, FILLED] || Cancellations(t) || CanceledThenExecuted(t)
  }

  lemma InvariantIsLegal(s: State, id: string)
    requires Invariant(s)
    ensures LegalTrace(Trace(s.reports, id))
    ensures id in s.orders && s.orders[id].status != FILLED ==> Unfilled(s.orders[id])
    ensures id in s.orders ==> (s.orders[id].status == FILLED <==> Trace(s.reports, id) == [NEW, FILLED])
  {
    assert OrderInvariant(s, id);
    var t := Trace(s.reports, id);
    assert [NEW, FILLED][0] == NEW;
    if CanceledThenExecuted(t) {
      var k :| 0 <= k < |t| && t[k] == NEW && Cancellations(t[..k]) && Cancellations(t[k + 1..]);
      assert t[..k][0] == t[0];
    }
  }

  /** In every run, what is reported about an order is nothing, NEW FILLED, CANCELED+, or
      CANCELED+ NEW CANCELED+. */
  lemma ReportTraces(actions: seq<Action>, id: string)
    ensures var t := Trace(Exec(INITIAL, actions).reports, id);
            LegalTrace(t)
  {
    InvariantHolds(actions);
    InvariantIsLegal(Exec(INITIAL, actions), id);
  }

  // ---------------------------------------------------------------------------------------
  // Every one of these traces does occur
  // ---------------------------------------------------------------------------------------

  function Repeat<T>(x: T, n: nat): seq<T> {
    seq(n, _ => x)
  }

  lemma ExecSnoc(s: State, actions: seq<Action>, a: Action)
    ensures Exec(s, actions + [a]) == Step(Exec(s, actions), a)
  {
    assert (actions + [a])[..|actions|] == actions;
  }

  lemma {:induction false} ExecConcat(s: State, x: seq<Action>, y: seq<Action>)
    ensures Exec(s, x + y) == Exec(Exec(s, x), y)
  {
    if y == [] {
      assert x + y == x;
    } else {
      var init := y[..|y| - 1];
      assert (x + y)[..|x + y| - 1] == x + init;
      ExecConcat(s, x, init);
    }
  }

  lemma CancelOnce(s: State, id: string)
    requires Cancels(s, id)
    ensures var t := Step(s, Cancel(id));
            Cancels(t, id) && t.orders[id].status == CANCELED && t.scheduled == s.scheduled
            && Trace(t.reports, id) == Trace(s.reports, id) + [CANCELED]
  {
    var o := s.orders[id];
    SelectSnoc(s.reports, ReportOf(s, id, CANCELED, o.filledAmount, o.fillPrice), About(id), StatusOf);
  }

  /** An order can be canceled any number of times, and is reported canceled each time. */
  lemma {:induction false} CancelAgain(s: State, id: string, n: nat)
    requires Cancels(s, id)
    ensures var t := Exec(s, Repeat(Cancel(id), n));
            Cancels(t, id) && t.scheduled == s.scheduled
            && (n > 0 ==> t.orders[id].status == CANCELED)
            && Trace(t.reports, id) == Trace(s.reports, id) + Repeat(CANCELED, n)
  {
    if n == 0 {
      assert Trace(s.reports, id) + [] == Trace(s.reports, id);
    } else {
      var init, before := Repeat(Cancel(id), n - 1), Repeat(CANCELED, n - 1);
      CancelAgain(s, id, n - 1);
      CancelOnce(Exec(s, init), id);
      ExecSnoc(s, init, Cancel(id));
      assert Repeat(Cancel(id), n) == init + [Cancel(id)];
      assert Trace(s.reports, id) + before + [CANCELED] == Trace(s.reports, id) + Repeat(CANCELED, n);
    }
  }

  lemma Submitted(request: OrderRequest) returns (actions: seq<Action>, id: string)
    ensures var s := Exec(INITIAL, actions);
            Cancels(s, id) && s.orders[id].status == NEW && id in s.scheduled && Trace(s.reports, id) == []
  {
    id := OrderId(1);
    ExecSnoc(INITIAL, [], Connect);
    ExecSnoc(INITIAL, [] + [Connect], Submit(request));
    actions := [] + [Connect] + [Submit(request)];
  }

  lemma ExecuteCanceled(s: State, id: string)
    requires Cancels(s, id) && id in s.scheduled && s.orders[id].status == CANCELED
    ensures Cancels(Step(s, Execute(id)), id)
    ensures Trace(Step(s, Execute(id)).reports, id) == Trace(s.reports, id) + [NEW, CANCELED]
  {
    ExecuteTrace(s, id, id);
  }

  lemma CanceledRun(s: State, id: string, before: nat, after: nat) returns (actions: seq<Action>)
    requires Cancels(s, id) && id in s.scheduled && before > 0 && Trace(s.reports, id) == []
    ensures Trace(Exec(s, actions).reports, id)
         == Repeat(CANCELED, before) + [NEW, CANCELED] + Repeat(CANCELED, after)
  {
    var first, last := Repeat(Cancel(id), before), Repeat(Cancel(id), after);
    CancelAgain(s, id, before);
    var t := Exec(s, first);
    assert Trace(t.reports, id) == Repeat(CANCELED, before);
    ExecuteCanceled(t, id);
    CancelAgain(Step(t, Execute(id)), id, after);
    actions := first + [Execute(id)] + last;
    ExecSnoc(s, first, Execute(id));
    ExecConcat(s, first + [Execute(id)], last);
  }

  lemma CanceledIsRepeat(t: seq<OrderStatus>)
    requires Cancellations(t)
    ensures t == Repeat(CANCELED, |t|)
  {
  }

  lemma CanceledThenExecutedIs(t: seq<OrderStatus>) returns (before: nat, after: nat)
    requires CanceledThenExecuted(t)
    ensures before > 0 && t == Repeat(CANCELED, before) + [NEW, CANCELED] + Repeat(CANCELED, after)
  {
    var k :| 0 <= k < |t| && t[k] == NEW && Cancellations(t[..k]) && Cancellations(t[k + 1..]);
    before, after := k, |t| - k - 2;
    CanceledIsRepeat(t[..k]);
    CanceledIsRepeat(t[k + 1..]);
    assert t == t[..k] + [t[k]] + t[k + 1..];
    NewBeforeCanceled(t[..k], after);
  }

  lemma NewBeforeCanceled(t: seq<OrderStatus>, n: nat)
    ensures t + [NEW] + Repeat(CANCELED, n + 1) == t + [NEW, CANCELED] + Repeat(CANCELED, n)
  {
  }

  lemma LegalTraceHappens(t: seq<OrderStatus>, request: OrderRequest) returns (actions: seq<Action>, id: string)
    requires LegalTrace(t)
    ensures Trace(Exec(INITIAL, actions).reports, id) == t
  {
    var start;
    start, id := Submitted(request);
    var rest := LegalTraceFollows(Exec(INITIAL, start), id, t);
    ExecConcat(INITIAL, start, rest);
    actions := start + rest;
  }

  lemma LegalTraceFollows(s: State, id: string, t: seq<OrderStatus>) returns (actions: seq<Action>)
    requires Cancels(s, id) && s.orders[id].status == NEW && id in s.scheduled && Trace(s.reports, id) == []
    requires LegalTrace(t)
    ensures Trace(Exec(s, actions).reports, id) == t
  {
    if t == [] {
      actions := [];
    } else if t == [NEW, FILLED] {
      ExecuteTrace(s, id, id);
      ExecSnoc(s, [], Execute(id));
      actions := [] + [Execute(id)];
    } else if Cancellations(t) {
      CancelAgain(s, id, |t|);
      CanceledIsRepeat(t);
      actions := Repeat(Cancel(id), |t|);
    } else {
      var before, after := CanceledThenExecutedIs(t);
      actions := CanceledRun(s, id, before, after);
    }
  }

  ghost predicate Reportable(t: seq<OrderStatus>) {
    exists actions, id :: Trace(Exec(INITIAL, actions).reports, id) == t
  }

  /** The traces an order can have are exactly these. */
  lemma ReportTracesExact(t: seq<OrderStatus>)
    ensures Reportable(t) <==> LegalTrace(t)
  {
    if Reportable(t) {
      var actions, id :| Trace(Exec(INITIAL, actions).reports, id) == t;
      ReportTraces(actions, id);
    }
    if LegalTrace(t) {
      var actions, id := LegalTraceHappens(t, OrderRequest("", BUY, LIMIT, 1.0, 1.0, ""));
    }
  }

  /** What a callback registered all along may have been told about one order at some moment, also
      between the two reports of one execution. */
  ghost predicate Observable(t: seq<OrderStatus>) {
    exists actions, n: nat, id :: n <= |Exec(INITIAL, actions).reports| && ObservedAt(actions, n, id, t)
  }

  predicate ObservedAt(actions: seq<Action>, n: nat, id: string, t: seq<OrderStatus>)
    requires n <= |Exec(INITIAL, actions).reports|
  {
    Trace(Exec(INITIAL, actions).reports[..n], id) == t
  }

  lemma {:induction false} TraceReaches(reports: seq<Report>, id: string, t: seq<OrderStatus>) returns (n: nat)
    requires t <= Trace(reports, id)
    ensures n <= |reports| && Trace(reports[..n], id) == t
  {
    if t == Trace(reports, id) {
      n := |reports|;
      assert reports[..n] == reports;
    } else {
      var init := reports[..|reports| - 1];
      n := TraceReaches(init, id, t);
      assert init[..n] == reports[..n];
    }
  }

  /** At any moment an order's reports are the beginning of such a trace, and each beginning occurs. */
  lemma ObservedExact(t: seq<OrderStatus>)
    ensures Observable(t) <==> exists whole :: LegalTrace(whole) && t <= whole
  {
    if Observable(t) {
      var actions, n: nat, id :| n <= |Exec(INITIAL, actions).reports| && ObservedAt(actions, n, id, t);
      var reports := Exec(INITIAL, actions).reports;
      ReportTraces(actions, id);
      assert reports == reports[..n] + reports[n..];
      SelectConcat(reports[..n], reports[n..], About(id), StatusOf);
      assert t <= Trace(reports, id);
    }
    if whole :| LegalTrace(whole) && t <= whole {
      var actions, id := LegalTraceHappens(whole, OrderRequest("", BUY, LIMIT, 1.0, 1.0, ""));
      var n := TraceReaches(Exec(INITIAL, actions).reports, id, t);
      assert ObservedAt(actions, n, id, t);
    }
  }

  // ---------------------------------------------------------------------------------------
  // FILLED and CANCELED are final
  // ---------------------------------------------------------------------------------------

  ghost predicate Final(before: State, after: State, id: string)
    requires id in before.orders
  {
    && id in after.orders
    && (before.orders[id].status == CANCELED ==> after.orders[id].status == CANCELED)
    && (before.orders[id].status == FILLED ==>
          && after.orders[id].status == FILLED
          && after.orders[id].filledAmount == before.orders[id].filledAmount
          && after.orders[id].fillPrice == before.orders[id].fillPrice
          && Trace(after.reports, id) == Trace(before.reports, id))
  }

  lemma FinalCancel(s: State, other: string, id: string)
    requires id in s.orders && Cancels(s, other)
    ensures Final(s, Step(s, Cancel(other)), id)
  {
    var o := s.orders[other];
    SelectSnoc(s.reports, ReportOf(s, other, CANCELED, o.filledAmount, o.fillPrice), About(id), StatusOf);
  }

  lemma FinalExecute(s: State, other: string, id: string)
    requires OrderInvariant(s, other) && id in s.orders && other in s.scheduled
    ensures Final(s, Step(s, Execute(other)), id)
  {
    ExecuteTrace(s, other, id);
  }

  lemma FinalStep(s: State, a: Action, id: string)
    requires Invariant(s) && id in s.orders
    ensures Final(s, Step(s, a), id)
  {
    FreshId(s);
    if a.Execute? && a.orderId in s.scheduled {
      assert OrderInvariant(s, a.orderId);
      FinalExecute(s, a.orderId, id);
    } else if a.Cancel? && Cancels(s, a.orderId) {
      FinalCancel(s, a.orderId, id);
    }
  }

  /** Once filled, an order keeps its status, amount and price and is never reported again;
      once canceled, it stays canceled. */
  lemma {:induction false} FinalStatuses(past: seq<Action>, future: seq<Action>, id: string)
    requires id in Exec(INITIAL, past).orders
    ensures Final(Exec(INITIAL, past), Exec(INITIAL, past + future), id)
  {
    if future == [] {
      assert past + future == past;
    } else {
      var init, last := future[..|future| - 1], future[|future| - 1];
      assert past + future == past + init + [last];
      FinalStatuses(past, init, id);
      InvariantHolds(past + init);
      FinalStep(Exec(INITIAL, past + init), last, id);
      ExecSnoc(INITIAL, past + init, last);
    }
  }

  // ---------------------------------------------------------------------------------------
  // Filled quantity
  // ---------------------------------------------------------------------------------------

  function FilledAmounts(orders: map<string, OrderState>): map<string, real> {
    map id | id in orders :: orders[id].filledAmount
  }

  /** The amounts of all FILLED reports. */
  function ReportedFills(reports: seq<Report>): real {
    if reports == [] then 0.0 else
      var last := reports[|reports| - 1];
      ReportedFills(reports[..|reports| - 1]) + (if last.status == FILLED then last.filledAmount else 0.0)
  }

  lemma FillsOne(x: seq<Report>, r: Report)
    ensures ReportedFills(x + [r]) == ReportedFills(x) + if r.status == FILLED then r.filledAmount else 0.0
  {
    assert (x + [r])[..|x|] == x;
  }

  lemma FillsTwo(x: seq<Report>, q: Report, r: Report)
    requires q.status == NEW
    ensures ReportedFills(x + [q, r]) == ReportedFills(x) + if r.status == FILLED then r.filledAmount else 0.0
  {
    assert x + [q, r] == x + [q] + [r];
    FillsOne(x, q);
    FillsOne(x + [q], r);
  }

  ghost predicate FillsBalance(s: State) {
    Total(FilledAmounts(s.orders)) == ReportedFills(s.reports)
  }

  lemma SetOrder(orders: map<string, OrderState>, id: string, o: OrderState)
    ensures Total(FilledAmounts(orders[id := o]))
         == Total(FilledAmounts(orders)) - ValueAt(FilledAmounts(orders), id) + o.filledAmount
  {
    assert FilledAmounts(orders[id := o]) == FilledAmounts(orders)[id := o.filledAmount];
    TotalPut(FilledAmounts(orders), id, o.filledAmount);
  }

  lemma BalanceSubmit(s: State, request: OrderRequest)
    requires Invariant(s) && FillsBalance(s)
    ensures FillsBalance(Step(s, Submit(request)))
  {
    FreshId(s);
    SetOrder(s.orders, OrderId(s.counter + 1), OrderState(request, NEW, 0.0, 0.0));
  }

  lemma BalanceCancel(s: State, id: string)
    requires FillsBalance(s)
    ensures FillsBalance(Step(s, Cancel(id)))
  {
    if Cancels(s, id) {
      var o := s.orders[id];
      SetOrder(s.orders, id, o.(status := CANCELED));
      FillsOne(s.reports, ReportOf(s, id, CANCELED, o.filledAmount, o.fillPrice));
    }
  }

  lemma BalanceModify(s: State, id: string, price: real, size: real)
    requires FillsBalance(s)
    ensures FillsBalance(Step(s, Modify(id, price, size)))
  {
    if id in s.orders {
      var o := s.orders[id];
      SetOrder(s.orders, id, o.(request := o.request.(price := price, size := size)));
    }
  }

  lemma BalanceStep(s: State, a: Action)
    requires Invariant(s) && FillsBalance(s)
    ensures FillsBalance(Step(s, a))
  {
    match a
    case Submit(request) => BalanceSubmit(s, request);
    case Cancel(id) => BalanceCancel(s, id);
    case Modify(id, price, size) => BalanceModify(s, id, price, size);
    case Execute(id) =>
      assert OrderInvariant(s, id);
      if id in s.scheduled {
        BalanceExecute(s, id);
      }
    case _ =>
  }

  lemma BalanceExecute(s: State, id: string)
    requires OrderInvariant(s, id) && FillsBalance(s) && id in s.scheduled
    ensures FillsBalance(Step(s, Execute(id)))
  {
    var o := s.orders[id];
    var first := ReportOf(s, id, NEW, 0.0, 0.0);
    if o.status == CANCELED {
      FillsTwo(s.reports, first, ReportOf(s, id, CANCELED, 0.0, 0.0));
    } else {
      SetOrder(s.orders, id, o.(filledAmount := o.request.size, fillPrice := o.request.price, status := FILLED));
      FillsTwo(s.reports, first, ReportOf(s, id, FILLED, o.request.size, o.request.price));
    }
  }

  /** In every run the filled amounts of all orders add up to the amounts reported as filled, and an
      order that is not filled has none. */
  lemma {:induction false} FillsConserved(actions: seq<Action>)
    ensures FillsBalance(Exec(INITIAL, actions))
    ensures var orders := Exec(INITIAL, actions).orders;
            forall id | id in orders && orders[id].status != FILLED :: Unfilled(orders[id])
  {
    if actions != [] {
      var init := actions[..|actions| - 1];
      FillsConserved(init);
      InvariantHolds(init);
      BalanceStep(Exec(INITIAL, init), actions[|actions| - 1]);
    }
    InvariantHolds(actions);
    var s := Exec(INITIAL, actions);
    forall id | id in s.orders && s.orders[id].status != FILLED
      ensures Unfilled(s.orders[id])
    {
      assert OrderInvariant(s, id);
    }
  }

  // ---------------------------------------------------------------------------------------
  // What a report says
  // ---------------------------------------------------------------------------------------

  /** A report carries its order's client identifier.  A FILLED report carries the amount and price the
      order was filled with; any other report carries zeros. */
  predicate Matches(r: Report, o: OrderState) {
    && r.clientOrderId == o.request.clientOrderId
    && if r.status == FILLED
       then o.status == FILLED && r.filledAmount == o.filledAmount && r.fillPrice == o.fillPrice
       else r.filledAmount == 0.0 && r.fillPrice == 0.0
  }

  ghost predicate ReportsMatch(s: State) {
    forall r | r in s.reports :: r.orderId in s.orders && Matches(r, s.orders[r.orderId])
  }

  lemma MatchSubmit(s: State, request: OrderRequest)
    requires Invariant(s) && ReportsMatch(s)
    ensures ReportsMatch(Step(s, Submit(request)))
  {
    FreshId(s);
  }

  lemma MatchExecute(s: State, id: string)
    requires OrderInvariant(s, id) && ReportsMatch(s)
    ensures ReportsMatch(Step(s, Execute(id)))
  {
    var t := Step(s, Execute(id));
    forall r | r in t.reports
      ensures r.orderId in t.orders && Matches(r, t.orders[r.orderId])
    {
      if r in s.reports {
        assert r.orderId in s.orders && Matches(r, s.orders[r.orderId]);
      }
    }
  }

  lemma MatchStep(s: State, a: Action)
    requires Invariant(s) && ReportsMatch(s)
    ensures ReportsMatch(Step(s, a))
  {
    match a
    case Submit(request) => MatchSubmit(s, request);
    case Cancel(id) => assert OrderInvariant(s, id);
    case Execute(id) =>
      assert OrderInvariant(s, id);
      MatchExecute(s, id);
    case _ =>
  }

  /** In every run every report names its order's client and carries the fill, or zeros if it is none. */
  lemma {:induction false} ReportsCarryFills(actions: seq<Action>)
    ensures ReportsMatch(Exec(INITIAL, actions))
  {
    if actions != [] {
      var init := actions[..|actions| - 1];
      ReportsCarryFills(init);
      InvariantHolds(init);
      MatchStep(Exec(INITIAL, init), actions[|actions| - 1]);
    }
  }

  // ---------------------------------------------------------------------------------------
  // What an order is filled with
  // ---------------------------------------------------------------------------------------

  /** Read off the history alone: connected by the last of the connection calls ... */
  predicate ConnectedAfter(actions: seq<Action>) {
    actions != [] &&
      var init, last := actions[..|actions| - 1], actions[|actions| - 1];
      last.Connect? || (!last.Disconnect? && ConnectedAfter(init))
  }

  /** ... the number of orders accepted ... */
  function AcceptedOrders(actions: seq<Action>): nat {
    if actions == [] then 0 else
      var init, last := actions[..|actions| - 1], actions[|actions| - 1];
      AcceptedOrders(init) + (if last.Submit? && ConnectedAfter(init) then 1 else 0)
  }

  /** ... and the request an order was submitted with, at the price and size it was last given. */
  function LatestRequest(actions: seq<Action>, id: string): Option<OrderRequest> {
    if actions == [] then None else
      var init, last := actions[..|actions| - 1], actions[|actions| - 1];
      var request := LatestRequest(init, id);
      if !ConnectedAfter(init) then request
      else if last.Submit? && OrderId(AcceptedOrders(init) + 1) == id then Some(last.request)
      else if last.Modify? && last.orderId == id && request.Some?
      then Some(request.value.(price := last.price, size := last.size))
      else request
  }

  function RequestOf(s: State, id: string): Option<OrderRequest> {
    if id in s.orders then Some(s.orders[id].request) else None
  }

  lemma RequestStep(s: State, a: Action, id: string)
    ensures RequestOf(Step(s, a), id)
         == if s.connected && a.Submit? && OrderId(s.counter + 1) == id then Some(a.request)
            else if s.connected && a.Modify? && a.orderId == id && id in s.orders
            then Some(s.orders[id].request.(price := a.price, size := a.size))
            else RequestOf(s, id)
  {
  }

  /** Whether the adapter is connected, how many orders it accepted, and what each of them asks for, is
      what the history says. */
  lemma {:induction false} HistoryMatches(actions: seq<Action>, id: string)
    ensures var s := Exec(INITIAL, actions);
            && s.connected == ConnectedAfter(actions) && s.counter == AcceptedOrders(actions)
            && LatestRequest(actions, id) == RequestOf(s, id)
  {
    if actions != [] {
      var init := actions[..|actions| - 1];
      HistoryMatches(init, id);
      RequestStep(Exec(INITIAL, init), actions[|actions| - 1], id);
    }
  }

  /** Disconnected, the adapter neither accepts, cancels nor modifies an order. */
  lemma DisconnectedRefuses(actions: seq<Action>, a: Action)
    requires !ConnectedAfter(actions) && (a.Submit? || a.Cancel? || a.Modify?)
    ensures Exec(INITIAL, actions + [a]) == Exec(INITIAL, actions)
  {
    HistoryMatches(actions, "");
    ExecSnoc(INITIAL, actions, a);
  }

  /** Step `k` executes the order, makes the report, and makes it with what was asked for just before. */
  ghost predicate FilledFrom(actions: seq<Action>, r: Report, k: nat) {
    && k < |actions| && actions[k] == Execute(r.orderId)
    && r !in Exec(INITIAL, actions[..k]).reports && r in Exec(INITIAL, actions[..k + 1]).reports
    && var request := LatestRequest(actions[..k], r.orderId);
       request.Some? && request.value.price == r.fillPrice && request.value.size == r.filledAmount
       && request.value.clientOrderId == r.clientOrderId
  }

  /** Every fill has the price and size the order had been given by the time it executed:
      earlier modifications count, later ones do not. */
  lemma {:induction false} FillsUseLatestTerms(actions: seq<Action>, r: Report)
    requires r in Exec(INITIAL, actions).reports && r.status == FILLED
    ensures exists k: nat :: FilledFrom(actions, r, k)
  {
    if actions != [] {
      var init, last := actions[..|actions| - 1], actions[|actions| - 1];
      var s := Exec(INITIAL, init);
      if r in s.reports {
        FillsUseLatestTerms(init, r);
        var k: nat :| FilledFrom(init, r, k);
        assert actions[..k] == init[..k] && actions[..k + 1] == init[..k + 1];
        assert FilledFrom(actions, r, k);
      } else {
        HistoryMatches(init, r.orderId);
        assert last == Execute(r.orderId);
        assert actions[..|init| + 1] == actions;
        assert FilledFrom(actions, r, |init|);
      }
    }
  }

  // ---------------------------------------------------------------------------------------
  // What a callback receives
  // ---------------------------------------------------------------------------------------

  function HeardAbout(id: string): Report -> bool {
    (r: Report) => r.heard && r.orderId == id
  }

  /** The statuses of one order that the callback was called with. */
  function Received(reports: seq<Report>, id: string): seq<OrderStatus> {
    Select(reports, HeardAbout(id), StatusOf)
  }

  lemma HeardStep(s: State, a: Action)
    requires a != SetCallback(!s.callback)
    ensures Step(s, a).callback == s.callback && s.reports <= Step(s, a).reports
    ensures forall i | |s.reports| <= i < |Step(s, a).reports| :: Step(s, a).reports[i].heard == s.callback
  {
  }

  /** As long as nobody changes the registration, every report is heard if a callback is registered, and
      none is if there is none. */
  lemma {:induction false} CallbackDecides(s: State, actions: seq<Action>)
    requires SetCallback(!s.callback) !in actions
    ensures var t := Exec(s, actions);
            && t.callback == s.callback && s.reports <= t.reports
            && forall i | |s.reports| <= i < |t.reports| :: t.reports[i].heard == s.callback
  {
    if actions != [] {
      var init, last := actions[..|actions| - 1], actions[|actions| - 1];
      assert actions == init + [last];
      CallbackDecides(s, init);
      HeardStep(Exec(s, init), last);
    }
  }

  /** In every run: once a callback is registered and until it is taken away, it receives every report
      made about an order; once it is taken away and until one is registered again, none. */
  lemma RegistrationDecides(before: seq<Action>, present: bool, after: seq<Action>, id: string)
    requires SetCallback(!present) !in after
    ensures var u, t := Exec(INITIAL, before), Exec(INITIAL, before + [SetCallback(present)] + after);
            && u.reports <= t.reports
            && Received(t.reports, id)
               == Received(u.reports, id) + (if present then Trace(t.reports[|u.reports|..], id) else [])
  {
    var u := Exec(INITIAL, before);
    ExecSnoc(INITIAL, before, SetCallback(present));
    ExecConcat(INITIAL, before + [SetCallback(present)], after);
    CallbackDecides(Step(u, SetCallback(present)), after);
    var t := Exec(INITIAL, before + [SetCallback(present)] + after);
    ReceivedSince(u.reports, t.reports, id, present);
  }

  lemma ReceivedSince(past: seq<Report>, reports: seq<Report>, id: string, present: bool)
    requires past <= reports && forall i | |past| <= i < |reports| :: reports[i].heard == present
    ensures Received(reports, id)
         == Received(past, id) + (if present then Trace(reports[|past|..], id) else [])
  {
    var since := reports[|past|..];
    assert reports == past + since;
    SelectConcat(past, since, HeardAbout(id), StatusOf);
    if present {
      SelectSame(since, HeardAbout(id), About(id), StatusOf);
    } else {
      SelectNone(since, HeardAbout(id), StatusOf);
    }
  }

  /** With a callback registered before the first order and kept, the callback receives an order's whole
      report trace; with none registered, nothing. */
  lemma ReceivedTraces(present: bool, actions: seq<Action>, id: string)
    requires SetCallback(!present) !in actions
    ensures var s := Exec(INITIAL, [SetCallback(present)] + actions);
            Received(s.reports, id) == if present then Trace(s.reports, id) else []
    ensures LegalTrace(Received(Exec(INITIAL, [SetCallback(present)] + actions).reports, id))
  {
    assert [] + [SetCallback(present)] + actions == [SetCallback(present)] + actions;
    RegistrationDecides([], present, actions, id);
    ReportTraces([SetCallback(present)] + actions, id);
    var s := Exec(INITIAL, [SetCallback(present)] + actions);
    assert s.reports[0..] == s.reports;
  }
}
