/** The orders the consumers submit: the full data of their signals, in the order in which they are
    confirmed. */
module Submissions {
  import opened Machine
  import opened Messages
  import opened TradingSteps
  import opened Pipeline
  import opened Orders

  // ----- What an order says -----

  /** Everything an order says of its signal. What a feed's order has no room for is left empty. */
  datatype OrderData = OrderData(
    token: int, side: Side, quantity: int, price: int, stock: Bytes, symbol: Bytes, series: Bytes)

  function SignalData(s: StrategySignal): OrderData {
    match s.feed
    case ItchFeed => OrderData(s.orderToken, s.side, Word(s.quantity), Word(s.price), s.stock, [], [])
    case MtbtFeed => OrderData(s.token, s.side, s.quantity, s.price, [], s.symbol, s.series)
    case SbeFeed => OrderData(s.orderToken, s.side, s.quantity, s.price, [], [], [])
    case McxFeed => OrderData(s.orderToken, s.side, s.quantity, s.price, [], s.symbol, [])
  }

  /** OUCH writes the side as a letter, the other protocols as 1 and 2. */
  function SideOfLetter(c: char): Side { if c == 'B' then Buy else if c == 'S' then Sell else NoSide }
  function SideOfNumber(n: int): Side { if n == 1 then Buy else if n == 2 then Sell else NoSide }

  function RequestData(m: Message): OrderData
    requires m.IsRequest()
  {
    match m
    case OuchRequest(o) => OrderData(o.orderToken, SideOfLetter(o.side), o.shares, o.price, o.stock, [], [])
    case NnfRequest(o) =>
      OrderData(o.transactionId, SideOfNumber(o.buySell), o.volume, o.price, [], o.symbol, o.series)
    case SbeRequest(o) => OrderData(LinkToken(o.orderLinkId), SideOfNumber(o.side), o.qty, o.price, [], [], [])
    case McxRequest(o) => OrderData(o.clOrdId, SideOfNumber(o.side), o.orderQty, o.price, [], o.freeText, [])
  }

  /** The account a consumer was constructed with is on its order, and the link id of an SBE order is
      "lnk" and the token. */
  predicate NamesAccount(m: Message, a: Account) {
    && (m.NnfRequest? ==> m.nnf.traderId == a.traderId)
    && (m.SbeRequest? ==> m.sbe.symbolId == a.symbolId && [108, 110, 107] <= m.sbe.orderLinkId)
    && (m.McxRequest? ==> m.mcxOrder.senderSubId == a.senderSubId && m.mcxOrder.securityId == a.securityId)
  }

  /** Text that a character array of an MCX order holds uncut. */
  predicate ShortText(text: Bytes) {
    |text| <= 11 && forall i :: 0 <= i < |text| ==> text[i] != 0
  }

  lemma {:induction false} NothingTerminated(text: Bytes)
    requires forall i :: 0 <= i < |text| ==> text[i] != 0
    ensures Terminated(text) == text
  {
    if text != [] { NothingTerminated(text[1..]); }
  }

  lemma {:induction false} TerminatedHasNoZero(b: Bytes)
    ensures forall i :: 0 <= i < |Terminated(b)| ==> Terminated(b)[i] != 0
  {
    if b != [] && b[0] != 0 { TerminatedHasNoZero(b[1..]); }
  }

  /** An order says what its signal says. */
  lemma OrderSaysSignal(a: Account, c: Consumer, s: StrategySignal)
    requires s.side != NoSide && (s.feed == McxFeed ==> ShortText(s.symbol))
    ensures var m := MakeOrder(s.feed, a, c, s);
      RequestOf(s.feed, m) && RequestData(m) == SignalData(s) && NamesAccount(m, a)
  {
    LinkNamesToken(s.orderToken);
    if s.feed == McxFeed { NothingTerminated(s.symbol); }
  }

  // ----- The log of orders -----

  /** What a step appends to the pending queue. */
  function NewOrders(y: System, s: Step, a: Account): seq<Message> {
    if s.Consume? && |Consuming(y, s.feed, a).pending| > |y.pending| then Consuming(y, s.feed, a).pending[|y.pending|..]
    else []
  }

  /** All orders submitted in a run, in order. */
  function OrderLog(y: System, steps: seq<Step>, a: Account, bps: int): seq<Message>
    decreases |steps|
  {
    if steps == [] then []
    else NewOrders(y, steps[0], a) + OrderLog(Apply(y, steps[0], a, bps), steps[1..], a, bps)
  }

  function QueuedData(f: Feed, ms: seq<Message>): multiset<OrderData> {
    if ms == [] then multiset{} else DataOf(f, ms[0]) + QueuedData(f, ms[1..])
  }

  function DataOf(f: Feed, m: Message): multiset<OrderData> {
    if m.Signal? && m.signal.feed == f then multiset{SignalData(m.signal)} else multiset{}
  }

  function OrderedData(f: Feed, log: seq<Message>): multiset<OrderData> {
    if log == [] then multiset{}
    else OrderedData(f, log[..|log| - 1]) + DataOfOrder(f, log[|log| - 1])
  }

  function DataOfOrder(f: Feed, m: Message): multiset<OrderData> {
    if m.IsRequest() && RequestOf(f, m) then multiset{RequestData(m)} else multiset{}
  }

  function EmittedData(log: seq<StrategySignal>): multiset<OrderData> {
    if log == [] then multiset{} else EmittedData(log[..|log| - 1]) + multiset{SignalData(log[|log| - 1])}
  }

  lemma QueuedFirst(f: Feed, m: Message, rest: seq<Message>)
    ensures QueuedData(f, [m] + rest) == DataOf(f, m) + QueuedData(f, rest)
  {
    assert ([m] + rest)[1..] == rest;
  }

  lemma {:induction false} QueuedAppend(f: Feed, ms: seq<Message>, m: Message)
    ensures QueuedData(f, ms + [m]) == QueuedData(f, ms) + DataOf(f, m)
  {
    if ms == [] {
      assert ms + [m] == [m] + [];
      QueuedFirst(f, m, []);
    } else {
      var rest := ms[1..];
      assert ms == [ms[0]] + rest && ms + [m] == [ms[0]] + (rest + [m]);
      QueuedAppend(f, rest, m);
      QueuedFirst(f, ms[0], rest + [m]);
      QueuedFirst(f, ms[0], rest);
    }
  }

  lemma OrderedAppend(f: Feed, log: seq<Message>, m: Message)
    ensures OrderedData(f, log + [m]) == OrderedData(f, log) + DataOfOrder(f, m)
  {
    assert (log + [m])[..|log|] == log;
  }

  lemma EmittedAppend(log: seq<StrategySignal>, s: StrategySignal)
    ensures EmittedData(log + [s]) == EmittedData(log) + multiset{SignalData(s)}
  {
    assert (log + [s])[..|log|] == log;
  }

  // ----- What every step keeps -----

  /** The data of the signals queued and of the orders submitted is that of the signals emitted. */
  ghost predicate Accounted(y: System, log: seq<Message>, f: Feed) {
    QueuedData(f, y.signals) + OrderedData(f, log) == EmittedData(y.emitted.Get(f))
  }

  /** The orders pending are the last submitted; every order names the account; MCX symbols fit. */
  ghost predicate InLine(y: System, log: seq<Message>, a: Account) {
    && (forall m :: m in y.signals && m.Signal? && m.signal.feed == McxFeed ==> ShortText(m.signal.symbol))
    && (forall m :: m in log ==> m.IsRequest() && NamesAccount(m, a))
    && |y.pending| <= |log| && y.pending == log[|log| - |y.pending|..]
  }

  ghost predicate Submitting(y: System, log: seq<Message>, a: Account) {
    InLine(y, log, a) && forall f :: Accounted(y, log, f)
  }

  lemma SymbolOfQuote(m: Message)
    ensures ReadQuote(m).Some? && ReadQuote(m).value.feed == McxFeed ==> ShortText(ReadQuote(m).value.symbol)
  {
    if m.McxTick? && |m.mcx| == MCX_SIZE {
      TerminatedHasNoZero(m.mcx[40..52]);
    }
  }

  lemma MoreQueued<T>(q: multiset<T>, o: multiset<T>, e: multiset<T>, k: multiset<T>)
    requires q + o == e
    ensures (q + k) + o == e + k
  {
  }

  lemma Ordered<T>(q: multiset<T>, o: multiset<T>, e: multiset<T>, k: multiset<T>)
    requires (k + q) + o == e
    ensures q + (o + k) == e && (q + k) + o == e
  {
  }

  lemma EmittedParts(y: System, q: Quote, bps: int, f: Feed)
    requires y.market != []
    ensures var signal, z := OnTick(y.producers.Get(q.feed), q, bps).1, Emitting(y, q, bps);
      && z.pending == y.pending
      && (signal.None? ==> z.signals == y.signals && z.emitted == y.emitted)
      && (signal.Some? ==>
            && z.signals == y.signals + [Signal(signal.value)]
            && signal.value.feed == q.feed && signal.value.symbol == q.symbol
            && z.emitted.Get(f) == y.emitted.Get(f) + if q.feed == f then [signal.value] else [])
  {
  }

  lemma EmittingAccounts(y: System, q: Quote, bps: int, log: seq<Message>, f: Feed)
    requires Accounted(y, log, f) && y.market != []
    ensures Accounted(Emitting(y, q, bps), log, f)
  {
    var signal := OnTick(y.producers.Get(q.feed), q, bps).1;
    EmittedParts(y, q, bps, f);
    if signal.Some? {
      QueuedAppend(f, y.signals, Signal(signal.value));
      if q.feed == f { EmittedAppend(y.emitted.Get(f), signal.value); }
      MoreQueued(QueuedData(f, y.signals), OrderedData(f, log), EmittedData(y.emitted.Get(f)),
                 DataOf(f, Signal(signal.value)));
    }
  }

  lemma EmittingKeeps(y: System, q: Quote, bps: int, log: seq<Message>, a: Account)
    requires Submitting(y, log, a) && y.market != [] && (q.feed == McxFeed ==> ShortText(q.symbol))
    ensures Submitting(Emitting(y, q, bps), log, a)
  {
    EmittedParts(y, q, bps, q.feed);
    forall f ensures Accounted(Emitting(y, q, bps), log, f) {
      assert Accounted(y, log, f);
      EmittingAccounts(y, q, bps, log, f);
    }
  }

  lemma RotatedParts(y: System, g: Feed, a: Account)
    requires y.signals != [] && Judge(g, y.signals[0]) == Rotate
    ensures var z := Consuming(y, g, a);
      && z.signals == y.signals[1..] + [y.signals[0]] && z.pending == y.pending && z.emitted == y.emitted
      && NewOrders(y, Consume(g), a) == []
  {
  }

  lemma RotatingAccounts(y: System, z: System, log: seq<Message>, f: Feed)
    requires Accounted(y, log, f) && y.signals != []
    requires z.signals == y.signals[1..] + [y.signals[0]] && z.emitted == y.emitted
    ensures Accounted(z, log, f)
  {
    var m, rest := y.signals[0], y.signals[1..];
    assert y.signals == [m] + rest;
    QueuedFirst(f, m, rest);
    QueuedAppend(f, rest, m);
    Ordered(QueuedData(f, rest), OrderedData(f, log), EmittedData(y.emitted.Get(f)), DataOf(f, m));
  }

  lemma RotatingKeeps(y: System, g: Feed, a: Account, log: seq<Message>)
    requires Submitting(y, log, a) && y.signals != [] && Judge(g, y.signals[0]) == Rotate
    ensures Submitting(Consuming(y, g, a), log, a) && NewOrders(y, Consume(g), a) == []
  {
    RotatedParts(y, g, a);
    forall f ensures Accounted(Consuming(y, g, a), log, f) {
      assert Accounted(y, log, f);
      RotatingAccounts(y, Consuming(y, g, a), log, f);
    }
  }

  lemma SubmittedParts(y: System, g: Feed, a: Account)
    requires y.signals != [] && Judge(g, y.signals[0]) == Submit
    ensures var order, z := MakeOrder(g, a, y.consumers.Get(g), y.signals[0].signal), Consuming(y, g, a);
      && z.signals == y.signals[1..] && z.pending == y.pending + [order] && z.emitted == y.emitted
      && NewOrders(y, Consume(g), a) == [order]
  {
  }

  /** The order has the data of the signal, for every feed. */
  lemma SameData(f: Feed, s: StrategySignal, order: Message)
    requires order.IsRequest() && RequestOf(s.feed, order) && RequestData(order) == SignalData(s)
    ensures DataOfOrder(f, order) == DataOf(f, Signal(s))
  {
    assert RequestOf(f, order) <==> f == s.feed;
  }

  lemma SubmittingAccounts(y: System, z: System, log: seq<Message>, order: Message, f: Feed)
    requires Accounted(y, log, f) && y.signals != [] && DataOfOrder(f, order) == DataOf(f, y.signals[0])
    requires z.signals == y.signals[1..] && z.emitted == y.emitted
    ensures Accounted(z, log + [order], f)
  {
    var m, rest := y.signals[0], y.signals[1..];
    assert y.signals == [m] + rest;
    QueuedFirst(f, m, rest);
    OrderedAppend(f, log, order);
    Ordered(QueuedData(f, rest), OrderedData(f, log), EmittedData(y.emitted.Get(f)), DataOf(f, m));
  }

  lemma SubmittingKeeps(y: System, g: Feed, a: Account, log: seq<Message>)
    requires Submitting(y, log, a) && y.signals != [] && Judge(g, y.signals[0]) == Submit
    ensures Submitting(Consuming(y, g, a), log + NewOrders(y, Consume(g), a), a)
  {
    var s := y.signals[0].signal;
    var order := MakeOrder(g, a, y.consumers.Get(g), s);
    assert y.signals[0] in y.signals && y.signals[0] == Signal(s);
    SubmittedParts(y, g, a);
    OrderSaysSignal(a, y.consumers.Get(g), s);
    forall f ensures Accounted(Consuming(y, g, a), log + [order], f) {
      assert Accounted(y, log, f);
      SameData(f, s, order);
      SubmittingAccounts(y, Consuming(y, g, a), log, order, f);
    }
  }

  lemma ConsumeKeeps(y: System, g: Feed, a: Account, log: seq<Message>)
    requires Typed(y) && Submitting(y, log, a)
    ensures Submitting(Consuming(y, g, a), log + NewOrders(y, Consume(g), a), a)
  {
    if y.signals == [] {
      assert log + [] == log;
      NothingConsumed(y, g, a);
    } else {
      assert y.signals[0] in y.signals && LiveSignal(y.signals[0]);
      if Judge(g, y.signals[0]) == Rotate {
        assert log + [] == log;
        RotatingKeeps(y, g, a, log);
      } else {
        SubmittingKeeps(y, g, a, log);
      }
    }
  }

  lemma NothingConsumed(y: System, g: Feed, a: Account)
    requires y.signals == []
    ensures var z := Consuming(y, g, a);
      && z.signals == [] && z.pending == y.pending && z.emitted == y.emitted && NewOrders(y, Consume(g), a) == []
  {
  }

  lemma OthersKeep(y: System, s: Step, a: Account, bps: int, log: seq<Message>)
    requires Submitting(y, log, a) && !s.Consume? && !s.Route?
    ensures Submitting(Apply(y, s, a, bps), log, a)
  {
    var z := Apply(y, s, a, bps);
    OthersLeaveSignals(y, s, a, bps);
    forall f ensures Accounted(z, log, f) {
      assert Accounted(y, log, f);
    }
  }

  lemma OthersLeaveSignals(y: System, s: Step, a: Account, bps: int)
    requires !s.Consume? && !s.Route?
    ensures var z := Apply(y, s, a, bps);
      && z.signals == y.signals && z.emitted == y.emitted
      && z.pending == if s.Answer? && y.pending != [] then y.pending[1..] else y.pending
  {
  }

  lemma RouteKeeps(y: System, a: Account, bps: int, log: seq<Message>)
    requires Submitting(y, log, a)
    ensures Submitting(Apply(y, Route, a, bps), log, a)
  {
    var z := Apply(y, Route, a, bps);
    if y.market != [] && ReadQuote(y.market[0]).Some? {
      SymbolOfQuote(y.market[0]);
      EmittingKeeps(y, ReadQuote(y.market[0]).value, bps, log, a);
    } else {
      forall f ensures Accounted(z, log, f) {
        assert Accounted(y, log, f);
      }
    }
  }

  lemma StepKeepsSubmitting(y: System, s: Step, a: Account, bps: int, log: seq<Message>) returns (z: System)
    requires Typed(y) && Submitting(y, log, a)
    ensures z == Apply(y, s, a, bps) && Submitting(z, log + NewOrders(y, s, a), a)
  {
    z := Apply(y, s, a, bps);
    if s.Consume? {
      ConsumeKeeps(y, s.feed, a, log);
    } else {
      assert log + [] == log;
      if s.Route? { RouteKeeps(y, a, bps, log); } else { OthersKeep(y, s, a, bps, log); }
    }
  }

  lemma LogBegins(y: System, steps: seq<Step>, a: Account, bps: int, log: seq<Message>)
    requires steps != []
    ensures log + OrderLog(y, steps, a, bps)
         == (log + NewOrders(y, steps[0], a)) + OrderLog(Apply(y, steps[0], a, bps), steps[1..], a, bps)
  {
  }

  lemma {:induction false} RunKeepsSubmitting(y: System, steps: seq<Step>, a: Account, bps: int, log: seq<Message>)
    returns (e: System, all: seq<Message>)
    requires Typed(y) && Submitting(y, log, a)
    ensures e == Exec(y, steps, a, bps) && all == log + OrderLog(y, steps, a, bps) && Submitting(e, all, a)
    decreases |steps|
  {
    if steps == [] {
      e, all := y, log;
    } else {
      StepKeepsTyped(y, steps[0], a, bps);
      var z := StepKeepsSubmitting(y, steps[0], a, bps, log);
      e, all := RunKeepsSubmitting(z, steps[1..], a, bps, log + NewOrders(y, steps[0], a));
      LogBegins(y, steps, a, bps, log);
    }
  }

  lemma StartSubmits(a: Account) returns (y: System)
    ensures y == START && Typed(y) && Submitting(y, [], a)
  {
    y := START;
    forall f ensures Accounted(y, [], f) {
      assert y.emitted.Get(f) == [];
    }
  }

  lemma RunSubmits(steps: seq<Step>, a: Account, bps: int) returns (e: System, log: seq<Message>)
    ensures e == Exec(START, steps, a, bps) && log == OrderLog(START, steps, a, bps) && Submitting(e, log, a)
  {
    var y := StartSubmits(a);
    e, log := RunKeepsSubmitting(y, steps, a, bps, []);
  }

  lemma SubmittingMeans(e: System, log: seq<Message>, a: Account, f: Feed)
    requires Submitting(e, log, a)
    ensures QueuedData(f, e.signals) + OrderedData(f, log) == EmittedData(e.emitted.Get(f))
    ensures forall m :: m in log ==> m.IsRequest() && NamesAccount(m, a)
    ensures |e.pending| <= |log| && e.pending == log[|log| - |e.pending|..]
  {
    assert Accounted(e, log, f);
  }

  /** MAIN RESULT 35. In every run, for every feed: the full data of the signals still queued and of all
      orders submitted, side, quantity, price and token, stock or symbol and series, is as a multiset
      exactly that of the signals emitted. Every order names the account; and the orders still pending are
      the last ones submitted, so that the gateway takes them in the order of submission. */
  lemma OrdersSaySignals(steps: seq<Step>, a: Account, bps: int, f: Feed)
    ensures var e, log := Exec(START, steps, a, bps), OrderLog(START, steps, a, bps);
      && QueuedData(f, e.signals) + OrderedData(f, log) == EmittedData(e.emitted.Get(f))
      && (forall m :: m in log ==> m.IsRequest() && NamesAccount(m, a))
      && |e.pending| <= |log| && e.pending == log[|log| - |e.pending|..]
  {
    var e, log := RunSubmits(steps, a, bps);
    SubmittingMeans(e, log, a, f);
  }

  // ----- Confirmations in the order of submission -----

  /** The orders the gateway has taken. */
  function Taken(y: System, log: seq<Message>): seq<Message> {
    if |y.pending| <= |log| then log[..|log| - |y.pending|] else []
  }

  function AckKeys(acks: seq<Message>): (ks: seq<Key>)
    ensures |ks| == |acks|
  {
    seq(|acks|, i requires 0 <= i < |acks| => AckKey(acks[i]))
  }

  /** The data of a feed's orders, in order. */
  function RequestKeys(f: Feed, log: seq<Message>): seq<Key> {
    if log == [] then []
    else RequestKeys(f, log[..|log| - 1]) + KeysOfRequest(f, log[|log| - 1])
  }

  function KeysOfRequest(f: Feed, m: Message): seq<Key> {
    if m.IsRequest() && RequestOf(f, m) then [RequestKey(m)] else []
  }

  /** Each confirmation answers the order of the same number. */
  ghost predicate Answering(y: System, log: seq<Message>, f: Feed) {
    AckKeys(y.answered.Get(f)) == RequestKeys(f, Taken(y, log))
  }

  lemma RequestKeysAppend(f: Feed, log: seq<Message>, m: Message)
    ensures RequestKeys(f, log + [m]) == RequestKeys(f, log) + KeysOfRequest(f, m)
  {
    assert (log + [m])[..|log|] == log;
  }

  /** What an answer does to the log of confirmations. */
  lemma AnsweredParts(y: System, f: Feed)
    requires Typed(y) && Fitting(y) && y.pending != []
    ensures var z, m := Pipeline.Answering(y), y.pending[0];
      && z.pending == y.pending[1..]
      && AckKeys(z.answered.Get(f)) == AckKeys(y.answered.Get(f)) + KeysOfRequest(f, m)
  {
    var m := y.pending[0];
    assert m in y.pending;
    AckKeepsKey(y.gateway, m);
  }

  lemma AnswerKeeps(y: System, log: seq<Message>, a: Account, f: Feed)
    requires Typed(y) && Fitting(y) && InLine(y, log, a) && Answering(y, log, f)
    ensures Answering(Pipeline.Answering(y), log, f)
  {
    if y.pending != [] {
      var m, done := y.pending[0], Taken(y, log);
      AnsweredParts(y, f);
      assert m == log[|log| - |y.pending|..][0];
      assert Taken(Pipeline.Answering(y), log) == done + [m];
      RequestKeysAppend(f, done, m);
    }
  }

  /** The other steps take no order from the gateway's queue and answer none. */
  lemma OthersKeepAnswering(y: System, s: Step, a: Account, bps: int, log: seq<Message>, f: Feed)
    requires Typed(y) && InLine(y, log, a) && Answering(y, log, f) && !s.Answer?
    ensures Answering(Apply(y, s, a, bps), log + NewOrders(y, s, a), f)
  {
    var z, more := Apply(y, s, a, bps), NewOrders(y, s, a);
    OthersOnlyAppend(y, s, a, bps);
    assert Taken(z, log + more) == Taken(y, log);
  }

  lemma OthersOnlyAppend(y: System, s: Step, a: Account, bps: int)
    requires !s.Answer?
    ensures Apply(y, s, a, bps).answered == y.answered
    ensures Apply(y, s, a, bps).pending == y.pending + NewOrders(y, s, a)
  {
    if s.Consume? && y.signals != [] { ConsumeOnlyAppends(y, s.feed, a); }
  }

  lemma ConsumeOnlyAppends(y: System, g: Feed, a: Account)
    requires y.signals != []
    ensures Consuming(y, g, a).pending == y.pending + NewOrders(y, Consume(g), a)
  {
    var z := Consuming(y, g, a);
    if Judge(g, y.signals[0]) == Submit {
      SubmittedParts(y, g, a);
    } else {
      assert z.pending == y.pending;
    }
  }

  lemma StepKeepsAnswering(y: System, s: Step, a: Account, bps: int, log: seq<Message>, f: Feed)
    requires Typed(y) && Fitting(y) && InLine(y, log, a) && Answering(y, log, f)
    ensures Answering(Apply(y, s, a, bps), log + NewOrders(y, s, a), f)
  {
    if s.Answer? {
      assert log + [] == log;
      AnswerKeeps(y, log, a, f);
    } else {
      OthersKeepAnswering(y, s, a, bps, log, f);
    }
  }

  lemma {:induction false} RunKeepsAnswering(
    y: System, steps: seq<Step>, a: Account, bps: int, log: seq<Message>, f: Feed)
    returns (e: System, all: seq<Message>)
    requires Typed(y) && Orders.InOrder(y) && Submitting(y, log, a) && Answering(y, log, f)
    ensures e == Exec(y, steps, a, bps) && all == log + OrderLog(y, steps, a, bps) && Answering(e, all, f)
    decreases |steps|
  {
    if steps == [] {
      e, all := y, log;
    } else {
      StepKeepsTyped(y, steps[0], a, bps);
      StepKeepsOrder(y, steps[0], a, bps);
      StepKeepsAnswering(y, steps[0], a, bps, log, f);
      var z := StepKeepsSubmitting(y, steps[0], a, bps, log);
      e, all := RunKeepsAnswering(z, steps[1..], a, bps, log + NewOrders(y, steps[0], a), f);
      LogBegins(y, steps, a, bps, log);
    }
  }

  lemma NothingAnswered(y: System, f: Feed)
    requires y.answered.Get(f) == [] && y.pending == []
    ensures Answering(y, [], f)
  {
  }

  lemma RunAnswers(steps: seq<Step>, a: Account, bps: int, f: Feed) returns (e: System, log: seq<Message>)
    ensures e == Exec(START, steps, a, bps) && log == OrderLog(START, steps, a, bps) && Answering(e, log, f)
  {
    var y := StartSubmits(a);
    StartIsInOrder();
    NothingAnswered(y, f);
    e, log := RunKeepsAnswering(y, steps, a, bps, [], f);
  }

  lemma AnsweringMeans(e: System, log: seq<Message>, f: Feed)
    requires Answering(e, log, f)
    ensures |e.answered.Get(f)| == |RequestKeys(f, Taken(e, log))|
    ensures forall i :: 0 <= i < |e.answered.Get(f)| ==>
              AckKey(e.answered.Get(f)[i]) == RequestKeys(f, Taken(e, log))[i]
  {
    var acks := e.answered.Get(f);
    assert forall i :: 0 <= i < |acks| ==> AckKeys(acks)[i] == AckKey(acks[i]);
  }

  /** MAIN RESULT 36. In every run and for every feed the confirmations answer the orders one by one in the
      order of submission: the i-th confirmation has the number i + 1 and the data of the i-th order. */
  lemma ConfirmationsFollowOrders(steps: seq<Step>, a: Account, bps: int, f: Feed)
    ensures var e, log := Exec(START, steps, a, bps), OrderLog(START, steps, a, bps);
            var keys := RequestKeys(f, Taken(e, log));
      && |e.answered.Get(f)| == |keys|
      && (forall i :: 0 <= i < |keys| ==> AckKey(e.answered.Get(f)[i]) == keys[i])
      && (forall i :: 0 <= i < |keys| ==> Reference(e.answered.Get(f)[i]) == i + 1)
  {
    var e, log := RunAnswers(steps, a, bps, f);
    AnsweringMeans(e, log, f);
    OrderDataIsConserved(steps, a, bps, f);
  }

  // ----- The confirm queue -----

  /** What a step appends to the confirm queue. */
  function NewAcks(y: System, s: Step): seq<Message> {
    var z := Pipeline.Answering(y);
    if s.Answer? && |z.confirms| > |y.confirms| then z.confirms[|y.confirms|..] else []
  }

  /** All confirmations of a run, in order. */
  function AckLog(y: System, steps: seq<Step>, a: Account, bps: int): seq<Message>
    decreases |steps|
  {
    if steps == [] then [] else NewAcks(y, steps[0]) + AckLog(Apply(y, steps[0], a, bps), steps[1..], a, bps)
  }

  function AcksOf(f: Feed, log: seq<Message>): seq<Message> {
    if log == [] then []
    else AcksOf(f, log[..|log| - 1]) + if AckFeed(log[|log| - 1]) == f then [log[|log| - 1]] else []
  }

  lemma AcksOfAppend(f: Feed, log: seq<Message>, m: Message)
    ensures AcksOf(f, log + [m]) == AcksOf(f, log) + if AckFeed(m) == f then [m] else []
  {
    assert (log + [m])[..|log|] == log;
  }

  /** The confirm queue holds the confirmations not collected yet. */
  ghost predicate Collecting(y: System, log: seq<Message>) {
    y.collected <= |log| && y.confirms == log[y.collected..]
  }

  /** The logs of the feeds are the feeds' parts of it. */
  ghost predicate LoggedByFeed(y: System, log: seq<Message>) {
    forall f :: y.answered.Get(f) == AcksOf(f, log)
  }

  lemma AckAppended(y: System, ack: Message)
    requires y.pending != [] && Confirm(y.gateway, y.pending[0]).Some?
    requires ack == Confirm(y.gateway, y.pending[0]).value.1
    ensures var z := Pipeline.Answering(y);
      && z.confirms == y.confirms + [ack] && NewAcks(y, Answer) == [ack] && z.collected == y.collected
      && forall f :: z.answered.Get(f) == y.answered.Get(f) + if f == AckFeed(ack) then [ack] else []
  {
  }

  lemma NothingAppended(y: System)
    requires y.pending == [] || Confirm(y.gateway, y.pending[0]).None?
    ensures var z := Pipeline.Answering(y);
      && z.confirms == y.confirms && NewAcks(y, Answer) == [] && z.collected == y.collected
      && z.answered == y.answered
  {
  }

  lemma OneMoreAck(y: System, z: System, log: seq<Message>, ack: Message)
    requires Collecting(y, log) && LoggedByFeed(y, log)
    requires z.confirms == y.confirms + [ack] && z.collected == y.collected
    requires forall f :: z.answered.Get(f) == y.answered.Get(f) + if f == AckFeed(ack) then [ack] else []
    ensures Collecting(z, log + [ack]) && LoggedByFeed(z, log + [ack])
  {
    assert (log + [ack])[y.collected..] == log[y.collected..] + [ack];
    forall f ensures z.answered.Get(f) == AcksOf(f, log + [ack]) {
      AcksOfAppend(f, log, ack);
    }
  }

  lemma AnswerKeepsCollecting(y: System, log: seq<Message>) returns (z: System, all: seq<Message>)
    requires Collecting(y, log) && LoggedByFeed(y, log)
    ensures z == Pipeline.Answering(y) && all == log + NewAcks(y, Answer) && Collecting(z, all) && LoggedByFeed(z, all)
  {
    z := Pipeline.Answering(y);
    if y.pending != [] && Confirm(y.gateway, y.pending[0]).Some? {
      var ack := Confirm(y.gateway, y.pending[0]).value.1;
      AckAppended(y, ack);
      OneMoreAck(y, z, log, ack);
      all := log + [ack];
    } else {
      NothingAppended(y);
      all := log;
    }
  }

  lemma OthersKeepCollecting(y: System, s: Step, a: Account, bps: int, log: seq<Message>) returns (z: System)
    requires Collecting(y, log) && LoggedByFeed(y, log) && !s.Answer?
    ensures z == Apply(y, s, a, bps) && Collecting(z, log) && LoggedByFeed(z, log)
  {
    z := Apply(y, s, a, bps);
    OthersOnlyAppend(y, s, a, bps);
    OthersOnlyCollect(y, s, a, bps);
    if z.collected != y.collected { TailOfTail(log, y.collected); }
  }

  lemma TailOfTail(log: seq<Message>, n: nat)
    requires n < |log|
    ensures log[n..][1..] == log[n + 1..]
  {
  }

  lemma OthersOnlyCollect(y: System, s: Step, a: Account, bps: int)
    requires !s.Answer?
    ensures var z := Apply(y, s, a, bps);
      if s.Collect? && y.confirms != [] then z.confirms == y.confirms[1..] && z.collected == y.collected + 1
      else z.confirms == y.confirms && z.collected == y.collected
  {
  }

  lemma AckLogBegins(y: System, steps: seq<Step>, a: Account, bps: int, log: seq<Message>)
    requires steps != []
    ensures log + AckLog(y, steps, a, bps)
         == (log + NewAcks(y, steps[0])) + AckLog(Apply(y, steps[0], a, bps), steps[1..], a, bps)
  {
  }

  lemma StepKeepsCollecting(y: System, s: Step, a: Account, bps: int, log: seq<Message>)
    returns (z: System, all: seq<Message>)
    requires Collecting(y, log) && LoggedByFeed(y, log)
    ensures z == Apply(y, s, a, bps) && all == log + NewAcks(y, s) && Collecting(z, all) && LoggedByFeed(z, all)
  {
    if s.Answer? {
      z, all := AnswerKeepsCollecting(y, log);
    } else {
      z := OthersKeepCollecting(y, s, a, bps, log);
      all := log;
    }
  }

  lemma {:induction false} RunKeepsCollecting(y: System, steps: seq<Step>, a: Account, bps: int, log: seq<Message>)
    returns (e: System, all: seq<Message>)
    requires Collecting(y, log) && LoggedByFeed(y, log)
    ensures e == Exec(y, steps, a, bps) && all == log + AckLog(y, steps, a, bps)
    ensures Collecting(e, all) && LoggedByFeed(e, all)
    decreases |steps|
  {
    if steps == [] {
      e, all := y, log;
    } else {
      var z, more := StepKeepsCollecting(y, steps[0], a, bps, log);
      e, all := RunKeepsCollecting(z, steps[1..], a, bps, more);
      AckLogBegins(y, steps, a, bps, log);
    }
  }

  lemma NothingCollected(y: System)
    requires y.collected == 0 && y.confirms == [] && forall f :: y.answered.Get(f) == []
    ensures Collecting(y, []) && LoggedByFeed(y, [])
  {
  }

  /** In every run the confirmations leave the confirm queue in the order in which they were made: those still
      queued are the last, the others have been collected; and the log of a feed is the feed's part of them. */
  lemma ConfirmationsAreCollected(steps: seq<Step>, a: Account, bps: int, f: Feed)
    returns (e: System, log: seq<Message>)
    ensures e == Exec(START, steps, a, bps) && log == AckLog(START, steps, a, bps)
    ensures e.collected <= |log| && e.confirms == log[e.collected..] && e.answered.Get(f) == AcksOf(f, log)
  {
    var y := START;
    forall g ensures y.answered.Get(g) == [] {}
    NothingCollected(y);
    e, log := RunKeepsCollecting(y, steps, a, bps, []);
  }
}
