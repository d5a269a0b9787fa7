/** Every confirmation answers exactly one emitted signal, feed by feed. */
module Orders {
  import opened Machine
  import opened Messages
  import opened Decoding
  import opened TradingSteps
  import opened Pipeline

  // ----- The order data -----

  /** The order data that travels from signal to confirmation. What a feed's confirmation does not carry
      is left at zero: NNF confirmations name the instrument, not the order; MCX ones name the order
      only. */
  datatype Key = Key(token: int, side: int, quantity: int, price: int, stock: Bytes)

  function SignalKey(s: StrategySignal): Key {
    match s.feed
    case ItchFeed => Key(s.orderToken, SideCode(s.side), Word(s.quantity), Word(s.price), s.stock)
    case MtbtFeed => Key(s.token, SideCode(s.side), s.quantity, s.price, [])
    case SbeFeed => Key(s.orderToken, SideCode(s.side), s.quantity, s.price, [])
    case McxFeed => Key(s.orderToken, 0, 0, 0, [])
  }

  /** The token in a link id. */
  function LinkToken(link: Bytes): nat {
    if |link| < 3 then 0 else Parse(link[3..])
  }

  function CodeOf(side: char): int { if side == 'B' then 1 else 2 }

  function RequestKey(m: Message): Key
    requires m.IsRequest()
  {
    match m
    case OuchRequest(o) => Key(o.orderToken, CodeOf(o.side), o.shares, o.price, o.stock)
    case NnfRequest(o) => Key(o.transactionId, o.buySell, o.volume, o.price, [])
    case SbeRequest(o) => Key(LinkToken(o.orderLinkId), o.side, o.qty, o.price, [])
    case McxRequest(o) => Key(o.clOrdId, 0, 0, 0, [])
  }

  function AckKey(m: Message): Key {
    match m
    case OuchConfirm(a) => Key(Parse(a.orderToken), CodeOf(a.side), a.shares, a.price, a.stock)
    case NnfConfirm(a) => Key(a.token, a.buySell, a.volume, a.price, [])
    case SbeConfirm(a) => Key(LinkToken(a.orderLinkId), a.side, a.leavesQty, a.price, [])
    case McxConfirm(a) => Key(a.clOrdId, 0, 0, 0, [])
    case _ => Key(0, 0, 0, 0, [])
  }

  /** The number the gateway gave. */
  function Reference(m: Message): nat {
    match m
    case OuchConfirm(a) => a.reference
    case NnfConfirm(a) => a.orderNumber
    case SbeConfirm(a) => a.seqNo
    case McxConfirm(a) => a.orderId
    case _ => 0
  }

  /** What a message carries for a feed. */
  function MessageKeys(f: Feed, m: Message): multiset<Key> {
    if m.Signal? && m.signal.feed == f then multiset{SignalKey(m.signal)}
    else if m.IsRequest() && RequestOf(f, m) then multiset{RequestKey(m)}
    else multiset{}
  }

  function Keys(f: Feed, ms: seq<Message>): multiset<Key> {
    if ms == [] then multiset{} else MessageKeys(f, ms[0]) + Keys(f, ms[1..])
  }

  lemma KeysOfFirst(f: Feed, m: Message, rest: seq<Message>)
    ensures Keys(f, [m] + rest) == MessageKeys(f, m) + Keys(f, rest)
  {
    assert ([m] + rest)[1..] == rest;
  }

  lemma KeysOfOne(f: Feed, m: Message)
    ensures Keys(f, [m]) == MessageKeys(f, m)
  {
    assert [m][1..] == [];
  }

  lemma {:induction false} KeysAppend(f: Feed, ms: seq<Message>, m: Message)
    ensures Keys(f, ms + [m]) == Keys(f, ms) + MessageKeys(f, m)
  {
    if ms == [] {
      assert ms + [m] == [m];
      KeysOfOne(f, m);
    } else {
      var rest := ms[1..];
      assert ms == [ms[0]] + rest && ms + [m] == [ms[0]] + (rest + [m]);
      KeysAppend(f, rest, m);
      KeysOfFirst(f, ms[0], rest + [m]);
      KeysOfFirst(f, ms[0], rest);
    }
  }

  function EmittedKeys(log: seq<StrategySignal>): multiset<Key> {
    if log == [] then multiset{} else EmittedKeys(log[..|log| - 1]) + multiset{SignalKey(log[|log| - 1])}
  }

  lemma EmittedKeysAppend(log: seq<StrategySignal>, s: StrategySignal)
    ensures EmittedKeys(log + [s]) == EmittedKeys(log) + multiset{SignalKey(s)}
  {
    assert (log + [s])[..|log|] == log;
  }

  function AnsweredKeys(log: seq<Message>): multiset<Key> {
    if log == [] then multiset{} else AnsweredKeys(log[..|log| - 1]) + multiset{AckKey(log[|log| - 1])}
  }

  lemma AnsweredKeysAppend(log: seq<Message>, a: Message)
    ensures AnsweredKeys(log + [a]) == AnsweredKeys(log) + multiset{AckKey(a)}
  {
    assert (log + [a])[..|log|] == log;
  }

  // ----- The invariant -----

  /** Tokens and reference numbers of one feed count up. */
  ghost predicate Tokened(y: System, f: Feed) {
    && y.producers.Get(f).nextToken == Word(|y.emitted.Get(f)| + 1)
    && (forall j :: 0 <= j < |y.emitted.Get(f)| ==>
          y.emitted.Get(f)[j].feed == f && y.emitted.Get(f)[j].orderToken == Word(j + 1))
    && Numbered(y.gateway, f) == |y.answered.Get(f)|
    && (forall i :: 0 <= i < |y.answered.Get(f)| ==>
          AckFeed(y.answered.Get(f)[i]) == f && Reference(y.answered.Get(f)[i]) == i + 1)
  }

  /** Tokens in the queues are 32-bit numbers, and link ids are the ones consumers make. */
  ghost predicate Fitting(y: System) {
    && (forall m :: m in y.signals && m.Signal? ==> m.signal.orderToken < TWO_32)
    && (forall m :: m in y.pending ==> FittingRequest(m))
  }

  predicate FittingRequest(m: Message) {
    && (m.OuchRequest? ==> m.ouch.orderToken < TWO_32)
    && (m.SbeRequest? ==> |m.sbe.orderLinkId| <= MAX_ID)
  }

  /** Order data is neither lost, changed nor duplicated on its way. */
  ghost predicate Balanced(y: System, f: Feed) {
    Keys(f, y.signals) + Keys(f, y.pending) + AnsweredKeys(y.answered.Get(f)) == EmittedKeys(y.emitted.Get(f))
  }

  lemma NextToken(n: nat)
    ensures Word(Word(n) + 1) == Word(n + 1)
  {
    AddMod(n, 1, TWO_32);
  }

  // ----- One step -----

  /** Nothing a feed's books depend on has changed. */
  predicate SameBooks(y: System, z: System, f: Feed) {
    && z.producers.Get(f).nextToken == y.producers.Get(f).nextToken && z.emitted.Get(f) == y.emitted.Get(f)
    && Numbered(z.gateway, f) == Numbered(y.gateway, f) && z.answered.Get(f) == y.answered.Get(f)
  }

  lemma SameBooksStayTokened(y: System, z: System, f: Feed)
    requires Tokened(y, f) && SameBooks(y, z, f)
    ensures Tokened(z, f)
  {
  }

  lemma EmitKeepsTokened(y: System, q: Quote, bps: int, f: Feed)
    requires Tokened(y, f) && y.market != []
    ensures Tokened(Emitting(y, q, bps), f)
  {
    var z, signal := Emitting(y, q, bps), OnTick(y.producers.Get(q.feed), q, bps).1;
    if q.feed == f && signal.Some? {
      NextToken(|y.emitted.Get(f)| + 1);
      assert z.emitted.Get(f) == y.emitted.Get(f) + [signal.value];
      assert z.answered == y.answered && z.gateway == y.gateway;
    } else {
      SameBooksStayTokened(y, z, f);
    }
  }

  lemma EmitKeepsFitting(y: System, q: Quote, bps: int)
    requires Fitting(y) && Tokened(y, q.feed) && y.market != []
    ensures Fitting(Emitting(y, q, bps))
  {
    assert Emitting(y, q, bps).pending == y.pending;
  }

  lemma ConsumeKeepsFitting(y: System, g: Feed, a: Account)
    requires Typed(y) && Fitting(y)
    ensures Fitting(Consuming(y, g, a))
  {
    if y.signals != [] {
      var m := y.signals[0];
      assert m in y.signals && LiveSignal(m);
      OrderFits(g, a, y.consumers.Get(g), m.signal);
    }
  }

  /** "lnk" and a 32-bit token in decimal have at most 13 characters. */
  lemma OrderFits(g: Feed, a: Account, c: Consumer, s: StrategySignal)
    requires s.orderToken < TWO_32
    ensures FittingRequest(MakeOrder(g, a, c, s))
  {
    TokenLength(s.orderToken);
  }

  lemma AnswerKeepsTokened(y: System, f: Feed)
    requires Typed(y) && Tokened(y, f)
    ensures Tokened(Answering(y), f)
  {
    var z := Answering(y);
    if y.pending != [] {
      assert y.pending[0] in y.pending;
      if RequestOf(f, y.pending[0]) {
        AnswerIsNumbered(y, f);
      } else {
        SameBooksStayTokened(y, z, f);
      }
    }
  }

  lemma AnswerIsNumbered(y: System, f: Feed)
    requires Tokened(y, f) && y.pending != [] && RequestOf(f, y.pending[0])
    ensures Tokened(Answering(y), f)
  {
    var z, ack := Answering(y), Confirm(y.gateway, y.pending[0]).value.1;
    assert AckFeed(ack) == f && Reference(ack) == Numbered(y.gateway, f) + 1;
    assert z.answered.Get(f) == y.answered.Get(f) + [ack];
    assert z.producers == y.producers && z.emitted == y.emitted;
    assert Numbered(z.gateway, f) == Numbered(y.gateway, f) + 1;
  }

  // ----- One step keeps the balance -----

  lemma Grows<T>(s: multiset<T>, p: multiset<T>, o: multiset<T>, e: multiset<T>, k: multiset<T>)
    requires s + p + o == e
    ensures (s + k) + p + o == e + k
  {
  }

  lemma Moves<T>(s: multiset<T>, p: multiset<T>, o: multiset<T>, e: multiset<T>, k: multiset<T>)
    requires (k + s) + p + o == e
    ensures (s + k) + p + o == e && s + (p + k) + o == e
  {
  }

  lemma Answers<T>(s: multiset<T>, p: multiset<T>, o: multiset<T>, e: multiset<T>, k: multiset<T>)
    requires s + (k + p) + o == e
    ensures s + p + (o + k) == e
  {
  }

  lemma EmitKeepsBalanced(y: System, q: Quote, bps: int, f: Feed)
    requires Balanced(y, f) && y.market != []
    ensures Balanced(Emitting(y, q, bps), f)
  {
    var signal := OnTick(y.producers.Get(q.feed), q, bps).1;
    if signal.Some? {
      var m := Signal(signal.value);
      KeysAppend(f, y.signals, m);
      EmitLogs(y, q, bps, f);
      Grows(Keys(f, y.signals), Keys(f, y.pending), AnsweredKeys(y.answered.Get(f)), EmittedKeys(y.emitted.Get(f)),
            MessageKeys(f, m));
    }
  }

  lemma EmitLogs(y: System, q: Quote, bps: int, f: Feed)
    requires y.market != []
    ensures var signal, z := OnTick(y.producers.Get(q.feed), q, bps).1, Emitting(y, q, bps);
      signal.Some? ==>
        && z.signals == y.signals + [Signal(signal.value)] && z.pending == y.pending && z.answered == y.answered
        && EmittedKeys(z.emitted.Get(f)) == EmittedKeys(y.emitted.Get(f)) + MessageKeys(f, Signal(signal.value))
  {
    var signal := OnTick(y.producers.Get(q.feed), q, bps).1;
    if signal.Some? {
      EmittedKeysAppend(y.emitted.Get(f), signal.value);
    }
  }

  lemma ConsumeKeepsBalanced(y: System, g: Feed, a: Account, f: Feed)
    requires Typed(y) && Fitting(y) && Balanced(y, f)
    ensures Balanced(Consuming(y, g, a), f)
  {
    if y.signals != [] {
      assert y.signals[0] in y.signals && LiveSignal(y.signals[0]);
      if y.signals[0].signal.feed != g { RotateKeepsBalanced(y, g, a, f); } else { SubmitKeepsBalanced(y, g, a, f); }
    }
  }

  lemma RotateKeepsBalanced(y: System, g: Feed, a: Account, f: Feed)
    requires Balanced(y, f) && y.signals != [] && Judge(g, y.signals[0]) == Rotate
    ensures Balanced(Consuming(y, g, a), f)
  {
    var m, rest, z := y.signals[0], y.signals[1..], Consuming(y, g, a);
    Moves(Keys(f, rest), Keys(f, y.pending), AnsweredKeys(y.answered.Get(f)), EmittedKeys(y.emitted.Get(f)),
          MessageKeys(f, m));
    KeysAppend(f, rest, m);
    assert z.signals == rest + [m] && z.pending == y.pending && z.answered == y.answered && z.emitted == y.emitted;
  }

  lemma SubmitKeepsBalanced(y: System, g: Feed, a: Account, f: Feed)
    requires Balanced(y, f) && y.signals != [] && Judge(g, y.signals[0]) == Submit
    ensures Balanced(Consuming(y, g, a), f)
  {
    var m, rest, z := y.signals[0], y.signals[1..], Consuming(y, g, a);
    var order := MakeOrder(g, a, y.consumers.Get(g), m.signal);
    Moves(Keys(f, rest), Keys(f, y.pending), AnsweredKeys(y.answered.Get(f)), EmittedKeys(y.emitted.Get(f)),
          MessageKeys(f, m));
    KeysAppend(f, y.pending, order);
    OrderKeepsKeys(g, a, y.consumers.Get(g), m.signal, f);
    assert z.signals == rest && z.pending == y.pending + [order] && z.answered == y.answered && z.emitted == y.emitted;
  }

  lemma LinkNamesToken(token: nat)
    ensures LinkToken(LinkId(token)) == token
  {
    ParseDecimal(token);
    assert LinkId(token)[3..] == Decimal(token);
  }

  lemma OrderKeepsKey(a: Account, c: Consumer, s: StrategySignal)
    ensures RequestOf(s.feed, MakeOrder(s.feed, a, c, s))
    ensures RequestKey(MakeOrder(s.feed, a, c, s)) == SignalKey(s)
  {
    LinkNamesToken(s.orderToken);
  }

  /** An order carries the data of its signal. */
  lemma OrderKeepsKeys(g: Feed, a: Account, c: Consumer, s: StrategySignal, f: Feed)
    requires s.feed == g
    ensures MessageKeys(f, MakeOrder(g, a, c, s)) == MessageKeys(f, Signal(s))
  {
    var m := MakeOrder(g, a, c, s);
    OrderKeepsKey(a, c, s);
    assert RequestOf(f, m) <==> f == g;
  }

  lemma AnswerKeepsBalanced(y: System, f: Feed)
    requires Typed(y) && Fitting(y) && Balanced(y, f)
    ensures Balanced(Answering(y), f)
  {
    if y.pending != [] {
      var m, z := y.pending[0], Answering(y);
      assert m in y.pending;
      ConfirmKinds(y.gateway, m);
      Answers(Keys(f, y.signals), Keys(f, y.pending[1..]), AnsweredKeys(y.answered.Get(f)),
              EmittedKeys(y.emitted.Get(f)), MessageKeys(f, m));
      assert z.signals == y.signals && z.pending == y.pending[1..] && z.emitted == y.emitted;
      AckLogs(y, m, f);
    }
  }

  lemma AckLogs(y: System, m: Message, f: Feed)
    requires y.pending != [] && y.pending[0] == m && m.IsRequest() && FittingRequest(m)
    ensures AnsweredKeys(Answering(y).answered.Get(f)) == AnsweredKeys(y.answered.Get(f)) + MessageKeys(f, m)
  {
    var ack := Confirm(y.gateway, m).value.1;
    AckKeepsKey(y.gateway, m);
    if RequestOf(f, m) {
      AnsweredKeysAppend(y.answered.Get(f), ack);
    }
  }

  /** A confirmation carries the data of its request. */
  lemma AckKeepsKey(g: Gateway, m: Message)
    requires m.IsRequest() && FittingRequest(m)
    ensures Confirm(g, m).Some? && AckKey(Confirm(g, m).value.1) == RequestKey(m)
    ensures forall f :: RequestOf(f, m) <==> AckFeed(Confirm(g, m).value.1) == f
  {
    if m.OuchRequest? {
      OuchTokenRoundTrip(m.ouch.orderToken);
    }
  }

  /** A confirmation names the account its consumer was constructed with, on the feeds that carry it. */
  lemma ConfirmationNamesAccount(g: Gateway, a: Account, c: Consumer, s: StrategySignal)
    ensures Confirm(g, MakeOrder(MtbtFeed, a, c, s)).value.1.nnfAck.traderId == a.traderId
    ensures Confirm(g, MakeOrder(SbeFeed, a, c, s)).value.1.sbeAck.symbolId == Int32(a.symbolId)
    ensures Confirm(g, MakeOrder(McxFeed, a, c, s)).value.1.mcxAck.securityId == a.securityId
  {
  }

  // ----- Whole runs -----

  ghost predicate InOrder(y: System) {
    Fitting(y) && forall f :: Tokened(y, f) && Balanced(y, f)
  }

  lemma RouteKeepsOrder(y: System, a: Account, bps: int)
    requires InOrder(y)
    ensures InOrder(Apply(y, Route, a, bps))
  {
    if y.market != [] && ReadQuote(y.market[0]).Some? {
      var q := ReadQuote(y.market[0]).value;
      assert Tokened(y, q.feed);
      EmitKeepsFitting(y, q, bps);
      forall f ensures Tokened(Emitting(y, q, bps), f) && Balanced(Emitting(y, q, bps), f) {
        EmitKeepsTokened(y, q, bps, f);
        EmitKeepsBalanced(y, q, bps, f);
      }
    } else {
      forall f ensures Tokened(Apply(y, Route, a, bps), f) && Balanced(Apply(y, Route, a, bps), f) {
        assert Tokened(y, f) && Balanced(y, f);
        SameBooksStayTokened(y, Apply(y, Route, a, bps), f);
      }
    }
  }

  lemma ConsumeKeepsOrder(y: System, g: Feed, a: Account)
    requires Typed(y) && InOrder(y)
    ensures InOrder(Consuming(y, g, a))
  {
    ConsumeKeepsFitting(y, g, a);
    forall f ensures Tokened(Consuming(y, g, a), f) && Balanced(Consuming(y, g, a), f) {
      assert Tokened(y, f) && Balanced(y, f);
      SameBooksStayTokened(y, Consuming(y, g, a), f);
      ConsumeKeepsBalanced(y, g, a, f);
    }
  }

  lemma AnswerKeepsOrder(y: System)
    requires Typed(y) && InOrder(y)
    ensures InOrder(Answering(y))
  {
    assert Answering(y).signals == y.signals && forall m :: m in Answering(y).pending ==> m in y.pending;
    forall f ensures Tokened(Answering(y), f) && Balanced(Answering(y), f) {
      assert Tokened(y, f) && Balanced(y, f);
      AnswerKeepsTokened(y, f);
      AnswerKeepsBalanced(y, f);
    }
  }

  lemma EndsKeepOrder(y: System, s: Step, a: Account, bps: int)
    requires InOrder(y) && (s.Arrive? || s.Collect?)
    ensures InOrder(Apply(y, s, a, bps))
  {
    var z := Apply(y, s, a, bps);
    assert z.signals == y.signals && z.pending == y.pending && z.producers == y.producers;
    assert z.emitted == y.emitted && z.answered == y.answered && z.gateway == y.gateway;
    forall f ensures Tokened(z, f) && Balanced(z, f) {
      assert Tokened(y, f) && Balanced(y, f);
      SameBooksStayTokened(y, z, f);
    }
  }

  lemma StepKeepsOrder(y: System, s: Step, a: Account, bps: int)
    requires Typed(y) && InOrder(y)
    ensures InOrder(Apply(y, s, a, bps))
  {
    if s.Route? {
      assert s == Route;
      RouteKeepsOrder(y, a, bps);
    } else if s.Consume? {
      assert Apply(y, s, a, bps) == Consuming(y, s.feed, a);
      ConsumeKeepsOrder(y, s.feed, a);
    } else if s.Answer? {
      assert Apply(y, s, a, bps) == Answering(y);
      AnswerKeepsOrder(y);
    } else {
      EndsKeepOrder(y, s, a, bps);
    }
  }

  lemma {:induction false} RunKeepsOrder(y: System, steps: seq<Step>, a: Account, bps: int)
    requires Typed(y) && InOrder(y)
    ensures InOrder(Exec(y, steps, a, bps))
    decreases |steps|
  {
    if steps != [] {
      StepKeepsTyped(y, steps[0], a, bps);
      StepKeepsOrder(y, steps[0], a, bps);
      RunKeepsOrder(Apply(y, steps[0], a, bps), steps[1..], a, bps);
    }
  }

  lemma StartIsInOrder()
    ensures Typed(START) && InOrder(START)
  {
    forall f ensures Tokened(START, f) && Balanced(START, f) {}
  }

  /** The state a run from the start ends in. */
  lemma RunFromStart(steps: seq<Step>, a: Account, bps: int) returns (e: System)
    ensures e == Exec(START, steps, a, bps) && InOrder(e)
  {
    StartIsInOrder();
    RunKeepsOrder(START, steps, a, bps);
    e := Exec(START, steps, a, bps);
  }

  // ----- What the balance means -----

  lemma {:induction false} EmittedKeyIsEmitted(log: seq<StrategySignal>, k: Key)
    requires forall j :: 0 <= j < |log| ==> SignalKey(log[j]).token == j + 1
    ensures k in EmittedKeys(log) ==> 0 < k.token <= |log| && SignalKey(log[k.token - 1]) == k
    ensures EmittedKeys(log)[k] <= 1
  {
    if log != [] { EmittedKeyIsEmitted(log[..|log| - 1], k); }
  }

  lemma {:induction false} AnsweredKeysHave(log: seq<Message>, i: nat)
    requires i < |log|
    ensures AckKey(log[i]) in AnsweredKeys(log)
  {
    if i < |log| - 1 { AnsweredKeysHave(log[..|log| - 1], i); }
  }

  lemma {:induction false} AnsweredTwice(log: seq<Message>, i: nat, j: nat)
    requires i < j < |log| && AckKey(log[i]) == AckKey(log[j])
    ensures AnsweredKeys(log)[AckKey(log[i])] >= 2
  {
    if j < |log| - 1 {
      AnsweredTwice(log[..|log| - 1], i, j);
    } else {
      AnsweredKeysHave(log[..|log| - 1], i);
    }
  }

  /** Fewer than 2^32 signals: no token has wrapped yet. */
  lemma TokensAreIndices(e: System, f: Feed)
    requires Tokened(e, f) && f != MtbtFeed && |e.emitted.Get(f)| < TWO_32
    ensures forall j :: 0 <= j < |e.emitted.Get(f)| ==>
              e.emitted.Get(f)[j].orderToken == j + 1 && SignalKey(e.emitted.Get(f)[j]).token == j + 1
  {
  }

  /** The token is that of a signal in the log, and the rest of the data is that signal's. */
  predicate NamesSignal(log: seq<StrategySignal>, k: Key) {
    0 < k.token <= |log| && log[k.token - 1].orderToken == k.token && SignalKey(log[k.token - 1]) == k
  }

  lemma AnswerNamesSignal(e: System, f: Feed, i: nat)
    requires Balanced(e, f) && Tokened(e, f) && f != MtbtFeed && |e.emitted.Get(f)| < TWO_32
    requires i < |e.answered.Get(f)|
    ensures NamesSignal(e.emitted.Get(f), AckKey(e.answered.Get(f)[i]))
  {
    var k := AckKey(e.answered.Get(f)[i]);
    AnsweredKeysHave(e.answered.Get(f), i);
    assert k in Keys(f, e.signals) + Keys(f, e.pending) + AnsweredKeys(e.answered.Get(f));
    TokensAreIndices(e, f);
    EmittedKeyIsEmitted(e.emitted.Get(f), k);
  }

  lemma AnswersDiffer(e: System, f: Feed, i: nat, j: nat)
    requires Balanced(e, f) && Tokened(e, f) && f != MtbtFeed && |e.emitted.Get(f)| < TWO_32
    requires i < j < |e.answered.Get(f)|
    ensures AckKey(e.answered.Get(f)[i]).token != AckKey(e.answered.Get(f)[j]).token
  {
    AnswerNamesSignal(e, f, i);
    AnswerNamesSignal(e, f, j);
    var k := AckKey(e.answered.Get(f)[i]);
    if k == AckKey(e.answered.Get(f)[j]) {
      AnsweredTwice(e.answered.Get(f), i, j);
      assert (Keys(f, e.signals) + Keys(f, e.pending) + AnsweredKeys(e.answered.Get(f)))[k] >= 2;
      TokensAreIndices(e, f);
      EmittedKeyIsEmitted(e.emitted.Get(f), k);
      assert false;
    }
  }

  /** In every run and for every feed, however many signals: the confirmations are numbered 1, 2, 3, ...,
      and as a multiset their order data, with that of the signals and orders still queued, is exactly
      the order data of the signals emitted. So no signal is answered twice and no answer is altered. */
  lemma OrderDataIsConserved(steps: seq<Step>, a: Account, bps: int, f: Feed)
    ensures var e := Exec(START, steps, a, bps);
      && (forall i :: 0 <= i < |e.answered.Get(f)| ==> Reference(e.answered.Get(f)[i]) == i + 1)
      && Keys(f, e.signals) + Keys(f, e.pending) + AnsweredKeys(e.answered.Get(f)) == EmittedKeys(e.emitted.Get(f))
  {
    var e := RunFromStart(steps, a, bps);
    assert Tokened(e, f) && Balanced(e, f);
  }

  /** MAIN RESULT 15. In every run in which a feed emits fewer than 2^32 signals, for every feed whose
      confirmations name the order (all but NNF): each confirmation names, by its token, exactly one
      emitted signal and carries its data, and different confirmations answer different signals. */
  lemma ConfirmationsMatchSignals(steps: seq<Step>, a: Account, bps: int, f: Feed)
    requires f != MtbtFeed && |Exec(START, steps, a, bps).emitted.Get(f)| < TWO_32
    ensures var e := Exec(START, steps, a, bps);
      && (forall i :: 0 <= i < |e.answered.Get(f)| ==> NamesSignal(e.emitted.Get(f), AckKey(e.answered.Get(f)[i])))
      && (forall i, j :: 0 <= i < j < |e.answered.Get(f)| ==>
            AckKey(e.answered.Get(f)[i]).token != AckKey(e.answered.Get(f)[j]).token)
  {
    var e := RunFromStart(steps, a, bps);
    assert Tokened(e, f) && Balanced(e, f);
    forall i: nat | i < |e.answered.Get(f)| ensures NamesSignal(e.emitted.Get(f), AckKey(e.answered.Get(f)[i])) {
      AnswerNamesSignal(e, f, i);
    }
    forall i, j | 0 <= i < j < |e.answered.Get(f)|
      ensures AckKey(e.answered.Get(f)[i]).token != AckKey(e.answered.Get(f)[j]).token
    {
      AnswersDiffer(e, f, i, j);
    }
  }

  /** MAIN RESULT 15, spelled out for OUCH: the fourteen-character token of a confirmation parses to the
      number of the signal it answers, and side, shares, stock and price are that signal's. */
  lemma OuchConfirmationsMatchSignals(steps: seq<Step>, a: Account, bps: int, i: nat)
    requires |Exec(START, steps, a, bps).emitted.itch| < TWO_32 && i < |Exec(START, steps, a, bps).answered.itch|
    ensures var e := Exec(START, steps, a, bps);
      && e.answered.itch[i].OuchConfirm?
      && var ack := e.answered.itch[i].ouchAck;
         var t := Parse(ack.orderToken);
         && 0 < t <= |e.emitted.itch|
         && e.emitted.itch[t - 1].orderToken == t
         && (ack.side == 'B' <==> e.emitted.itch[t - 1].side == Buy)
         && ack.shares == Word(e.emitted.itch[t - 1].quantity)
         && ack.stock == e.emitted.itch[t - 1].stock
         && ack.price == Word(e.emitted.itch[t - 1].price)
         && ack.reference == i + 1
  {
    var e := RunFromStart(steps, a, bps);
    assert Tokened(e, ItchFeed) && Balanced(e, ItchFeed);
    OuchAnswerNamesSignal(e, i);
  }

  lemma OuchAnswerNamesSignal(e: System, i: nat)
    requires Tokened(e, ItchFeed) && Balanced(e, ItchFeed)
    requires |e.emitted.itch| < TWO_32 && i < |e.answered.itch|
    ensures e.answered.itch[i].OuchConfirm?
    ensures var ack := e.answered.itch[i].ouchAck;
            var t := Parse(ack.orderToken);
         && 0 < t <= |e.emitted.itch|
         && e.emitted.itch[t - 1].orderToken == t
         && (ack.side == 'B' <==> e.emitted.itch[t - 1].side == Buy)
         && ack.shares == Word(e.emitted.itch[t - 1].quantity)
         && ack.stock == e.emitted.itch[t - 1].stock
         && ack.price == Word(e.emitted.itch[t - 1].price)
         && ack.reference == i + 1
  {
    TokensAreIndices(e, ItchFeed);
    AnswerNamesSignal(e, ItchFeed, i);
    IsOuch(e.answered.itch[i], Reference(e.answered.itch[i]));
  }

  lemma IsOuch(m: Message, r: nat)
    requires AckFeed(m) == ItchFeed && Reference(m) == r
    ensures m.OuchConfirm? && m.ouchAck.reference == r
  {
  }

  /** In every run, however long: two signals of a feed carry the same token exactly when a multiple of
      2^32 signals lies between them. */
  lemma TokensRepeatExactly(steps: seq<Step>, a: Account, bps: int, f: Feed, i: nat, j: nat)
    requires i < j < |Exec(START, steps, a, bps).emitted.Get(f)|
    ensures var log := Exec(START, steps, a, bps).emitted.Get(f);
      log[i].orderToken == log[j].orderToken <==> (j - i) % TWO_32 == 0
  {
    var e := RunFromStart(steps, a, bps);
    TokensCount(e, f, i);
    TokensCount(e, f, j);
    WordsRepeat(i + 1, j + 1);
  }

  lemma TokensCount(e: System, f: Feed, i: nat)
    requires InOrder(e) && i < |e.emitted.Get(f)|
    ensures e.emitted.Get(f)[i].orderToken == Word(i + 1)
  {
    assert Tokened(e, f);
  }

  lemma WordsRepeat(x: nat, y: nat)
    requires x <= y
    ensures Word(x) == Word(y) <==> (y - x) % TWO_32 == 0
  {
    if (y - x) % TWO_32 == 0 {
      ModShift(x, (y - x) / TWO_32, TWO_32);
    }
    if Word(x) == Word(y) {
      ModUnique(y - x, TWO_32, y / TWO_32 - x / TWO_32, 0);
    }
  }

  // ----- From tick to signal -----

  /** The order data of a signal is the tick's own: shares and price survive the trip through int32. */
  lemma SignalKeepsTick(p: Producer, body: Bytes, bps: int)
    requires |body| == ITCH_SIZE
    ensures var signal := OnTick(p, ReadQuote(ItchTick(body)).value, bps).1;
      signal.Some? ==>
        && SignalKey(signal.value).quantity == ItchShares(body)
        && SignalKey(signal.value).price == ItchPrice(body)
        && SignalKey(signal.value).stock == body[24..32]
        && signal.value.orderToken == p.nextToken
  {
    UnsignedSurvivesSignedCast(ItchShares(body));
    UnsignedSurvivesSignedCast(ItchPrice(body));
  }

  /** A signal for an MTBT order that fits 32 bits carries its token, price and quantity. */
  lemma SignalKeepsMtbtOrder(p: Producer, o: MtbtSpec, bps: int)
    requires FitsInt32(o.token) && FitsInt32(o.price) && FitsInt32(o.quantity)
    ensures var signal := OnTick(p, ReadQuote(MtbtTick(MtbtBody(o))).value, bps).1;
      signal.Some? ==>
        && SignalKey(signal.value) == Key(o.token, SideCode(signal.value.side), o.quantity, o.price, [])
        && signal.value.orderToken == p.nextToken
  {
    MtbtPacketReadsBack(o, 0);
    FittingValueIsKept(o.token);
    FittingValueIsKept(o.price);
    FittingValueIsKept(o.quantity);
  }
}
