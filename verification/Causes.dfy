/** Which tick caused which signal, and so which confirmation. */
module Causes {
  import opened Machine
  import opened Messages
  import opened Strategy
  import opened TradingSteps
  import opened Pipeline
  import opened Orders

  // ----- What the ticks of a run say -----

  /** The ticks a run ingests, in order. */
  function Arrivals(steps: seq<Step>): seq<Message> {
    if steps == [] then [] else (if steps[0].Arrive? then [steps[0].tick] else []) + Arrivals(steps[1..])
  }

  /** What a feed's producer reads of a list of ticks. */
  function QuotesOf(f: Feed, ms: seq<Message>): seq<Quote> {
    if ms == [] then []
    else
      var q := ReadQuote(ms[|ms| - 1]);
      QuotesOf(f, ms[..|ms| - 1]) + if q.Some? && q.value.feed == f then [q.value] else []
  }

  const NEW_PRODUCER: Producer := Producer(0, 1, 0)

  /** A new producer after a list of quotes. */
  function Ticked(qs: seq<Quote>, bps: int): Producer {
    if qs == [] then NEW_PRODUCER else OnTick(Ticked(qs[..|qs| - 1], bps), qs[|qs| - 1], bps).0
  }

  /** The signal the k-th quote makes a new producer emit, if any. */
  function SignalAt(qs: seq<Quote>, k: nat, bps: int): Option<StrategySignal>
    requires k < |qs|
  {
    OnTick(Ticked(qs[..k], bps), qs[k], bps).1
  }

  /** All signals a new producer emits on a list of quotes. */
  function SignalsOf(qs: seq<Quote>, bps: int): seq<StrategySignal> {
    if qs == [] then []
    else
      var signal := SignalAt(qs, |qs| - 1, bps);
      SignalsOf(qs[..|qs| - 1], bps) + if signal.Some? then [signal.value] else []
  }

  // ----- The logs are those of the ticks -----

  /** The ticks in the market queue are the last that arrived, and each producer and its log are those of a
      new producer on the quotes of the ticks routed before. */
  ghost predicate Traced(y: System, arrived: seq<Message>, routed: seq<Message>, bps: int) {
    arrived == routed + y.market && forall f :: Follows(y, f, QuotesOf(f, routed), bps)
  }

  ghost predicate Follows(y: System, f: Feed, qs: seq<Quote>, bps: int) {
    y.producers.Get(f) == Ticked(qs, bps) && y.emitted.Get(f) == SignalsOf(qs, bps)
  }

  lemma OneMoreQuote(f: Feed, ms: seq<Message>, m: Message)
    ensures var q := ReadQuote(m);
      QuotesOf(f, ms + [m]) == QuotesOf(f, ms) + if q.Some? && q.value.feed == f then [q.value] else []
  {
    assert (ms + [m])[..|ms|] == ms;
  }

  lemma OneMoreSignal(qs: seq<Quote>, q: Quote, bps: int)
    ensures Ticked(qs + [q], bps) == OnTick(Ticked(qs, bps), q, bps).0
    ensures var signal := OnTick(Ticked(qs, bps), q, bps).1;
      SignalsOf(qs + [q], bps) == SignalsOf(qs, bps) + if signal.Some? then [signal.value] else []
  {
    assert (qs + [q])[..|qs|] == qs;
  }

  lemma EmitFollows(y: System, q: Quote, f: Feed, qs: seq<Quote>, bps: int)
    requires y.market != [] && Follows(y, f, qs, bps)
    ensures Follows(Emitting(y, q, bps), f, qs + if q.feed == f then [q] else [], bps)
  {
    if q.feed == f {
      OneMoreSignal(qs, q, bps);
    } else {
      assert qs + [] == qs;
    }
  }

  lemma RouteFollows(y: System, routed: seq<Message>, f: Feed, a: Account, bps: int)
    requires y.market != [] && Follows(y, f, QuotesOf(f, routed), bps)
    ensures Follows(Apply(y, Route, a, bps), f, QuotesOf(f, routed + [y.market[0]]), bps)
  {
    var m := y.market[0];
    OneMoreQuote(f, routed, m);
    if ReadQuote(m).Some? {
      EmitFollows(y, ReadQuote(m).value, f, QuotesOf(f, routed), bps);
    } else {
      assert QuotesOf(f, routed) + [] == QuotesOf(f, routed);
    }
  }

  lemma RouteTakesHead(y: System, a: Account, bps: int)
    requires y.market != []
    ensures Apply(y, Route, a, bps).market == y.market[1..]
  {
  }

  lemma RouteKeepsTraced(y: System, arrived: seq<Message>, routed: seq<Message>, a: Account, bps: int)
    requires Traced(y, arrived, routed, bps) && y.market != []
    ensures Traced(Apply(y, Route, a, bps), arrived, routed + [y.market[0]], bps)
  {
    RouteTakesHead(y, a, bps);
    assert y.market == [y.market[0]] + y.market[1..];
    forall f ensures Follows(Apply(y, Route, a, bps), f, QuotesOf(f, routed + [y.market[0]]), bps) {
      assert Follows(y, f, QuotesOf(f, routed), bps);
      RouteFollows(y, routed, f, a, bps);
    }
  }

  /** A step that routes nothing changes no producer. */
  lemma OthersKeepTraced(y: System, s: Step, arrived: seq<Message>, routed: seq<Message>, a: Account, bps: int)
    requires Traced(y, arrived, routed, bps) && (s.Route? ==> y.market == [])
    ensures Traced(Apply(y, s, a, bps), arrived + Arrivals([s]), routed, bps)
  {
    var z := Apply(y, s, a, bps);
    assert z.producers == y.producers && z.emitted == y.emitted && z.market == y.market + Arrivals([s]);
    forall f ensures Follows(z, f, QuotesOf(f, routed), bps) {
      assert Follows(y, f, QuotesOf(f, routed), bps);
    }
  }

  lemma ArrivalsFirst(steps: seq<Step>)
    requires steps != []
    ensures Arrivals(steps) == Arrivals([steps[0]]) + Arrivals(steps[1..])
  {
    assert Arrivals([]) == [];
  }

  lemma {:induction false} RunKeepsTraced(
    y: System, steps: seq<Step>, arrived: seq<Message>, routed: seq<Message>, a: Account, bps: int)
    returns (all: seq<Message>)
    requires Traced(y, arrived, routed, bps)
    ensures Traced(Exec(y, steps, a, bps), arrived + Arrivals(steps), all, bps)
    decreases |steps|
  {
    if steps == [] {
      assert arrived + [] == arrived;
      all := routed;
    } else {
      var s := steps[0];
      ArrivalsFirst(steps);
      if s.Route? && y.market != [] {
        RouteKeepsTraced(y, arrived, routed, a, bps);
        all := RunKeepsTraced(Apply(y, s, a, bps), steps[1..], arrived, routed + [y.market[0]], a, bps);
      } else {
        OthersKeepTraced(y, s, arrived, routed, a, bps);
        all := RunKeepsTraced(Apply(y, s, a, bps), steps[1..], arrived + Arrivals([s]), routed, a, bps);
      }
      assert arrived + Arrivals(steps) == (arrived + Arrivals([s])) + Arrivals(steps[1..]);
    }
  }

  lemma StartIsTraced(bps: int)
    ensures Traced(START, [], [], bps)
  {
    var y := START;
    forall f ensures Follows(y, f, QuotesOf(f, []), bps) {
      assert y.producers.Get(f) == NEW_PRODUCER && y.emitted.Get(f) == [];
    }
  }

  /** The ticks of a run that have been routed: all that arrived but the ones still queued. */
  function RoutedTicks(steps: seq<Step>, e: System): seq<Message> {
    var arrived := Arrivals(steps);
    if |e.market| <= |arrived| then arrived[..|arrived| - |e.market|] else []
  }

  /** MAIN RESULT 26. In every run ticks are routed in the order in which they arrived, and every producer
      and its log of signals are what the feed's own ticks among them make of a new producer: no other
      feed, consumer or gateway step, and no order of the steps, has any influence. */
  lemma SignalsFollowTicks(steps: seq<Step>, a: Account, bps: int, f: Feed)
    ensures var e := Exec(START, steps, a, bps);
            var qs := QuotesOf(f, RoutedTicks(steps, e));
      && Arrivals(steps) == RoutedTicks(steps, e) + e.market
      && e.producers.Get(f) == Ticked(qs, bps)
      && e.emitted.Get(f) == SignalsOf(qs, bps)
  {
    StartIsTraced(bps);
    var routed := RunKeepsTraced(START, steps, [], [], a, bps);
    var e := Exec(START, steps, a, bps);
    assert [] + Arrivals(steps) == Arrivals(steps);
    assert RoutedTicks(steps, e) == routed;
    assert Follows(e, f, QuotesOf(f, routed), bps);
  }

  // ----- Back from a confirmation to its tick -----

  /** The j-th signal is that of one quote, before which there were exactly j. */
  lemma {:induction false} CauseOf(qs: seq<Quote>, bps: int, j: nat) returns (k: nat)
    requires j < |SignalsOf(qs, bps)|
    ensures k < |qs| && |SignalsOf(qs[..k], bps)| == j && SignalAt(qs, k, bps) == Some(SignalsOf(qs, bps)[j])
    decreases |qs|
  {
    var front := qs[..|qs| - 1];
    if j < |SignalsOf(front, bps)| {
      k := CauseOf(front, bps, j);
      assert front[..k] == qs[..k];
    } else {
      k := |qs| - 1;
    }
  }

  function Prices(qs: seq<Quote>): (ps: seq<int>)
    ensures |ps| == |qs| && forall i :: 0 <= i < |qs| ==> ps[i] == qs[i].price
  {
    seq(|qs|, i requires 0 <= i < |qs| => qs[i].price)
  }

  /** The producer's reference is the average of the prices read, and its token counts its signals. */
  lemma {:induction false} TickedMeans(qs: seq<Quote>, bps: int)
    ensures Ticked(qs, bps).ref == RefAfter(0, Prices(qs))
    ensures Ticked(qs, bps).nextToken == Word(|SignalsOf(qs, bps)| + 1)
    ensures Ticked(qs, bps).emitted == |SignalsOf(qs, bps)|
  {
    if qs != [] {
      var front := qs[..|qs| - 1];
      TickedMeans(front, bps);
      assert Prices(qs)[..|qs| - 1] == Prices(front);
      NextToken(|SignalsOf(front, bps)| + 1);
    }
  }

  lemma AverageIsPositive(prices: seq<int>)
    requires forall i :: 0 <= i < |prices| ==> Price(prices[i])
    ensures if prices == [] then RefAfter(0, prices) == 0 else Price(RefAfter(0, prices))
  {
    if prices != [] { RefStaysInRange(prices, 1, 0x7FFF_FFFF); }
  }

  /** Signal s is what quote k makes the producer emit: the quote's own price, quantity and instrument, the
      next token, and the side on which the price lies of the average of the prices before. */
  predicate Emits(qs: seq<Quote>, bps: int, k: nat, s: StrategySignal) {
    && k < |qs|
    && s.feed == qs[k].feed && s.price == qs[k].price && s.quantity == qs[k].quantity
    && s.stock == qs[k].stock && s.token == qs[k].token && s.symbol == qs[k].symbol && s.series == qs[k].series
    && s.orderToken == Word(|SignalsOf(qs[..k], bps)| + 1)
    && ((forall i :: 0 <= i < |qs| ==> Price(qs[i].price)) ==>
          var average := RefAfter(0, Prices(qs[..k]));
          k > 0 && if qs[k].price < average then s.side == Buy else qs[k].price > average && s.side == Sell)
  }

  lemma SignalAtIsEmitted(qs: seq<Quote>, bps: int, k: nat)
    requires k < |qs| && SignalAt(qs, k, bps).Some?
    ensures Emits(qs, bps, k, SignalAt(qs, k, bps).value)
  {
    TickedMeans(qs[..k], bps);
    if forall i :: 0 <= i < |qs| ==> Price(qs[i].price) {
      AverageIsPositive(Prices(qs[..k]));
      SideOfSignal(Ticked(qs[..k], bps), qs[k], bps);
    }
  }

  /** Quote k causes the signal before which there are j. */
  predicate CausesAt(qs: seq<Quote>, bps: int, k: nat, j: nat, s: StrategySignal) {
    k < |qs| && |SignalsOf(qs[..k], bps)| == j && Emits(qs, bps, k, s)
  }

  lemma OneCauseOf(qs: seq<Quote>, bps: int, j: nat) returns (k: nat)
    requires j < |SignalsOf(qs, bps)|
    ensures CausesAt(qs, bps, k, j, SignalsOf(qs, bps)[j])
  {
    k := CauseOf(qs, bps, j);
    SignalAtIsEmitted(qs, bps, k);
  }

  /** The quotes that cause the first n signals, in order. */
  lemma {:induction false} FirstCauses(qs: seq<Quote>, bps: int, n: nat) returns (ks: seq<nat>)
    requires n <= |SignalsOf(qs, bps)|
    ensures |ks| == n && forall j :: 0 <= j < n ==> CausesAt(qs, bps, ks[j], j, SignalsOf(qs, bps)[j])
  {
    if n == 0 {
      ks := [];
    } else {
      ks := FirstCauses(qs, bps, n - 1);
      var k := OneCauseOf(qs, bps, n - 1);
      ks := ks + [k];
    }
  }

  /** In every run, for every feed and however many signals: each emitted signal has a routed tick of its own
      that makes it what it is. */
  lemma SignalsHaveTicks(steps: seq<Step>, a: Account, bps: int, f: Feed) returns (ks: seq<nat>)
    ensures var e := Exec(START, steps, a, bps);
            var qs := QuotesOf(f, RoutedTicks(steps, e));
      && |ks| == |e.emitted.Get(f)|
      && (forall j :: 0 <= j < |ks| ==> Emits(qs, bps, ks[j], e.emitted.Get(f)[j]))
      && (forall i, j :: 0 <= i < j < |ks| ==> ks[i] != ks[j])
  {
    var e := Exec(START, steps, a, bps);
    var qs := QuotesOf(f, RoutedTicks(steps, e));
    SignalsFollowTicks(steps, a, bps, f);
    ks := FirstCauses(qs, bps, |e.emitted.Get(f)|);
    var log := SignalsOf(qs, bps);
    forall j | 0 <= j < |ks| ensures Emits(qs, bps, ks[j], log[j]) {
      assert CausesAt(qs, bps, ks[j], j, log[j]);
    }
    forall i, j | 0 <= i < j < |ks| ensures ks[i] != ks[j] {
      assert CausesAt(qs, bps, ks[i], i, log[i]) && CausesAt(qs, bps, ks[j], j, log[j]);
    }
  }

  /** A confirmation answers the signal that quote k made the producer emit, and repeats its data. */
  predicate Answers(qs: seq<Quote>, bps: int, k: nat, ack: Message) {
    && k < |qs|
    && SignalAt(qs, k, bps).Some?
    && Emits(qs, bps, k, SignalAt(qs, k, bps).value)
    && AckKey(ack) == SignalKey(SignalAt(qs, k, bps).value)
  }

  /** Quote k causes the confirmation, whose token is that of the signal. */
  predicate Causes(qs: seq<Quote>, bps: int, k: nat, ack: Message) {
    Answers(qs, bps, k, ack) && |SignalsOf(qs[..k], bps)| + 1 == AckKey(ack).token
  }

  lemma OneCause(qs: seq<Quote>, bps: int, log: seq<StrategySignal>, ack: Message) returns (k: nat)
    requires log == SignalsOf(qs, bps) && NamesSignal(log, AckKey(ack))
    ensures Causes(qs, bps, k, ack)
  {
    k := CauseOf(qs, bps, AckKey(ack).token - 1);
    SignalAtIsEmitted(qs, bps, k);
  }

  predicate AllCaused(qs: seq<Quote>, bps: int, ks: seq<nat>, acks: seq<Message>) {
    |ks| == |acks| && forall i :: 0 <= i < |ks| ==> Causes(qs, bps, ks[i], acks[i])
  }

  lemma {:induction false} CausesOf(qs: seq<Quote>, bps: int, log: seq<StrategySignal>, acks: seq<Message>)
    returns (ks: seq<nat>)
    requires log == SignalsOf(qs, bps) && forall i :: 0 <= i < |acks| ==> NamesSignal(log, AckKey(acks[i]))
    ensures AllCaused(qs, bps, ks, acks)
    decreases |acks|
  {
    if acks == [] {
      ks := [];
    } else {
      var last := |acks| - 1;
      var front := CausesOf(qs, bps, log, acks[..last]);
      var k := OneCause(qs, bps, log, acks[last]);
      OneMoreCaused(qs, bps, front, acks[..last], k, acks[last]);
      assert acks == acks[..last] + [acks[last]];
      ks := front + [k];
    }
  }

  lemma OneMoreCaused(qs: seq<Quote>, bps: int, ks: seq<nat>, acks: seq<Message>, k: nat, ack: Message)
    requires AllCaused(qs, bps, ks, acks) && Causes(qs, bps, k, ack)
    ensures AllCaused(qs, bps, ks + [k], acks + [ack])
  {
  }

  /** Confirmations with different tokens have different causes. */
  lemma CausesDiffer(qs: seq<Quote>, bps: int, ks: seq<nat>, acks: seq<Message>)
    requires AllCaused(qs, bps, ks, acks)
    requires forall i, j :: 0 <= i < j < |acks| ==> AckKey(acks[i]).token != AckKey(acks[j]).token
    ensures forall i, j :: 0 <= i < j < |ks| ==> ks[i] != ks[j]
  {
    forall i, j | 0 <= i < j < |ks| ensures ks[i] != ks[j] {
      assert Causes(qs, bps, ks[i], acks[i]) && Causes(qs, bps, ks[j], acks[j]);
    }
  }

  /** MAIN RESULT 27. So in every run in which a feed emits fewer than 2^32 signals, on every feed whose
      confirmations name the order, each confirmation has a tick of its own: the routed tick that made the
      producer emit the signal it answers, whose data it repeats; and no two confirmations have the same
      tick. */
  lemma ConfirmationsHaveTicks(steps: seq<Step>, a: Account, bps: int, f: Feed) returns (ks: seq<nat>)
    requires f != MtbtFeed && |Exec(START, steps, a, bps).emitted.Get(f)| < TWO_32
    ensures var e := Exec(START, steps, a, bps);
            var qs := QuotesOf(f, RoutedTicks(steps, e));
      && |ks| == |e.answered.Get(f)|
      && (forall i :: 0 <= i < |ks| ==> Answers(qs, bps, ks[i], e.answered.Get(f)[i]))
      && (forall i, j :: 0 <= i < j < |ks| ==> ks[i] != ks[j])
  {
    var e := Exec(START, steps, a, bps);
    var qs := QuotesOf(f, RoutedTicks(steps, e));
    SignalsFollowTicks(steps, a, bps, f);
    ConfirmationsMatchSignals(steps, a, bps, f);
    ks := CausesOf(qs, bps, e.emitted.Get(f), e.answered.Get(f));
    CausesDiffer(qs, bps, ks, e.answered.Get(f));
    assert forall i :: 0 <= i < |ks| ==> Causes(qs, bps, ks[i], e.answered.Get(f)[i]);
  }
}
