/** A run of the pipeline whose signal queue gets stuck, and what round-robin polling does to it. */
module Standstill {
  import opened Machine
  import opened Messages
  import opened Decoding
  import opened Strategy
  import opened TradingSteps
  import opened Pipeline
  import opened Rotation

  // ----- A stuck queue stands still -----

  /** n polls, the three consumers in turn. */
  function RoundRobin(n: nat): seq<Step> {
    if n == 0 then [] else RoundRobin(n - 1) + [Consume(AtTurn(n - 1))]
  }

  lemma {:induction false} ExecInTwoParts(y: System, xs: seq<Step>, ys: seq<Step>, a: Account, bps: int)
    ensures Exec(y, xs + ys, a, bps) == Exec(Exec(y, xs, a, bps), ys, a, bps)
    decreases |xs|
  {
    if xs == [] {
      assert xs + ys == ys;
    } else {
      assert (xs + ys)[0] == xs[0] && (xs + ys)[1..] == xs[1..] + ys;
      ExecInTwoParts(Apply(y, xs[0], a, bps), xs[1..], ys, a, bps);
    }
  }

  lemma ExecOne(y: System, s: Step, a: Account, bps: int)
    ensures Exec(y, [s], a, bps) == Apply(y, s, a, bps)
  {
    var z := Apply(y, s, a, bps);
    assert [s][1..] == [] && Exec(z, [], a, bps) == z;
  }

  /** A poll that finds another feed's signal only moves it to the back. */
  lemma PassingPoll(y: System, feed: Feed, a: Account)
    requires y.signals != [] && Judge(feed, y.signals[0]) == Rotate
    ensures Consuming(y, feed, a) == y.(signals := y.signals[1..] + [y.signals[0]])
  {
    var z := Consuming(y, feed, a);
    assert z.consumers == y.consumers;
  }

  /** The state y with its signal queue turned n places. */
  function TurnedBy(y: System, n: nat): System
    requires y.signals != []
  {
    y.(signals := Rotated(y.signals, n))
  }

  lemma OneMoreTurn(y: System, a: Account, bps: int, n: nat)
    requires y.signals != [] && Stuck(y.signals, 0)
    ensures Apply(TurnedBy(y, n), Consume(AtTurn(n)), a, bps) == TurnedBy(y, n + 1)
  {
    StuckForEver(y.signals, 0, n);
    RotateOnce(y.signals, n);
    PassingPoll(TurnedBy(y, n), AtTurn(n), a);
  }

  lemma NotTurned(y: System)
    requires y.signals != []
    ensures TurnedBy(y, 0) == y
  {
    NotRotatedYet(y.signals);
  }

  /** On a stuck queue any number of polls changes nothing but the order of the queue. */
  lemma {:induction false} StuckQueueStandsStill(y: System, a: Account, bps: int, n: nat)
    requires y.signals != [] && Stuck(y.signals, 0)
    ensures Exec(y, RoundRobin(n), a, bps) == TurnedBy(y, n)
  {
    if n == 0 {
      NotTurned(y);
    } else {
      var m := n - 1;
      StuckQueueStandsStill(y, a, bps, m);
      ExecInTwoParts(y, RoundRobin(m), [Consume(AtTurn(m))], a, bps);
      ExecOne(TurnedBy(y, m), Consume(AtTurn(m)), a, bps);
      OneMoreTurn(y, a, bps, m);
    }
  }

  // ----- A run that gets there -----

  /** A top of book whose bid and ask are one price, with zeros elsewhere. */
  function McxBody(price: nat): (b: Bytes)
    requires price < 0x1_0000
    ensures |b| == MCX_SIZE
  {
    seq(MCX_SIZE, i => if i == 8 || i == 16 then price % 256 else if i == 9 || i == 17 then price / 256 else 0)
  }

  function TickOf(f: Feed, price: nat): Message
    requires price < 0x1_0000
  {
    match f
    case ItchFeed => ItchTick(ItchBody(ItchSpec(10, 100, price)))
    case MtbtFeed => MtbtTick(MtbtBody(MtbtSpec(1, 111, 10, price)))
    case McxFeed => McxTick(McxBody(price))
    case SbeFeed => SbeTick(price, price, 0, 100, 0, 1, [])
  }

  lemma McxBodyReadsBack(price: nat)
    requires price < 0x1_0000
    ensures Int64(Le64(McxBody(price), 8)) == price && Int64(Le64(McxBody(price), 16)) == price
  {
    var b := McxBody(price);
    assert Le64(b, 8) == price && Le64(b, 16) == price;
  }

  lemma ItchTickReadsBack(price: nat)
    requires price < 0x1_0000
    ensures var q := ReadQuote(TickOf(ItchFeed, price)); q.Some? && q.value.feed == ItchFeed && q.value.price == price
  {
    FittingValueIsKept(price);
    ItchBodyReadsBack(ItchSpec(10, 100, price));
  }

  lemma MtbtTickReadsBack(price: nat)
    requires price < 0x1_0000
    ensures var q := ReadQuote(TickOf(MtbtFeed, price)); q.Some? && q.value.feed == MtbtFeed && q.value.price == price
  {
    FittingValueIsKept(price);
    MtbtPacketReadsBack(MtbtSpec(1, 111, 10, price), 0);
  }

  lemma McxQuote(b: Bytes)
    requires |b| == MCX_SIZE
    ensures var q := ReadQuote(McxTick(b));
      && q.Some? && q.value.feed == McxFeed
      && q.value.price == Int32(TruncDiv(Int64(Le64(b, 8)) + Int64(Le64(b, 16)), 2))
  {
  }

  lemma MidOfOnePrice(price: nat)
    requires price < 0x1_0000
    ensures Int32(TruncDiv((price as int) + price, 2)) == price
  {
    assert TruncDiv((price as int) + price, 2) == price;
    FittingValueIsKept(price);
  }

  lemma McxTickReadsBack(price: nat)
    requires price < 0x1_0000
    ensures var q := ReadQuote(TickOf(McxFeed, price)); q.Some? && q.value.feed == McxFeed && q.value.price == price
  {
    McxQuote(McxBody(price));
    McxBodyReadsBack(price);
    MidOfOnePrice(price);
  }

  lemma TickReadsBack(f: Feed, price: nat)
    requires price < 0x1_0000 && f != SbeFeed
    ensures var q := ReadQuote(TickOf(f, price)); q.Some? && q.value.feed == f && q.value.price == price
  {
    match f
    case ItchFeed => ItchTickReadsBack(price);
    case MtbtFeed => MtbtTickReadsBack(price);
    case McxFeed => McxTickReadsBack(price);
    case SbeFeed =>
  }

  /** A price halved after the first tick is bought, if the band is positive there. */
  lemma HalvedPriceIsBought(p: Producer, q: Quote, r: Quote, price: nat)
    requires p.ref == 0 && 8000 <= price < 0x1_0000 && q.price == price && r.price == price / 2
    ensures OnTick(p, q, DEFAULT_BAND_BPS) == (p.(ref := price), None)
    ensures var signal := OnTick(p.(ref := price), r, DEFAULT_BAND_BPS).1;
      signal.Some? && signal.value.side == Buy && signal.value.feed == r.feed
  {
    UpdateIsPlain(price, price / 2);
    FittingValueIsKept(UpdateRef(price, price / 2) * DEFAULT_BAND_BPS);
  }

  /** Two ticks of one feed arrive and are routed. */
  function TwoTicks(f: Feed, price: nat): seq<Step>
    requires price < 0x1_0000
  {
    [Arrive(TickOf(f, price)), Arrive(TickOf(f, price / 2))] + [Route, Route]
  }

  /** What two ticks of a feed without a reference do: one signal more. */
  ghost predicate OneSignalMore(y: System, z: System, f: Feed) {
    && z.market == [] && z.pending == y.pending && z.consumers == y.consumers
    && |z.signals| == |y.signals| + 1 && z.signals[..|y.signals|] == y.signals
    && z.signals[|y.signals|].Signal? && z.signals[|y.signals|].signal.feed == f
    && z.signals[|y.signals|].signal.side == Buy
    && forall g :: g != f ==> z.producers.Get(g) == y.producers.Get(g)
  }

  lemma ExecTwo(y: System, s: Step, t: Step, a: Account, bps: int)
    ensures Exec(y, [s, t], a, bps) == Apply(Apply(y, s, a, bps), t, a, bps)
  {
    assert [s, t] == [s] + [t];
    ExecInTwoParts(y, [s], [t], a, bps);
    ExecOne(y, s, a, bps);
    ExecOne(Apply(y, s, a, bps), t, a, bps);
  }

  lemma RoutingTwo(y: System, f: Feed, q: Quote, r: Quote, price: nat, a: Account)
    requires |y.market| == 2 && ReadQuote(y.market[0]) == Some(q) && ReadQuote(y.market[1]) == Some(r)
    requires q.feed == r.feed == f && y.producers.Get(f).ref == 0
    requires 8000 <= price < 0x1_0000 && q.price == price && r.price == price / 2
    ensures OneSignalMore(y, Apply(Apply(y, Route, a, DEFAULT_BAND_BPS), Route, a, DEFAULT_BAND_BPS), f)
  {
    HalvedPriceIsBought(y.producers.Get(f), q, r, price);
    var z := Apply(y, Route, a, DEFAULT_BAND_BPS);
    assert z.market == [y.market[1]] && z.producers.Get(f) == y.producers.Get(f).(ref := price);
    assert z.signals == y.signals;
  }

  lemma ArrivingTwo(y: System, s: Message, t: Message, a: Account, bps: int)
    requires y.market == []
    ensures Apply(Apply(y, Arrive(s), a, bps), Arrive(t), a, bps)
         == y.(market := [s, t], acquired := y.acquired + 2)
  {
  }

  lemma TwoTicksEmit(y: System, f: Feed, price: nat, a: Account)
    requires f != SbeFeed && y.market == [] && y.producers.Get(f).ref == 0 && 8000 <= price < 0x1_0000
    ensures OneSignalMore(y, Exec(y, TwoTicks(f, price), a, DEFAULT_BAND_BPS), f)
  {
    var s, t, bps := TickOf(f, price), TickOf(f, price / 2), DEFAULT_BAND_BPS;
    var z := y.(market := [s, t], acquired := y.acquired + 2);
    TickReadsBack(f, price);
    TickReadsBack(f, price / 2);
    ExecTwo(y, Arrive(s), Arrive(t), a, bps);
    ArrivingTwo(y, s, t, a, bps);
    RoutingTwo(z, f, ReadQuote(s).value, ReadQuote(t).value, price, a);
    ExecTwo(z, Route, Route, a, bps);
    ExecInTwoParts(y, [Arrive(s), Arrive(t)], [Route, Route], a, bps);
  }

  /** An MTBT, an MCX and an ITCH signal, in this order. */
  function SixTicks(price: nat): seq<Step>
    requires price < 0x1_0000
  {
    (TwoTicks(MtbtFeed, price) + TwoTicks(McxFeed, price)) + TwoTicks(ItchFeed, price)
  }

  /** The pipeline has the queue in which every consumer meets the wrong signal, and nothing else to do. */
  ghost predicate Jammed(e: System) {
    && |e.signals| == 3
    && (forall i :: 0 <= i < 3 ==> Drainable(e.signals[i]) && e.signals[i].signal.side == Buy)
    && e.signals[0].signal.feed == MtbtFeed && e.signals[1].signal.feed == McxFeed
    && e.signals[2].signal.feed == ItchFeed
    && e.market == [] && e.pending == []
  }

  lemma ThreeSignals(y: System, z: System, w: System, e: System)
    requires y.signals == [] && y.pending == []
    requires OneSignalMore(y, z, MtbtFeed) && OneSignalMore(z, w, McxFeed) && OneSignalMore(w, e, ItchFeed)
    ensures Jammed(e) && e.consumers == y.consumers
  {
    assert e.signals[0] == w.signals[0] == z.signals[0] && e.signals[1] == w.signals[1];
  }

  lemma ThreeParts(y: System, r: seq<Step>, s: seq<Step>, t: seq<Step>, a: Account, bps: int)
    ensures Exec(y, (r + s) + t, a, bps) == Exec(Exec(Exec(y, r, a, bps), s, a, bps), t, a, bps)
  {
    ExecInTwoParts(y, r, s, a, bps);
    ExecInTwoParts(y, r + s, t, a, bps);
  }

  lemma SixTicksJam(y: System, price: nat, a: Account) returns (e: System)
    requires y.market == [] && y.signals == [] && y.pending == [] && forall f :: y.producers.Get(f).ref == 0
    requires 8000 <= price < 0x1_0000
    ensures e == Exec(y, SixTicks(price), a, DEFAULT_BAND_BPS) && Jammed(e) && e.consumers == y.consumers
  {
    var r, s, t := TwoTicks(MtbtFeed, price), TwoTicks(McxFeed, price), TwoTicks(ItchFeed, price);
    var z := Exec(y, r, a, DEFAULT_BAND_BPS);
    var w := Exec(z, s, a, DEFAULT_BAND_BPS);
    e := Exec(w, t, a, DEFAULT_BAND_BPS);
    ThreeParts(y, r, s, t, a, DEFAULT_BAND_BPS);
    TwoTicksEmit(y, MtbtFeed, price, a);
    TwoTicksEmit(z, McxFeed, price, a);
    TwoTicksEmit(w, ItchFeed, price, a);
    ThreeSignals(y, z, w, e);
  }

  lemma JammedIsStuck(e: System)
    requires Jammed(e)
    ensures Stuck(e.signals, 0)
  {
    var q := e.signals;
    forall i: nat | i < |q| ensures (0 + i) % 3 != Wanted(q[i]) {
      assert Wanted(q[i]) == (i + 1) % 3;
    }
    StuckInStep(q, 0);
  }

  /** MAIN RESULT 28. The pipeline does get stuck: a tick at any price from 8000 on and one at half of it, on
      each of three feeds, all routed, fill the signal queue with three live signals which no number of
      polls in turn ever submits: after any number the queue still holds all three, no order is pending and
      no consumer has counted one. */
  lemma StandstillIsReached(price: nat, a: Account, n: nat)
    requires 8000 <= price < 0x1_0000
    ensures var e := Exec(START, SixTicks(price) + RoundRobin(n), a, DEFAULT_BAND_BPS);
      && |e.signals| == 3 && (forall m :: m in e.signals ==> LiveSignal(m))
      && e.pending == [] && e.market == [] && e.consumers == START.consumers
  {
    forall f ensures START.producers.Get(f).ref == 0 {}
    var e := SixTicksJam(START, price, a);
    JammedIsStuck(e);
    StuckQueueStandsStill(e, a, DEFAULT_BAND_BPS, n);
    ExecInTwoParts(START, SixTicks(price), RoundRobin(n), a, DEFAULT_BAND_BPS);
    RotatedHas(e.signals, n);
  }

  lemma RotatedHas(q: seq<Message>, n: nat)
    requires q != []
    ensures |Rotated(q, n)| == |q| && forall m :: m in Rotated(q, n) ==> m in q
  {
  }
}
