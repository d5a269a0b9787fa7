/** The trading pipeline over whole runs: ticks are routed to producers, producers emit signals,
    consumers turn signals into orders, the gateway confirms orders. Each poll and each routed tick is
    one step, in any order and any number. */
module Pipeline {
  import opened Counting
  import opened Messages
  import opened TradingSteps

  /** The four queues, the number of acquired pool slots, and the components. `collected` counts the
      confirmations taken off the last queue; the two logs record, feed by feed, every emitted signal and
      every confirmation. */
  datatype System = System(
    market: seq<Message>, signals: seq<Message>, pending: seq<Message>, confirms: seq<Message>,
    acquired: nat,
    producers: PerFeed<Producer>, consumers: PerFeed<Consumer>, gateway: Gateway,
    collected: nat,
    emitted: PerFeed<seq<StrategySignal>>, answered: PerFeed<seq<Message>>)

  datatype Step =
    | Arrive(tick: Message)       // ingestion acquires a slot and queues a message
    | Route                       // route_market_tick on the head of the market queue
    | Consume(feed: Feed)         // that consumer's poll_once
    | Answer                      // the gateway's poll_once
    | Collect                     // a confirmation is taken and released

  function Emitting(y: System, q: Quote, bps: int): System
    requires y.market != []
  {
    var (p, signal) := OnTick(y.producers.Get(q.feed), q, bps);
    var z := y.(market := y.market[1..], producers := y.producers.Put(q.feed, p));
    match signal
    case None => z.(acquired := Minus1(y.acquired))
    case Some(s) =>
      z.(signals := y.signals + [Signal(s)], emitted := y.emitted.Put(q.feed, y.emitted.Get(q.feed) + [s]))
  }

  function Minus1(n: nat): nat {
    if n > 0 then n - 1 else 0
  }

  function Consuming(y: System, f: Feed, a: Account): System {
    var p := Poll(f, a, Polled(y.consumers.Get(f), y.signals, y.pending));
    y.(signals := p.signals, pending := p.pending, consumers := y.consumers.Put(f, p.c),
       acquired := if y.signals != [] && Judge(f, y.signals[0]) == Drop then Minus1(y.acquired) else y.acquired)
  }

  function Answering(y: System): System {
    var d := PollGateway(Desk(y.gateway, y.pending, y.confirms));
    var z := y.(gateway := d.g, pending := d.pending, confirms := d.confirms);
    if y.pending == [] then z
    else match Confirm(y.gateway, y.pending[0])
      case None => z.(acquired := Minus1(y.acquired))
      case Some((_, ack)) => z.(answered := y.answered.Put(AckFeed(ack), y.answered.Get(AckFeed(ack)) + [ack]))
  }

  /** The feed a confirmation belongs to. */
  function AckFeed(ack: Message): Feed {
    if ack.OuchConfirm? then ItchFeed
    else if ack.NnfConfirm? then MtbtFeed
    else if ack.SbeConfirm? then SbeFeed
    else McxFeed
  }

  function Apply(y: System, s: Step, a: Account, bps: int): System {
    match s
    case Arrive(tick) => y.(market := y.market + [tick], acquired := y.acquired + 1)
    case Route =>
      if y.market == [] then y
      else (match ReadQuote(y.market[0])
            case None => y.(market := y.market[1..], acquired := Minus1(y.acquired))
            case Some(q) => Emitting(y, q, bps))
    case Consume(f) => Consuming(y, f, a)
    case Answer => Answering(y)
    case Collect =>
      if y.confirms == [] then y
      else y.(confirms := y.confirms[1..], acquired := Minus1(y.acquired), collected := y.collected + 1)
  }

  function Exec(y: System, steps: seq<Step>, a: Account, bps: int): System
    decreases |steps|
  {
    if steps == [] then y else Exec(Apply(y, steps[0], a, bps), steps[1..], a, bps)
  }

  const START: System :=
    var p, c := Producer(0, 1, 0), Consumer(0, 1);
    System([], [], [], [], 0, PerFeed(p, p, p, p), PerFeed(c, c, c, c), NEW_GATEWAY, 0,
           PerFeed([], [], [], []), PerFeed([], [], [], []))

  // ----- Typing and conservation -----

  predicate LiveSignal(m: Message) {
    m.Signal? && m.signal.side != NoSide
  }

  /** The request of a feed. */
  predicate RequestOf(f: Feed, m: Message) {
    match f
    case ItchFeed => m.OuchRequest?
    case MtbtFeed => m.NnfRequest?
    case SbeFeed => m.SbeRequest?
    case McxFeed => m.McxRequest?
  }

  /** How many requests of a feed the gateway has numbered. */
  function Numbered(g: Gateway, f: Feed): int {
    match f
    case ItchFeed => g.ouchRef - 1
    case MtbtFeed => g.nnfOrder - 1
    case SbeFeed => g.sbeSeq - 1
    case McxFeed => g.mcxOrder - 1
  }

  function SignalOf(f: Feed): Message -> bool {
    (m: Message) => m.Signal? && m.signal.feed == f
  }

  function Requests(f: Feed): Message -> bool {
    (m: Message) => RequestOf(f, m)
  }

  ghost predicate Typed(y: System) {
    && (forall m :: m in y.signals ==> LiveSignal(m))
    && (forall m :: m in y.pending ==> m.IsRequest())
    && (forall m :: m in y.confirms ==> m.IsConfirm())
  }

  /** Every slot in use is in exactly one queue; confirmations are counted. */
  ghost predicate Slotted(y: System) {
    && y.acquired == |y.market| + |y.signals| + |y.pending| + |y.confirms|
    && y.gateway.confirms == |y.confirms| + y.collected
    && y.gateway.mcxExec == y.gateway.mcxOrder
    && y.gateway.confirms == Numbered(y.gateway, ItchFeed) + Numbered(y.gateway, MtbtFeed)
                           + Numbered(y.gateway, SbeFeed) + Numbered(y.gateway, McxFeed)
  }

  /** Feed by feed, what was emitted is in the signal queue or was submitted, and what was submitted is
      in the pending queue or was confirmed. */
  ghost predicate Conserved(y: System, f: Feed) {
    && y.producers.Get(f).emitted == Tally(y.signals, SignalOf(f)) + y.consumers.Get(f).submitted
    && y.consumers.Get(f).submitted == Tally(y.pending, Requests(f)) + Numbered(y.gateway, f)
  }

  lemma StepKeepsTyped(y: System, s: Step, a: Account, bps: int)
    requires Typed(y)
    ensures Typed(Apply(y, s, a, bps))
  {
    if s.Answer? && y.pending != [] {
      ConfirmKinds(y.gateway, y.pending[0]);
    }
  }

  lemma StepKeepsSlotted(y: System, s: Step, a: Account, bps: int)
    requires Typed(y) && Slotted(y)
    ensures Slotted(Apply(y, s, a, bps))
  {
  }

  lemma StepKeepsConserved(y: System, s: Step, a: Account, bps: int, f: Feed)
    requires Typed(y) && Conserved(y, f)
    ensures Conserved(Apply(y, s, a, bps), f)
  {
    match s
    case Arrive(_) =>
    case Collect =>
    case Route =>
      if y.market != [] && ReadQuote(y.market[0]).Some? {
        EmitKeepsConserved(y, ReadQuote(y.market[0]).value, bps, f);
      }
    case Consume(g) => ConsumeKeepsConserved(y, g, a, f);
    case Answer => AnswerKeepsConserved(y, f);
  }

  lemma AnswerKeepsConserved(y: System, f: Feed)
    requires Typed(y) && Conserved(y, f)
    ensures Conserved(Answering(y), f)
  {
    if y.pending != [] {
      var m, z := y.pending[0], Answering(y);
      assert m in y.pending && m.IsRequest();
      ConfirmKinds(y.gateway, m);
      assert Numbered(z.gateway, f) == Numbered(y.gateway, f) + if RequestOf(f, m) then 1 else 0;
    }
  }

  lemma EmitKeepsConserved(y: System, q: Quote, bps: int, f: Feed)
    requires Typed(y) && Conserved(y, f) && y.market != []
    ensures Conserved(Emitting(y, q, bps), f)
  {
    var signal := OnTick(y.producers.Get(q.feed), q, bps).1;
    if signal.Some? { TallyAppend(y.signals, Signal(signal.value), SignalOf(f)); }
  }

  lemma ConsumeKeepsConserved(y: System, g: Feed, a: Account, f: Feed)
    requires Typed(y) && Conserved(y, f)
    ensures Conserved(Consuming(y, g, a), f)
  {
    if y.signals != [] {
      var m, rest := y.signals[0], y.signals[1..];
      assert LiveSignal(m);
      TallyAppend(rest, m, SignalOf(f));
      TallyAppend(y.pending, MakeOrder(g, a, y.consumers.Get(g), m.signal), Requests(f));
    }
  }

  // ----- Whole runs -----

  ghost predicate Booked(y: System) {
    Typed(y) && Slotted(y) && forall f :: Conserved(y, f)
  }

  lemma EmptyIsBooked(y: System)
    requires y.market == y.signals == y.pending == y.confirms == [] && y.acquired == y.collected == 0
    requires y.gateway == NEW_GATEWAY
    requires forall f :: y.producers.Get(f).emitted == 0 && y.consumers.Get(f).submitted == 0
    ensures Booked(y)
  {
    forall f ensures Conserved(y, f) {
      assert Numbered(y.gateway, f) == 0;
    }
  }

  lemma StartIsBooked()
    ensures Booked(START)
  {
    var y := START;
    forall f ensures y.producers.Get(f).emitted == 0 && y.consumers.Get(f).submitted == 0 {
      assert y.producers.Get(f) == Producer(0, 1, 0) && y.consumers.Get(f) == Consumer(0, 1);
    }
    EmptyIsBooked(y);
  }

  lemma StepKeepsBooked(y: System, s: Step, a: Account, bps: int)
    requires Booked(y)
    ensures Booked(Apply(y, s, a, bps))
  {
    StepKeepsTyped(y, s, a, bps);
    StepKeepsSlotted(y, s, a, bps);
    forall f ensures Conserved(Apply(y, s, a, bps), f) {
      StepKeepsConserved(y, s, a, bps, f);
    }
  }

  lemma {:induction false} RunKeepsBooked(y: System, steps: seq<Step>, a: Account, bps: int)
    requires Booked(y)
    ensures Booked(Exec(y, steps, a, bps))
    decreases |steps|
  {
    if steps != [] {
      StepKeepsBooked(y, steps[0], a, bps);
      RunKeepsBooked(Apply(y, steps[0], a, bps), steps[1..], a, bps);
    }
  }

  /** The state a run from the start ends in. */
  lemma RunFromStart(steps: seq<Step>, a: Account, bps: int) returns (e: System)
    ensures e == Exec(START, steps, a, bps) && Booked(e)
  {
    StartIsBooked();
    RunKeepsBooked(START, steps, a, bps);
    e := Exec(START, steps, a, bps);
  }

  lemma BookedMeans(e: System, f: Feed)
    requires Booked(e)
    ensures forall m :: m in e.signals ==> m.Signal? && m.signal.side != NoSide
    ensures forall m :: m in e.pending ==> m.IsRequest()
    ensures forall m :: m in e.confirms ==> m.IsConfirm()
    ensures e.producers.Get(f).emitted
         == Tally(e.signals, SignalOf(f)) + Tally(e.pending, Requests(f)) + Numbered(e.gateway, f)
    ensures e.consumers.Get(f).submitted == Tally(e.pending, Requests(f)) + Numbered(e.gateway, f)
    ensures e.gateway.confirms == |e.confirms| + e.collected
    ensures e.acquired == |e.market| + |e.signals| + |e.pending| + |e.confirms|
  {
    assert Conserved(e, f);
  }

  /** MAIN RESULT 14. In every run: the signal queue holds only signals with a side, the pending queue
      only order requests, the confirm queue only confirmations; for every feed the signals emitted are
      those still queued, plus the orders still pending, plus the orders the gateway has numbered; and
      the acquired pool slots are exactly the messages in the four queues: nothing leaks. */
  lemma PipelineConserves(steps: seq<Step>, a: Account, bps: int, f: Feed)
    ensures var e := Exec(START, steps, a, bps);
      && (forall m :: m in e.signals ==> m.Signal? && m.signal.side != NoSide)
      && (forall m :: m in e.pending ==> m.IsRequest())
      && (forall m :: m in e.confirms ==> m.IsConfirm())
      && e.producers.Get(f).emitted
         == Tally(e.signals, SignalOf(f)) + Tally(e.pending, Requests(f)) + Numbered(e.gateway, f)
      && e.consumers.Get(f).submitted == Tally(e.pending, Requests(f)) + Numbered(e.gateway, f)
      && e.gateway.confirms == |e.confirms| + e.collected
      && e.acquired == |e.market| + |e.signals| + |e.pending| + |e.confirms|
  {
    var e := RunFromStart(steps, a, bps);
    BookedMeans(e, f);
  }
}
