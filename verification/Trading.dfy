/** The trading components as objects that share a pool and pass its slots through MPMC queues. Each
    method is proved against a function of `SlotSteps`, and through that against `TradingSteps`. The
    four producer classes differ only in how a tick is read (`ReadQuote`), and the four consumer
    classes only in the order they build (`MakeOrder`); one class with the feed as a constant stands
    for each group. */
module Trading {
  import opened Machine
  import opened Messages
  import opened Ring
  import opened Pool
  import opened TradingSteps
  import opened SlotSteps
  import opened Strategy
  import opened Rotation

  ghost predicate Ready(q: Mpmc)
    reads q, q.ring
  {
    q.Valid() && q.IsFifo()
  }

  /** `try_pop` on a FIFO queue. */
  method Take(q: Mpmc) returns (slot: Option<nat>)
    requires Ready(q)
    modifies q, q.ring
    ensures Ready(q)
    ensures old(q.contents) == [] ==> slot.None? && q.contents == []
    ensures old(q.contents) != [] ==> slot == Some(old(q.contents)[0]) && q.contents == old(q.contents)[1..]
  {
    slot := q.TryPop();
  }

  /** `push` on a FIFO queue with room. */
  method Put(q: Mpmc, slot: nat)
    requires Ready(q) && |q.contents| < q.Capacity()
    modifies q, q.ring
    ensures Ready(q) && q.contents == old(q.contents) + [slot]
  {
    FifoRoom(q.State(), q.contents);
    var _ := q.Push(Some(slot));
  }

  /** Two different queues over one pool. */
  ghost predicate Wired(pool: TaggedPool, from: Mpmc, to: Mpmc)
    reads pool.messages, pool.acquired, from, from.ring, to, to.ring
  {
    && pool.Valid() && Ready(from) && Ready(to) && from != to && from.ring != to.ring
    && (from.contents != [] ==> from.contents[0] < pool.messages.Length)
  }

  ghost function FloorOf(pool: TaggedPool, from: Mpmc, to: Mpmc): Floor
    reads pool.messages, pool.acquired, from, to
  {
    Floor(pool.messages[..], pool.acquired[..], from.contents, to.contents)
  }

  class FeedConsumer {
    const feed: Feed
    const account: Account
    const signalQueue: Mpmc
    const pendingQueue: Mpmc
    const pool: TaggedPool
    var submitted: nat
    var nextSeq: nat

    constructor (f: Feed, a: Account, signals: Mpmc, pending: Mpmc, p: TaggedPool)
      ensures feed == f && account == a && signalQueue == signals && pendingQueue == pending && pool == p
      ensures State() == Consumer(0, 1)
    {
      feed, account, signalQueue, pendingQueue, pool := f, a, signals, pending, p;
      submitted, nextSeq := 0, 1;
    }

    ghost function State(): Consumer
      reads this
    {
      Consumer(submitted, nextSeq)
    }

    /** `poll_once`. The head signal is dropped, put back or rewritten in place as an order and handed
        to the pending queue; the pool, both queues and the counters change exactly as `PollSlots`. */
    method PollOnce()
      requires Wired(pool, signalQueue, pendingQueue)
      requires var f := FloorOf(pool, signalQueue, pendingQueue);
               f.from != [] && Judge(feed, Head(f)).Submit? ==> |f.to| < pendingQueue.Capacity()
      modifies this, pool.messages, pool.acquired, signalQueue, signalQueue.ring, pendingQueue, pendingQueue.ring
      ensures Ready(signalQueue) && Ready(pendingQueue)
      ensures (State(), FloorOf(pool, signalQueue, pendingQueue))
              == PollSlots(feed, account, old(State()), old(FloorOf(pool, signalQueue, pendingQueue)))
    {
      ghost var f := FloorOf(pool, signalQueue, pendingQueue);
      var msg := Take(signalQueue);
      if msg.None? {
        return;
      }
      var m := pool.messages[msg.value];
      if !m.Signal? {
        pool.Release(msg);
        return;
      }
      var signal := m.signal;
      if signal.feed != feed {
        Put(signalQueue, msg.value);
        return;
      }
      if signal.side == NoSide {
        pool.Release(msg);
        return;
      }
      var order := MakeOrder(feed, account, Consumer(submitted, nextSeq), signal);
      pool.messages[msg.value] := order;
      if feed == McxFeed {
        nextSeq := Word(nextSeq + 1);
      }
      Put(pendingQueue, msg.value);
      assert FloorOf(pool, signalQueue, pendingQueue) == Send(f, order);
      submitted := submitted + 1;
      assert State() == Submitted(old(State()), feed) && Judge(feed, Head(f)) == Submit;
    }
  }

  class ExchangeGateway {
    const pendingQueue: Mpmc
    const confirmQueue: Mpmc
    const pool: TaggedPool
    var nextOuchRef: nat
    var nextNnfOrder: nat
    var nextSbeSeq: nat
    var nextMcxOrder: nat
    var nextMcxExec: nat
    var confirms: nat

    constructor (pending: Mpmc, confirmed: Mpmc, p: TaggedPool)
      ensures pendingQueue == pending && confirmQueue == confirmed && pool == p && State() == NEW_GATEWAY
    {
      pendingQueue, confirmQueue, pool := pending, confirmed, p;
      nextOuchRef, nextNnfOrder, nextSbeSeq, nextMcxOrder, nextMcxExec, confirms := 1, 1, 1, 1, 1, 0;
    }

    ghost function State(): Gateway
      reads this
    {
      Gateway(nextOuchRef, nextNnfOrder, nextSbeSeq, nextMcxOrder, nextMcxExec, confirms)
    }

    /** The switch on the request's kind: the confirmation, with its counters bumped, or None. */
    method Number(m: Message) returns (ack: Option<Message>)
      modifies this
      ensures match Confirm(old(State()), m)
              case None => ack.None? && State() == old(State())
              case Some((g, a)) => ack == Some(a) && State() == g.(confirms := old(confirms))
      ensures confirms == old(confirms)
    {
      match m {
        case OuchRequest(o) =>
          var orderRef := nextOuchRef;
          nextOuchRef := nextOuchRef + 1;
          ack := Some(OuchConfirm(OuchAck(FormatOuchToken(o.orderToken), o.side, o.shares, o.stock, o.price,
                                          orderRef)));
        case NnfRequest(o) =>
          var orderNumber := nextNnfOrder;
          nextNnfOrder := nextNnfOrder + 1;
          ack := Some(NnfConfirm(NnfAck(o.transactionId, orderNumber, o.buySell, o.volume, o.price, o.traderId)));
        case SbeRequest(o) =>
          var seqNo := nextSbeSeq;
          nextSbeSeq := nextSbeSeq + 1;
          ack := Some(SbeConfirm(SbeAck(o.side, o.price, o.qty, Int32(o.symbolId), seqNo, EXCHANGE_ID,
                                        Cut(o.orderLinkId, MAX_ID))));
        case McxRequest(o) =>
          var orderId := nextMcxOrder;
          nextMcxOrder := nextMcxOrder + 1;
          var execId := nextMcxExec;
          nextMcxExec := nextMcxExec + 1;
          ack := Some(McxConfirm(McxAck(o.msgSeqNum, orderId, o.clOrdId, o.securityId, execId)));
        case _ =>
          ack := None;
      }
    }

    /** `poll_once`: a request is rewritten in place as its confirmation and handed over; anything else
        gives its slot back. */
    method PollOnce()
      requires Wired(pool, pendingQueue, confirmQueue)
      requires var f := FloorOf(pool, pendingQueue, confirmQueue);
               f.from != [] && Head(f).IsRequest() ==> |f.to| < confirmQueue.Capacity()
      modifies this, pool.messages, pool.acquired, pendingQueue, pendingQueue.ring, confirmQueue, confirmQueue.ring
      ensures Ready(pendingQueue) && Ready(confirmQueue)
      ensures (State(), FloorOf(pool, pendingQueue, confirmQueue))
              == AnswerSlots(old(State()), old(FloorOf(pool, pendingQueue, confirmQueue)))
    {
      ghost var f := FloorOf(pool, pendingQueue, confirmQueue);
      var pending := Take(pendingQueue);
      if pending.None? {
        return;
      }
      ConfirmKinds(State(), pool.messages[pending.value]);
      var ack := Number(pool.messages[pending.value]);
      if ack.None? {
        pool.Release(pending);
        return;
      }
      pool.messages[pending.value] := ack.value;
      Put(confirmQueue, pending.value);
      assert FloorOf(pool, pendingQueue, confirmQueue) == Send(f, ack.value);
      confirms := confirms + 1;
      assert Confirm(old(State()), Head(f)) == Some((State(), ack.value));
    }
  }

  class FeedProducer {
    const feed: Feed
    const bandBps: int
    const signalQueue: Mpmc
    const pool: TaggedPool
    var refPrice: int
    var nextToken: nat
    var emitted: nat

    constructor (f: Feed, bps: int, signals: Mpmc, p: TaggedPool)
      ensures feed == f && bandBps == bps && signalQueue == signals && pool == p && State() == Producer(0, 1, 0)
    {
      feed, bandBps, signalQueue, pool := f, bps, signals, p;
      refPrice, nextToken, emitted := 0, 1, 0;
    }

    ghost function State(): Producer
      reads this
    {
      Producer(refPrice, nextToken, emitted)
    }

    /** `on_tick`. With an owned slot, the slot is freed when there is no signal and carries the signal to
        the queue when there is one. Without, a signal needs a free slot: when there is none the token is
        used up and the signal is lost. */
    method OnTick(q: Quote, owned: Option<nat>)
      requires q.feed == feed
      requires pool.Valid() && Ready(signalQueue)
      requires TradingSteps.OnTick(State(), q, bandBps).1.Some? && (owned.Some? || pool.FreeSlots() > 0)
               ==> |signalQueue.contents| < signalQueue.Capacity()
      requires owned.Some? ==> owned.value < pool.messages.Length
      modifies this, pool.messages, pool.acquired, signalQueue, signalQueue.ring
      ensures Ready(signalQueue)
      ensures var signal := TradingSteps.OnTick(old(State()), q, bandBps).1;
        && (owned.Some? ==>
              (State(), Floor(pool.messages[..], pool.acquired[..], [], signalQueue.contents))
              == TickSlots(old(State()), q, bandBps,
                           Floor(old(pool.messages[..]), old(pool.acquired[..]), [owned.value],
                                 old(signalQueue.contents))))
        && (owned.None? && (signal.None? || old(pool.FreeSlots()) == 0) ==>
              && pool.messages[..] == old(pool.messages[..]) && pool.acquired[..] == old(pool.acquired[..])
              && signalQueue.contents == old(signalQueue.contents)
              && State() == TradingSteps.OnTick(old(State()), q, bandBps).0.(emitted := old(emitted)))
        && (owned.None? && signal.Some? && old(pool.FreeSlots()) > 0 ==>
              && |signalQueue.contents| == |old(signalQueue.contents)| + 1
              && var slot := signalQueue.contents[|old(signalQueue.contents)|];
                 && slot < pool.messages.Length && !old(pool.acquired[slot])
                 && pool.acquired[..] == old(pool.acquired[..])[slot := true]
                 && pool.messages[..] == old(pool.messages[..])[slot := Signal(signal.value)]
                 && signalQueue.contents == old(signalQueue.contents) + [slot]
                 && State() == TradingSteps.OnTick(old(State()), q, bandBps).0)
    {
      assert owned.Some? ==> [owned.value][1..] == [];
      refPrice := UpdateRef(refPrice, q.price);
      var side := Evaluate(refPrice, q.price, bandBps);
      if side == NoSide {
        pool.Release(owned);
        return;
      }
      var signal := StrategySignal(feed, side, q.price, q.quantity, nextToken, q.stock, q.token, q.symbol, q.series);
      nextToken := Word(nextToken + 1);
      var out := owned;
      if out.None? {
        out := pool.Acquire();
        if out.None? {
          return;
        }
      }
      pool.messages[out.value] := Signal(signal);
      Put(signalQueue, out.value);
      emitted := emitted + 1;
    }
  }

  // ----- src/main.cpp -----

  /** The quote `route_market_tick` hands to a producer: the demo has one for ITCH, MTBT and MCX. */
  function Routed(m: Message): Option<Quote> {
    if m.SbeTick? then None else ReadQuote(m)
  }

  /** Exactly the ITCH, MTBT and MCX ticks of the right size are routed, as what their producer reads. */
  lemma RoutedMeans(m: Message)
    ensures Routed(m).Some? <==>
              || (m.ItchTick? && |m.itch| == 36)
              || (m.MtbtTick? && |m.mtbt| == 26)
              || (m.McxTick? && |m.mcx| == 56)
    ensures Routed(m).Some? ==>
              && Routed(m) == ReadQuote(m)
              && Routed(m).value.feed == if m.ItchTick? then ItchFeed else if m.MtbtTick? then MtbtFeed else McxFeed
  {
  }

  /** A message that makes the producer of its feed emit a signal. */
  ghost predicate Emits(m: Message, itch: FeedProducer, mtbt: FeedProducer, mcx: FeedProducer)
    reads itch, mtbt, mcx
  {
    match Routed(m)
    case None => false
    case Some(q) =>
      var p := if q.feed == ItchFeed then itch else if q.feed == MtbtFeed then mtbt else mcx;
      TradingSteps.OnTick(p.State(), q, p.bandBps).1.Some?
  }

  /** A tick handed to the producer of its feed. */
  method RouteMarketTick(msg: Option<nat>, itch: FeedProducer, mtbt: FeedProducer, mcx: FeedProducer, pool: TaggedPool)
    requires itch.feed == ItchFeed && mtbt.feed == MtbtFeed && mcx.feed == McxFeed
    requires itch.pool == mtbt.pool == mcx.pool == pool && pool.Valid()
    requires itch.signalQueue == mtbt.signalQueue == mcx.signalQueue
    requires Ready(itch.signalQueue)
    requires msg.Some? ==> msg.value < pool.messages.Length
    requires msg.Some? && Emits(pool.messages[msg.value], itch, mtbt, mcx)
             ==> |itch.signalQueue.contents| < itch.signalQueue.Capacity()
    modifies itch, mtbt, mcx, pool.messages, pool.acquired, itch.signalQueue, itch.signalQueue.ring
    ensures Ready(itch.signalQueue)
    ensures msg.None? ==>
              && pool.messages[..] == old(pool.messages[..]) && pool.acquired[..] == old(pool.acquired[..])
              && itch.signalQueue.contents == old(itch.signalQueue.contents)
              && itch.State() == old(itch.State()) && mtbt.State() == old(mtbt.State())
              && mcx.State() == old(mcx.State())
    ensures msg.Some? ==>
              var before := Floor(old(pool.messages[..]), old(pool.acquired[..]), [msg.value],
                                  old(itch.signalQueue.contents));
              var after := Floor(pool.messages[..], pool.acquired[..], [], itch.signalQueue.contents);
              match Routed(Head(before))
              case None =>
                && after == Discard(before)
                && itch.State() == old(itch.State()) && mtbt.State() == old(mtbt.State())
                && mcx.State() == old(mcx.State())
              case Some(q) =>
                var p := if q.feed == ItchFeed then itch else if q.feed == MtbtFeed then mtbt else mcx;
                && (p.State(), after) == TickSlots(old(p.State()), q, p.bandBps, before)
                && (p != itch ==> itch.State() == old(itch.State()))
                && (p != mtbt ==> mtbt.State() == old(mtbt.State()))
                && (p != mcx ==> mcx.State() == old(mcx.State()))
  {
    if msg.None? {
      return;
    }
    var m := pool.messages[msg.value];
    var q := ReadQuote(m);
    if m.ItchTick? && q.Some? {
      itch.OnTick(q.value, msg);
      return;
    }
    if m.MtbtTick? && q.Some? {
      mtbt.OnTick(q.value, msg);
      return;
    }
    if m.McxTick? && q.Some? {
      mcx.OnTick(q.value, msg);
      return;
    }
    assert [msg.value][1..] == [];
    pool.Release(msg);
  }

  /** The messages on the two queues; every slot is sound, and there is room for every order. */
  ghost predicate Draining(pool: TaggedPool, signalQueue: Mpmc, pendingQueue: Mpmc,
                           signals: seq<Message>, pending: seq<Message>)
    reads pool.messages, pool.acquired, signalQueue, signalQueue.ring, pendingQueue, pendingQueue.ring
  {
    var f := FloorOf(pool, signalQueue, pendingQueue);
    && Wired(pool, signalQueue, pendingQueue) && Sound(f, [])
    && View(f.messages, f.from) == signals && View(f.messages, f.to) == pending
    && |f.from| + |f.to| <= pendingQueue.Capacity()
  }

  /** One consumer's turn of the round-robin. */
  method TakeTurn(c: FeedConsumer, ghost p: Polled) returns (ghost e: Polled)
    requires Draining(c.pool, c.signalQueue, c.pendingQueue, p.signals, p.pending) && p.c == c.State()
    modifies c, c.pool.messages, c.pool.acquired, c.signalQueue, c.signalQueue.ring, c.pendingQueue, c.pendingQueue.ring
    ensures e == Poll(c.feed, c.account, p)
    ensures Draining(c.pool, c.signalQueue, c.pendingQueue, e.signals, e.pending) && c.State() == e.c
  {
    e := Poll(c.feed, c.account, p);
    PollSlotsRefines(c.feed, c.account, p.c, FloorOf(c.pool, c.signalQueue, c.pendingQueue), []);
    c.PollOnce();
  }

  /** One turn of a crew is a poll of that consumer. */
  lemma TurnIsPoll(a: PerFeed<Account>, t: Crew, feed: Feed, e: Polled)
    requires e == Poll(feed, a.Get(feed), Polled(t.consumers.Get(feed), t.signals, t.pending))
    ensures CrewTurn(a, t, feed) == Crew(t.consumers.Put(feed, e.c), e.signals, e.pending)
  {
  }

  /** The three turns of a round that begins after n polls. */
  ghost predicate RoundTurns(a: PerFeed<Account>, t: Crew, u: Crew, v: Crew, e: Crew) {
    u == CrewTurn(a, t, ItchFeed) && v == CrewTurn(a, u, MtbtFeed) && e == CrewTurn(a, v, McxFeed)
  }

  lemma TurnOf(a: PerFeed<Account>, t: Crew, n: nat, feed: Feed, u: Crew) returns (e: Crew)
    requires AtTurn(n) == feed && u == CrewAfter(a, t, n)
    ensures e == CrewTurn(a, u, feed) == CrewAfter(a, t, n + 1)
  {
    e := CrewTurn(a, u, feed);
    NextTurn(a, t, n);
  }

  lemma TurnsOfRound(i: nat, n: nat)
    requires n == 3 * i
    ensures AtTurn(n) == ItchFeed && AtTurn(n + 1) == MtbtFeed && AtTurn(n + 2) == McxFeed
  {
    ModUnique(n, 3, i, 0);
    ModUnique(n + 1, 3, i, 1);
    ModUnique(n + 2, 3, i, 2);
  }

  lemma OneRound(a: PerFeed<Account>, t: Crew, n: nat, now: Crew) returns (u: Crew, v: Crew, e: Crew)
    requires now == CrewAfter(a, t, n)
    requires AtTurn(n) == ItchFeed && AtTurn(n + 1) == MtbtFeed && AtTurn(n + 2) == McxFeed
    ensures RoundTurns(a, now, u, v, e) && e == CrewAfter(a, t, n + 3)
  {
    u := TurnOf(a, t, n, ItchFeed, now);
    v := TurnOf(a, t, n + 1, MtbtFeed, u);
    e := TurnOf(a, t, n + 2, McxFeed, v);
  }

  /** Three consumers of one signal queue, one pending queue and one pool. */
  predicate Together(ouch: FeedConsumer, nnf: FeedConsumer, mcx: FeedConsumer) {
    && ouch.feed == ItchFeed && nnf.feed == MtbtFeed && mcx.feed == McxFeed
    && ouch.pool == nnf.pool == mcx.pool && ouch.signalQueue == nnf.signalQueue == mcx.signalQueue
    && ouch.pendingQueue == nnf.pendingQueue == mcx.pendingQueue
  }

  predicate AccountsOf(ouch: FeedConsumer, nnf: FeedConsumer, mcx: FeedConsumer, a: PerFeed<Account>) {
    a.itch == ouch.account && a.mtbt == nnf.account && a.mcx == mcx.account
  }

  ghost predicate DrainState(ouch: FeedConsumer, nnf: FeedConsumer, mcx: FeedConsumer, t: Crew)
    reads ouch, nnf, mcx, ouch.pool.messages, ouch.pool.acquired
    reads ouch.signalQueue, ouch.signalQueue.ring, ouch.pendingQueue, ouch.pendingQueue.ring
  {
    && Draining(ouch.pool, ouch.signalQueue, ouch.pendingQueue, t.signals, t.pending)
    && ouch.State() == t.consumers.itch && nnf.State() == t.consumers.mtbt && mcx.State() == t.consumers.mcx
  }

  /** One round of `drain_signals`. */
  method DrainRound(ouch: FeedConsumer, nnf: FeedConsumer, mcx: FeedConsumer, ghost a: PerFeed<Account>,
                    ghost t: Crew, ghost u: Crew, ghost v: Crew, ghost e: Crew)
    requires Together(ouch, nnf, mcx) && AccountsOf(ouch, nnf, mcx, a)
    requires DrainState(ouch, nnf, mcx, t) && RoundTurns(a, t, u, v, e)
    modifies ouch, nnf, mcx, ouch.pool.messages, ouch.pool.acquired
    modifies ouch.signalQueue, ouch.signalQueue.ring, ouch.pendingQueue, ouch.pendingQueue.ring
    ensures DrainState(ouch, nnf, mcx, e)
  {
    ghost var p := TakeTurn(ouch, Polled(t.consumers.itch, t.signals, t.pending));
    TurnIsPoll(a, t, ItchFeed, p);
    p := TakeTurn(nnf, Polled(u.consumers.mtbt, u.signals, u.pending));
    TurnIsPoll(a, u, MtbtFeed, p);
    p := TakeTurn(mcx, Polled(v.consumers.mcx, v.signals, v.pending));
    TurnIsPoll(a, v, McxFeed, p);
  }

  /** `drain_signals`: queues, pool and counters after `rounds` rounds are those of the round-robin the
      results of `Rotation` are about. So the signal queue is empty or stuck once there were enough
      rounds (`DrainingEnds`), and what has left it has arrived (`TakenSignalsArrive`). */
  method DrainSignals(ouch: FeedConsumer, nnf: FeedConsumer, mcx: FeedConsumer, rounds: nat,
                      ghost a: PerFeed<Account>, ghost t: Crew) returns (ghost e: Crew)
    requires Together(ouch, nnf, mcx) && AccountsOf(ouch, nnf, mcx, a) && DrainState(ouch, nnf, mcx, t)
    modifies ouch, nnf, mcx, ouch.pool.messages, ouch.pool.acquired
    modifies ouch.signalQueue, ouch.signalQueue.ring, ouch.pendingQueue, ouch.pendingQueue.ring
    ensures DrainState(ouch, nnf, mcx, e)
    ensures e == CrewAfter(a, t, 3 * rounds) && e.signals == Drained(t.signals, 0, 3 * rounds)
  {
    e := t;
    ghost var n := 0;
    for i := 0 to rounds
      invariant DrainState(ouch, nnf, mcx, e) && n == 3 * i && e == CrewAfter(a, t, n)
    {
      TurnsOfRound(i, n);
      ghost var u, v, w := OneRound(a, t, n, e);
      DrainRound(ouch, nnf, mcx, a, e, u, v, w);
      e, n := w, n + 3;
    }
    CrewDrains(a, t, n);
  }
}
