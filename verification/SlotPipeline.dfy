/** The trading pipeline on pool slots: the same steps as `Pipeline`, with a real pool and four queues of
    slots. */
module SlotPipeline {
  import opened Machine
  import opened Counting
  import opened Messages
  import opened Pool
  import opened TradingSteps
  import opened SlotSteps
  import opened Pipeline

  datatype Slots = Slots(
    messages: seq<Message>, acquired: seq<bool>,
    market: seq<nat>, signals: seq<nat>, pending: seq<nat>, confirms: seq<nat>,
    producers: PerFeed<Producer>, consumers: PerFeed<Consumer>, gateway: Gateway,
    collected: nat,
    emitted: PerFeed<seq<StrategySignal>>, answered: PerFeed<seq<Message>>)

  /** The slot `acquire` finds. */
  function FirstFree(acquired: seq<bool>): (slot: Option<nat>)
    ensures slot.None? <==> forall i :: 0 <= i < |acquired| ==> acquired[i]
    ensures slot.Some? ==> slot.value < |acquired| && !acquired[slot.value]
    ensures slot.Some? ==> forall i :: 0 <= i < slot.value ==> acquired[i]
  {
    if acquired == [] then None
    else if !acquired[0] then Some(0)
    else match FirstFree(acquired[1..]) case None => None case Some(i) => Some(i + 1)
  }

  // ----- One place for every slot -----

  ghost predicate Covers(acquired: seq<bool>, a: seq<nat>, b: seq<nat>, c: seq<nat>, d: seq<nat>) {
    forall x :: 0 <= x < |acquired| && acquired[x] ==> x in a || x in b || x in c || x in d
  }

  /** Every slot in one of four queues is acquired and stands in one place only, and every acquired slot
      stands in one of them. */
  ghost predicate Partition(acquired: seq<bool>, a: seq<nat>, b: seq<nat>, c: seq<nat>, d: seq<nat>) {
    && Held(acquired, a) && Held(acquired, b) && Held(acquired, c) && Held(acquired, d)
    && Apart(a, b) && Apart(a, c) && Apart(a, d) && Apart(b, c) && Apart(b, d) && Apart(c, d)
    && Covers(acquired, a, b, c, d)
  }

  ghost predicate Tidy(z: Slots) {
    |z.messages| == |z.acquired| && Partition(z.acquired, z.market, z.signals, z.pending, z.confirms)
  }

  // ----- The steps -----

  function Front(z: Slots): Floor { Floor(z.messages, z.acquired, z.market, z.signals) }
  function Middle(z: Slots): Floor { Floor(z.messages, z.acquired, z.signals, z.pending) }
  function Back(z: Slots): Floor { Floor(z.messages, z.acquired, z.pending, z.confirms) }
  function Last(z: Slots): Floor { Floor(z.messages, z.acquired, z.confirms, []) }

  /** The head of a queue names a slot. */
  predicate Headed(f: Floor) {
    f.from != [] ==> f.from[0] < |f.messages| == |f.acquired|
  }

  function Arriving(z: Slots, tick: Message): Slots
    requires |z.messages| == |z.acquired|
  {
    match FirstFree(z.acquired)
    case None => z
    case Some(x) =>
      z.(messages := z.messages[x := tick], acquired := z.acquired[x := true], market := z.market + [x])
  }

  function Routing(z: Slots, bps: int): Slots
    requires Headed(Front(z))
  {
    if z.market == [] then z
    else match ReadQuote(Head(Front(z)))
      case None =>
        var g := Discard(Front(z));
        z.(acquired := g.acquired, market := g.from)
      case Some(q) =>
        var (p, g) := TickSlots(z.producers.Get(q.feed), q, bps, Front(z));
        var signal := OnTick(z.producers.Get(q.feed), q, bps).1;
        z.(messages := g.messages, acquired := g.acquired, market := g.from, signals := g.to,
           producers := z.producers.Put(q.feed, p),
           emitted := if signal.Some? then z.emitted.Put(q.feed, z.emitted.Get(q.feed) + [signal.value]) else z.emitted)
  }

  function Polling(z: Slots, f: Feed, a: Account): Slots
    requires Headed(Middle(z))
  {
    var (c, g) := PollSlots(f, a, z.consumers.Get(f), Middle(z));
    z.(messages := g.messages, acquired := g.acquired, signals := g.from, pending := g.to,
       consumers := z.consumers.Put(f, c))
  }

  function Confirming(z: Slots): Slots
    requires Headed(Back(z))
  {
    var (gw, g) := AnswerSlots(z.gateway, Back(z));
    z.(messages := g.messages, acquired := g.acquired, pending := g.from, confirms := g.to, gateway := gw,
       answered := if z.pending == [] then z.answered
                   else match Confirm(z.gateway, Head(Back(z)))
                     case None => z.answered
                     case Some((_, ack)) => z.answered.Put(AckFeed(ack), z.answered.Get(AckFeed(ack)) + [ack]))
  }

  function Collecting(z: Slots): Slots
    requires Headed(Last(z))
  {
    if z.confirms == [] then z
    else
      var g := Discard(Last(z));
      z.(acquired := g.acquired, confirms := g.from, collected := z.collected + 1)
  }

  function Stepped(z: Slots, s: Step, a: Account, bps: int): Slots
    requires Tidy(z)
  {
    match s
    case Arrive(tick) => Arriving(z, tick)
    case Route => Routing(z, bps)
    case Consume(f) => Polling(z, f, a)
    case Answer => Confirming(z)
    case Collect => Collecting(z)
  }

  // ----- As messages -----

  function Used(acquired: seq<bool>): nat {
    |acquired| - Tally(acquired, FREE)
  }

  /** The system of messages a system of slots stands for. */
  ghost function Values(z: Slots): System
    requires Tidy(z)
  {
    System(View(z.messages, z.market), View(z.messages, z.signals),
           View(z.messages, z.pending), View(z.messages, z.confirms),
           Used(z.acquired), z.producers, z.consumers, z.gateway, z.collected, z.emitted, z.answered)
  }

  // ----- One step keeps every slot in one place -----

  lemma DiscardCovers(f: Floor, c: seq<nat>, d: seq<nat>)
    requires f.from != [] && f.from[0] < |f.acquired| && Covers(f.acquired, f.from, f.to, c, d)
    ensures var g := Discard(f); Covers(g.acquired, g.from, g.to, c, d)
  {
    assert f.from == [f.from[0]] + f.from[1..];
  }

  lemma PutBackCovers(f: Floor, c: seq<nat>, d: seq<nat>)
    requires f.from != [] && Covers(f.acquired, f.from, f.to, c, d)
    ensures var g := PutBack(f); Covers(g.acquired, g.from, g.to, c, d)
  {
    assert f.from == [f.from[0]] + f.from[1..];
  }

  lemma SendCovers(f: Floor, m: Message, c: seq<nat>, d: seq<nat>)
    requires f.from != [] && f.from[0] < |f.messages| && Covers(f.acquired, f.from, f.to, c, d)
    ensures var g := Send(f, m); Covers(g.acquired, g.from, g.to, c, d)
  {
    assert f.from == [f.from[0]] + f.from[1..];
  }

  /** What a stage sees of a partition, and back. */
  lemma PartitionIsSound(f: Floor, c: seq<nat>, d: seq<nat>)
    requires |f.messages| == |f.acquired|
    ensures Partition(f.acquired, f.from, f.to, c, d) <==>
              Sound(f, c) && Sound(f, d) && Apart(c, d) && Covers(f.acquired, f.from, f.to, c, d)
  {
  }

  /** The order in which the queues are named does not matter. */
  lemma PartitionTurns(acquired: seq<bool>, a: seq<nat>, b: seq<nat>, c: seq<nat>, d: seq<nat>)
    ensures Partition(acquired, a, b, c, d) <==> Partition(acquired, b, c, d, a)
  {
  }

  /** A stage keeps the partition, and the two queues it does not touch show nothing. */
  ghost predicate Kept(f: Floor, g: Floor, c: seq<nat>, d: seq<nat>) {
    && |g.messages| == |g.acquired| == |f.acquired| == |f.messages|
    && Partition(f.acquired, f.from, f.to, c, d) && Partition(g.acquired, g.from, g.to, c, d)
    && View(g.messages, c) == View(f.messages, c) && View(g.messages, d) == View(f.messages, d)
  }

  lemma DiscardKeeps(f: Floor, c: seq<nat>, d: seq<nat>)
    requires |f.messages| == |f.acquired| && Partition(f.acquired, f.from, f.to, c, d) && f.from != []
    ensures Kept(f, Discard(f), c, d)
  {
    PartitionIsSound(f, c, d);
    DiscardOnValues(f, c);
    DiscardOnValues(f, d);
    DiscardCovers(f, c, d);
    PartitionIsSound(Discard(f), c, d);
  }

  lemma TickKeeps(p: Producer, q: Quote, bps: int, f: Floor, c: seq<nat>, d: seq<nat>)
    requires |f.messages| == |f.acquired| && Partition(f.acquired, f.from, f.to, c, d) && f.from != []
    ensures Kept(f, TickSlots(p, q, bps, f).1, c, d)
  {
    PartitionIsSound(f, c, d);
    TickSlotsRefines(p, q, bps, f, c);
    TickSlotsRefines(p, q, bps, f, d);
    var signal := OnTick(p, q, bps).1;
    if signal.None? { DiscardCovers(f, c, d); } else { SendCovers(f, Signal(signal.value), c, d); }
    PartitionIsSound(TickSlots(p, q, bps, f).1, c, d);
  }

  lemma PollKeeps(feed: Feed, a: Account, k: Consumer, f: Floor, c: seq<nat>, d: seq<nat>)
    requires |f.messages| == |f.acquired| && Partition(f.acquired, f.from, f.to, c, d)
    ensures Kept(f, PollSlots(feed, a, k, f).1, c, d)
  {
    PartitionIsSound(f, c, d);
    PollSlotsRefines(feed, a, k, f, c);
    PollSlotsRefines(feed, a, k, f, d);
    if f.from != [] {
      if Judge(feed, Head(f)).Drop? {
        DiscardCovers(f, c, d);
      } else if Judge(feed, Head(f)).Rotate? {
        PutBackCovers(f, c, d);
      } else {
        SendCovers(f, MakeOrder(feed, a, k, Head(f).signal), c, d);
      }
    }
    PartitionIsSound(PollSlots(feed, a, k, f).1, c, d);
  }

  lemma AnswerKeeps(gw: Gateway, f: Floor, c: seq<nat>, d: seq<nat>)
    requires |f.messages| == |f.acquired| && Partition(f.acquired, f.from, f.to, c, d)
    ensures Kept(f, AnswerSlots(gw, f).1, c, d)
  {
    PartitionIsSound(f, c, d);
    AnswerSlotsRefines(gw, f, c);
    AnswerSlotsRefines(gw, f, d);
    if f.from != [] {
      if Confirm(gw, Head(f)).None? {
        DiscardCovers(f, c, d);
      } else {
        SendCovers(f, Confirm(gw, Head(f)).value.1, c, d);
      }
    }
    PartitionIsSound(AnswerSlots(gw, f).1, c, d);
  }

  // ----- One step is the step on messages -----

  /** A tick arrives exactly when a slot is free for it. */
  predicate Effective(z: Slots, s: Step) {
    s.Arrive? ==> FirstFree(z.acquired).Some?
  }

  lemma ArriveRefines(z: Slots, tick: Message, a: Account, bps: int)
    requires Tidy(z) && FirstFree(z.acquired).Some?
    ensures Tidy(Arriving(z, tick)) && Values(Arriving(z, tick)) == Apply(Values(z), Arrive(tick), a, bps)
  {
    var x := FirstFree(z.acquired).value;
    var w := Arriving(z, tick);
    TallyUpdate(z.acquired, x, true, FREE);
    ViewIgnores(z.messages, z.market, x, tick);
    ViewIgnores(z.messages, z.signals, x, tick);
    ViewIgnores(z.messages, z.pending, x, tick);
    ViewIgnores(z.messages, z.confirms, x, tick);
    ArriveCovers(z, x);
    ViewAppends(w.messages, z.market, x);
  }

  lemma ArriveCovers(z: Slots, x: nat)
    requires Tidy(z) && x < |z.acquired| && !z.acquired[x]
    ensures Partition(z.acquired[x := true], z.market + [x], z.signals, z.pending, z.confirms)
  {
    FreshHeld(z.acquired, z.market, x);
    FreshHeld(z.acquired, z.signals, x);
    FreshHeld(z.acquired, z.pending, x);
    FreshHeld(z.acquired, z.confirms, x);
    FreshApart(z.acquired, z.market, z.signals, x);
    FreshApart(z.acquired, z.market, z.pending, x);
    FreshApart(z.acquired, z.market, z.confirms, x);
    assert Covers(z.acquired[x := true], z.market + [x], z.signals, z.pending, z.confirms);
  }

  /** A free slot that is acquired stands in no queue yet, and can be added to one. */
  lemma FreshHeld(acquired: seq<bool>, a: seq<nat>, x: nat)
    requires Held(acquired, a) && x < |acquired| && !acquired[x]
    ensures Held(acquired[x := true], a) && Held(acquired[x := true], a + [x])
  {
  }

  lemma FreshApart(acquired: seq<bool>, a: seq<nat>, b: seq<nat>, x: nat)
    requires Held(acquired, b) && Apart(a, b) && x < |acquired| && !acquired[x]
    ensures Apart(a + [x], b)
  {
  }

  lemma RouteRefines(z: Slots, a: Account, bps: int)
    requires Tidy(z)
    ensures Tidy(Routing(z, bps)) && Values(Routing(z, bps)) == Apply(Values(z), Route, a, bps)
  {
    if z.market != [] {
      var f := Front(z);
      assert View(z.messages, z.market)[0] == Head(f);
      if ReadQuote(Head(f)).None? {
        DiscardKeeps(f, z.pending, z.confirms);
        PartitionIsSound(f, z.pending, z.confirms);
        DiscardOnValues(f, z.pending);
      } else {
        var q := ReadQuote(Head(f)).value;
        TickKeeps(z.producers.Get(q.feed), q, bps, f, z.pending, z.confirms);
        PartitionIsSound(f, z.pending, z.confirms);
        TickSlotsRefines(z.producers.Get(q.feed), q, bps, f, z.pending);
      }
    }
  }

  lemma ConsumeRefines(z: Slots, feed: Feed, a: Account)
    requires Tidy(z)
    ensures Tidy(Polling(z, feed, a)) && Values(Polling(z, feed, a)) == Consuming(Values(z), feed, a)
  {
    var f, w := Middle(z), Polling(z, feed, a);
    PartitionTurns(z.acquired, z.market, z.signals, z.pending, z.confirms);
    PollKeeps(feed, a, z.consumers.Get(feed), f, z.confirms, z.market);
    PartitionIsSound(f, z.confirms, z.market);
    PollSlotsRefines(feed, a, z.consumers.Get(feed), f, z.market);
    PartitionTurns(w.acquired, w.market, w.signals, w.pending, w.confirms);
    if z.signals != [] { assert View(z.messages, z.signals)[0] == Head(f); }
  }

  lemma AnswerRefines(z: Slots)
    requires Tidy(z)
    ensures Tidy(Confirming(z)) && Values(Confirming(z)) == Answering(Values(z))
  {
    var f, w := Back(z), Confirming(z);
    PartitionTurns(z.acquired, z.market, z.signals, z.pending, z.confirms);
    PartitionTurns(z.acquired, z.signals, z.pending, z.confirms, z.market);
    AnswerKeeps(z.gateway, f, z.market, z.signals);
    PartitionIsSound(f, z.market, z.signals);
    AnswerSlotsRefines(z.gateway, f, z.market);
    PartitionTurns(w.acquired, w.signals, w.pending, w.confirms, w.market);
    PartitionTurns(w.acquired, w.market, w.signals, w.pending, w.confirms);
    if z.pending != [] { assert View(z.messages, z.pending)[0] == Head(f); }
  }

  lemma CollectRefines(z: Slots, a: Account, bps: int)
    requires Tidy(z)
    ensures Tidy(Collecting(z)) && Values(Collecting(z)) == Apply(Values(z), Collect, a, bps)
  {
    if z.confirms != [] {
      var f, w := Floor(z.messages, z.acquired, z.confirms, z.market), Collecting(z);
      PartitionTurns(z.acquired, z.market, z.signals, z.pending, z.confirms);
      PartitionTurns(z.acquired, z.signals, z.pending, z.confirms, z.market);
      PartitionTurns(z.acquired, z.pending, z.confirms, z.market, z.signals);
      DiscardKeeps(f, z.signals, z.pending);
      PartitionIsSound(f, z.signals, z.pending);
      DiscardOnValues(f, z.signals);
      PartitionTurns(w.acquired, w.pending, w.confirms, w.market, w.signals);
      PartitionTurns(w.acquired, w.signals, w.pending, w.confirms, w.market);
      PartitionTurns(w.acquired, w.market, w.signals, w.pending, w.confirms);
    }
  }

  lemma StepRefines(z: Slots, s: Step, a: Account, bps: int)
    requires Tidy(z)
    ensures Tidy(Stepped(z, s, a, bps)) && |Stepped(z, s, a, bps).acquired| == |z.acquired|
    ensures Effective(z, s) ==> Values(Stepped(z, s, a, bps)) == Apply(Values(z), s, a, bps)
    ensures !Effective(z, s) ==> Stepped(z, s, a, bps) == z
  {
    if s.Arrive? {
      if Effective(z, s) { ArriveRefines(z, s.tick, a, bps); }
    } else if s.Route? {
      RouteRefines(z, a, bps);
    } else if s.Consume? {
      ConsumeRefines(z, s.feed, a);
    } else if s.Answer? {
      AnswerRefines(z);
    } else {
      CollectRefines(z, a, bps);
    }
  }

  // ----- Whole runs -----

  function Run(z: Slots, steps: seq<Step>, a: Account, bps: int): (e: Slots)
    requires Tidy(z)
    ensures Tidy(e) && |e.acquired| == |z.acquired|
    decreases |steps|
  {
    if steps == [] then z
    else
      StepRefines(z, steps[0], a, bps);
      Run(Stepped(z, steps[0], a, bps), steps[1..], a, bps)
  }

  /** The steps of a run without the arrivals that found no slot. */
  function Taken(z: Slots, steps: seq<Step>, a: Account, bps: int): seq<Step>
    requires Tidy(z)
    decreases |steps|
  {
    if steps == [] then []
    else
      StepRefines(z, steps[0], a, bps);
      (if Effective(z, steps[0]) then [steps[0]] else []) + Taken(Stepped(z, steps[0], a, bps), steps[1..], a, bps)
  }

  lemma ExecFirst(y: System, s: Step, rest: seq<Step>, a: Account, bps: int)
    ensures Exec(y, [s] + rest, a, bps) == Exec(Apply(y, s, a, bps), rest, a, bps)
  {
    assert ([s] + rest)[1..] == rest;
  }

  lemma RunFirst(z: Slots, steps: seq<Step>, a: Account, bps: int)
    requires Tidy(z) && steps != []
    ensures Tidy(Stepped(z, steps[0], a, bps))
    ensures var next := Stepped(z, steps[0], a, bps);
      && Run(z, steps, a, bps) == Run(next, steps[1..], a, bps)
      && Taken(z, steps, a, bps)
         == if Effective(z, steps[0]) then [steps[0]] + Taken(next, steps[1..], a, bps)
            else Taken(next, steps[1..], a, bps)
  {
    StepRefines(z, steps[0], a, bps);
  }

  lemma {:induction false} RunRefines(z: Slots, steps: seq<Step>, a: Account, bps: int)
    requires Tidy(z)
    ensures Values(Run(z, steps, a, bps)) == Exec(Values(z), Taken(z, steps, a, bps), a, bps)
    decreases |steps|
  {
    if steps != [] {
      RunFirst(z, steps, a, bps);
      var next := Stepped(z, steps[0], a, bps);
      RunRefines(next, steps[1..], a, bps);
      OneRefinedStep(z, steps[0], Taken(next, steps[1..], a, bps), a, bps);
    }
  }

  lemma OneRefinedStep(z: Slots, s: Step, rest: seq<Step>, a: Account, bps: int)
    requires Tidy(z)
    ensures Tidy(Stepped(z, s, a, bps))
    ensures Exec(Values(Stepped(z, s, a, bps)), rest, a, bps)
         == Exec(Values(z), if Effective(z, s) then [s] + rest else rest, a, bps)
  {
    StepRefines(z, s, a, bps);
    if Effective(z, s) { ExecFirst(Values(z), s, rest, a, bps); }
  }

  /** A new pool of the given size and empty queues. */
  function NewSlots(poolCap: nat): (z: Slots)
    ensures Tidy(z) && |z.acquired| == poolCap
  {
    Slots(seq(poolCap, _ => CLEARED), seq(poolCap, _ => false), [], [], [], [],
          START.producers, START.consumers, START.gateway, START.collected, START.emitted, START.answered)
  }

  lemma NewSlotsAreStart(poolCap: nat)
    ensures Values(NewSlots(poolCap)) == START
  {
    AllFree(NewSlots(poolCap).acquired);
  }

  lemma {:induction false} AllFree(acquired: seq<bool>)
    requires forall i :: 0 <= i < |acquired| ==> !acquired[i]
    ensures Tally(acquired, FREE) == |acquired|
  {
    if acquired != [] { AllFree(acquired[1..]); }
  }

  /** How often a slot stands in the four queues. */
  function Standing(z: Slots, x: nat): nat {
    Count(z.market, x) + Count(z.signals, x) + Count(z.pending, x) + Count(z.confirms, x)
  }

  function Count(xs: seq<nat>, x: nat): nat {
    multiset(xs)[x]
  }

  lemma {:induction false} CountDistinct(acquired: seq<bool>, xs: seq<nat>, x: nat)
    requires Held(acquired, xs)
    ensures Count(xs, x) == if x in xs then 1 else 0
    decreases |xs|
  {
    if xs != [] {
      assert xs == [xs[0]] + xs[1..];
      CountDistinct(acquired, xs[1..], x);
    }
  }

  /** MAIN RESULT 23. In every run on a pool of any size: a slot is acquired exactly when it stands in
      exactly one of the four queues, and in no other way is it in any; and the run, seen through the
      messages in the slots, is the run of `Pipeline` without the ticks that found the pool full. */
  lemma SlotsRefinePipeline(poolCap: nat, steps: seq<Step>, a: Account, bps: int, x: nat)
    requires x < poolCap
    ensures var z := NewSlots(poolCap);
            var e := Run(z, steps, a, bps);
      && Standing(e, x) == (if e.acquired[x] then 1 else 0)
      && Values(e) == Exec(START, Taken(z, steps, a, bps), a, bps)
  {
    var z := NewSlots(poolCap);
    var e := Run(z, steps, a, bps);
    NewSlotsAreStart(poolCap);
    RunRefines(z, steps, a, bps);
    CountDistinct(e.acquired, e.market, x);
    CountDistinct(e.acquired, e.signals, x);
    CountDistinct(e.acquired, e.pending, x);
    CountDistinct(e.acquired, e.confirms, x);
  }

  /** So the counts of `PipelineConserves` are counts of the pool's slots: as many are acquired as stand in
      the four queues, in every run. */
  lemma AcquiredSlotsAreQueued(poolCap: nat, steps: seq<Step>, a: Account, bps: int)
    ensures var e := Run(NewSlots(poolCap), steps, a, bps);
      Used(e.acquired) == |e.market| + |e.signals| + |e.pending| + |e.confirms|
  {
    var z := NewSlots(poolCap);
    NewSlotsAreStart(poolCap);
    RunRefines(z, steps, a, bps);
    PipelineConserves(Taken(z, steps, a, bps), a, bps, ItchFeed);
  }
}
