/** The trading steps on pool slots. A stage takes the head of one queue of slots and frees the slot,
    puts it back at the tail, or rewrites its message in place and hands the slot to the next queue.
    Each such step, seen through the messages the slots hold, is the step on queues of messages of
    `TradingSteps`; it keeps every slot in exactly one place and shows in no other queue. */
module SlotSteps {
  import opened Counting
  import opened Messages
  import opened Pool
  import opened TradingSteps

  /** The pool, the queue a stage takes from, and the queue it hands over to. */
  datatype Floor = Floor(messages: seq<Message>, acquired: seq<bool>, from: seq<nat>, to: seq<nat>)

  /** Every slot of the two queues, and of any others that share the pool, is acquired and is in one
      place only. */
  ghost predicate Sound(f: Floor, others: seq<nat>) {
    && |f.messages| == |f.acquired|
    && Held(f.acquired, f.from) && Held(f.acquired, f.to) && Held(f.acquired, others)
    && Apart(f.from, f.to) && Apart(f.from, others) && Apart(f.to, others)
  }

  ghost predicate Apart(xs: seq<nat>, ys: seq<nat>) {
    forall i, j :: 0 <= i < |xs| && 0 <= j < |ys| ==> xs[i] != ys[j]
  }

  function Discard(f: Floor): Floor
    requires f.from != [] && f.from[0] < |f.acquired|
  {
    f.(acquired := f.acquired[f.from[0] := false], from := f.from[1..])
  }

  function PutBack(f: Floor): Floor
    requires f.from != []
  {
    f.(from := f.from[1..] + [f.from[0]])
  }

  function Send(f: Floor, m: Message): Floor
    requires f.from != [] && f.from[0] < |f.messages|
  {
    f.(messages := f.messages[f.from[0] := m], from := f.from[1..], to := f.to + [f.from[0]])
  }

  function Head(f: Floor): Message
    requires f.from != [] && f.from[0] < |f.messages|
  {
    f.messages[f.from[0]]
  }

  lemma DiscardOnValues(f: Floor, others: seq<nat>)
    requires Sound(f, others) && f.from != []
    ensures Sound(Discard(f), others)
    ensures var g := Discard(f);
      && View(g.messages, g.from) == View(f.messages, f.from)[1..] && View(g.messages, g.to) == View(f.messages, f.to)
      && Tally(g.acquired, FREE) == Tally(f.acquired, FREE) + 1
  {
    TallyUpdate(f.acquired, f.from[0], false, FREE);
  }

  lemma PutBackOnValues(f: Floor, others: seq<nat>)
    requires Sound(f, others) && f.from != []
    ensures Sound(PutBack(f), others)
    ensures View(f.messages, PutBack(f).from) == View(f.messages, f.from)[1..] + [Head(f)]
  {
  }

  lemma SendKeepsSound(f: Floor, m: Message, others: seq<nat>)
    requires Sound(f, others) && f.from != []
    ensures Sound(Send(f, m), others)
  {
  }

  lemma SendOnValues(f: Floor, m: Message, others: seq<nat>)
    requires Sound(f, others) && f.from != []
    ensures Sound(Send(f, m), others)
    ensures var g := Send(f, m);
      && View(g.messages, g.from) == View(f.messages, f.from)[1..]
      && View(g.messages, g.to) == View(f.messages, f.to) + [m]
      && View(g.messages, others) == View(f.messages, others)
  {
    var x := f.from[0];
    SendKeepsSound(f, m, others);
    ViewIgnores(f.messages, f.from[1..], x, m);
    ViewIgnores(f.messages, f.to, x, m);
    ViewIgnores(f.messages, others, x, m);
    ViewAppends(f.messages[x := m], f.to, x);
    assert View(f.messages, f.from)[1..] == View(f.messages, f.from[1..]);
  }

  // ----- The three stages -----

  function TickSlots(p: Producer, q: Quote, bps: int, f: Floor): (Producer, Floor)
    requires f.from != [] && f.from[0] < |f.messages| == |f.acquired|
  {
    match OnTick(p, q, bps)
    case (p', None) => (p', Discard(f))
    case (p', Some(s)) => (p', Send(f, Signal(s)))
  }

  function PollSlots(feed: Feed, a: Account, c: Consumer, f: Floor): (Consumer, Floor)
    requires f.from != [] ==> f.from[0] < |f.messages| == |f.acquired|
  {
    if f.from == [] then (c, f)
    else match Judge(feed, Head(f))
      case Drop => (c, Discard(f))
      case Rotate => (c, PutBack(f))
      case Submit => (Submitted(c, feed), Send(f, MakeOrder(feed, a, c, Head(f).signal)))
  }

  function AnswerSlots(g: Gateway, f: Floor): (Gateway, Floor)
    requires f.from != [] ==> f.from[0] < |f.messages| == |f.acquired|
  {
    if f.from == [] then (g, f)
    else match Confirm(g, Head(f))
      case None => (g, Discard(f))
      case Some((g', ack)) => (g', Send(f, ack))
  }

  /** A consumer's poll on slots is `Poll` on the messages; the pool gains a slot exactly when the
      message is dropped. */
  lemma PollSlotsRefines(feed: Feed, a: Account, c: Consumer, f: Floor, others: seq<nat>)
    requires Sound(f, others)
    ensures var (c', g) := PollSlots(feed, a, c, f);
      && Sound(g, others) && View(g.messages, others) == View(f.messages, others)
      && Poll(feed, a, Polled(c, View(f.messages, f.from), View(f.messages, f.to)))
         == Polled(c', View(g.messages, g.from), View(g.messages, g.to))
      && Tally(g.acquired, FREE)
         == Tally(f.acquired, FREE) + (if f.from != [] && Judge(feed, Head(f)).Drop? then 1 else 0)
  {
    if f.from != [] {
      assert View(f.messages, f.from)[0] == Head(f);
      if Judge(feed, Head(f)).Drop? {
        DiscardOnValues(f, others);
      } else if Judge(feed, Head(f)).Rotate? {
        PutBackOnValues(f, others);
      } else {
        SendOnValues(f, MakeOrder(feed, a, c, Head(f).signal), others);
      }
    }
  }

  /** The gateway's poll on slots is `PollGateway` on the messages. */
  lemma AnswerSlotsRefines(g: Gateway, f: Floor, others: seq<nat>)
    requires Sound(f, others)
    ensures var (g', h) := AnswerSlots(g, f);
      && Sound(h, others) && View(h.messages, others) == View(f.messages, others)
      && PollGateway(Desk(g, View(f.messages, f.from), View(f.messages, f.to)))
         == Desk(g', View(h.messages, h.from), View(h.messages, h.to))
      && Tally(h.acquired, FREE)
         == Tally(f.acquired, FREE) + (if f.from != [] && Confirm(g, Head(f)).None? then 1 else 0)
  {
    if f.from != [] {
      assert View(f.messages, f.from)[0] == Head(f);
      if Confirm(g, Head(f)).None? {
        DiscardOnValues(f, others);
      } else {
        SendOnValues(f, Confirm(g, Head(f)).value.1, others);
      }
    }
  }

  /** A tick on the slot at the head of the market queue: the slot is freed, or carries the signal on. */
  lemma TickSlotsRefines(p: Producer, q: Quote, bps: int, f: Floor, others: seq<nat>)
    requires Sound(f, others) && f.from != []
    ensures var (p', g) := TickSlots(p, q, bps, f);
            var (v, signal) := OnTick(p, q, bps);
      && p' == v && Sound(g, others) && View(g.messages, others) == View(f.messages, others)
      && View(g.messages, g.from) == View(f.messages, f.from)[1..]
      && View(g.messages, g.to) == View(f.messages, f.to) + (if signal.Some? then [Signal(signal.value)] else [])
      && Tally(g.acquired, FREE) == Tally(f.acquired, FREE) + (if signal.Some? then 0 else 1)
  {
    var signal := OnTick(p, q, bps).1;
    if signal.None? {
      DiscardOnValues(f, others);
    } else {
      SendOnValues(f, Signal(signal.value), others);
    }
  }
}
