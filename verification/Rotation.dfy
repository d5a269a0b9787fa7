/** Consumers share one signal queue: each takes its own feed's signals and puts the others back. */
module Rotation {
  import opened Machine
  import opened Messages
  import opened TradingSteps
  import opened Framing

  // ===== One consumer, one lap =====

  function PollTimes(feed: Feed, a: Account, p: Polled, n: nat): Polled
    decreases n
  {
    if n == 0 then p else PollTimes(feed, a, Poll(feed, a, p), n - 1)
  }

  /** The signals of other feeds, in order. */
  function Foreign(feed: Feed, ms: seq<Message>): seq<Message> {
    if ms == [] then []
    else (if ms[0].Signal? && ms[0].signal.feed != feed then [ms[0]] else []) + Foreign(feed, ms[1..])
  }

  /** The feed's own signals with a side, in order. */
  function Own(feed: Feed, ms: seq<Message>): seq<StrategySignal> {
    if ms == [] then []
    else
      (if ms[0].Signal? && ms[0].signal.feed == feed && ms[0].signal.side != NoSide then [ms[0].signal] else [])
      + Own(feed, ms[1..])
  }

  /** The orders a consumer makes of a list of signals, and the consumer after them. */
  function Orders(feed: Feed, a: Account, c: Consumer, own: seq<StrategySignal>): seq<Message>
    decreases |own|
  {
    if own == [] then [] else [MakeOrder(feed, a, c, own[0])] + Orders(feed, a, Submitted(c, feed), own[1..])
  }

  function AfterOrders(feed: Feed, c: Consumer, n: nat): Consumer
    decreases n
  {
    if n == 0 then c else AfterOrders(feed, Submitted(c, feed), n - 1)
  }

  /** Polling once for each message ahead takes or rotates exactly those. */
  predicate Lapped(feed: Feed, a: Account, c: Consumer, ahead: seq<Message>, behind: seq<Message>,
                   pending: seq<Message>)
  {
    PollTimes(feed, a, Polled(c, ahead + behind, pending), |ahead|)
    == Polled(AfterOrders(feed, c, |Own(feed, ahead)|), behind + Foreign(feed, ahead),
              pending + Orders(feed, a, c, Own(feed, ahead)))
  }

  lemma {:induction false} OneLap(
    feed: Feed, a: Account, c: Consumer, ahead: seq<Message>, behind: seq<Message>, pending: seq<Message>)
    ensures Lapped(feed, a, c, ahead, behind, pending)
    decreases |ahead|, 1
  {
    if ahead == [] {
      assert Own(feed, ahead) == [] && Foreign(feed, ahead) == [] && Orders(feed, a, c, []) == [];
      assert ahead + behind == behind && behind + [] == behind && pending + [] == pending;
    } else if Judge(feed, ahead[0]) == Rotate {
      LapRotates(feed, a, c, ahead, behind, pending);
    } else if Judge(feed, ahead[0]) == Submit {
      LapSubmits(feed, a, c, ahead, behind, pending);
    } else {
      LapDrops(feed, a, c, ahead, behind, pending);
    }
  }

  lemma {:induction false} LapDrops(
    feed: Feed, a: Account, c: Consumer, ahead: seq<Message>, behind: seq<Message>, pending: seq<Message>)
    requires ahead != [] && Judge(feed, ahead[0]) == Drop
    ensures Lapped(feed, a, c, ahead, behind, pending)
    decreases |ahead|, 0
  {
    var m, rest := ahead[0], ahead[1..];
    assert (ahead + behind)[0] == m && (ahead + behind)[1..] == rest + behind;
    assert Poll(feed, a, Polled(c, ahead + behind, pending)) == Polled(c, rest + behind, pending);
    OneLap(feed, a, c, rest, behind, pending);
    assert Own(feed, ahead) == Own(feed, rest) && Foreign(feed, ahead) == Foreign(feed, rest);
  }

  lemma {:induction false} LapRotates(
    feed: Feed, a: Account, c: Consumer, ahead: seq<Message>, behind: seq<Message>, pending: seq<Message>)
    requires ahead != [] && Judge(feed, ahead[0]) == Rotate
    ensures Lapped(feed, a, c, ahead, behind, pending)
    decreases |ahead|, 0
  {
    var m, rest := ahead[0], ahead[1..];
    assert (ahead + behind)[0] == m && (ahead + behind)[1..] == rest + behind;
    ConcatAssociates(rest, behind, [m]);
    assert Poll(feed, a, Polled(c, ahead + behind, pending)) == Polled(c, rest + (behind + [m]), pending);
    OneLap(feed, a, c, rest, behind + [m], pending);
    ConcatAssociates(behind, [m], Foreign(feed, rest));
    assert Own(feed, ahead) == Own(feed, rest) && Foreign(feed, ahead) == [m] + Foreign(feed, rest);
    assert PollTimes(feed, a, Polled(c, ahead + behind, pending), |ahead|)
        == PollTimes(feed, a, Polled(c, rest + (behind + [m]), pending), |rest|);
  }

  lemma {:induction false} LapSubmits(
    feed: Feed, a: Account, c: Consumer, ahead: seq<Message>, behind: seq<Message>, pending: seq<Message>)
    requires ahead != [] && Judge(feed, ahead[0]) == Submit
    ensures Lapped(feed, a, c, ahead, behind, pending)
    decreases |ahead|, 0
  {
    var m, rest := ahead[0], ahead[1..];
    var order := MakeOrder(feed, a, c, m.signal);
    assert (ahead + behind)[0] == m && (ahead + behind)[1..] == rest + behind;
    OneLap(feed, a, Submitted(c, feed), rest, behind, pending + [order]);
    assert Own(feed, ahead)[1..] == Own(feed, rest);
    ConcatAssociates(pending, [order], Orders(feed, a, Submitted(c, feed), Own(feed, rest)));
  }

  /** MAIN RESULT 16. n consecutive polls by one consumer on a queue of n messages are a filter: they
      leave exactly the other feeds' signals, in their original order, and append to the pending queue
      exactly the orders for its own signals with a side, in order. */
  lemma LapIsFilter(feed: Feed, a: Account, p: Polled)
    ensures var q := PollTimes(feed, a, p, |p.signals|);
      && q.signals == Foreign(feed, p.signals)
      && q.pending == p.pending + Orders(feed, a, p.c, Own(feed, p.signals))
      && q.c.submitted == p.c.submitted + |Own(feed, p.signals)|
  {
    assert p.signals + [] == p.signals && [] + Foreign(feed, p.signals) == Foreign(feed, p.signals);
    OneLap(feed, a, p.c, p.signals, [], p.pending);
    OrdersCounted(feed, p.c, |Own(feed, p.signals)|);
  }

  lemma {:induction false} OrdersCounted(feed: Feed, c: Consumer, n: nat)
    ensures AfterOrders(feed, c, n).submitted == c.submitted + n
    decreases n
  {
    if n > 0 { OrdersCounted(feed, Submitted(c, feed), n - 1); }
  }

  // ===== Three consumers in turn =====

  /** The consumers in the order `drain_signals` polls them. */
  function AtTurn(k: nat): Feed {
    if k % 3 == 0 then ItchFeed else if k % 3 == 1 then MtbtFeed else McxFeed
  }

  /** What one poll makes of the signal queue. */
  function Turned(feed: Feed, q: seq<Message>): seq<Message> {
    if q == [] then q
    else if Judge(feed, q[0]) == Rotate then q[1..] + [q[0]]
    else q[1..]
  }

  lemma TurnedIsPolled(feed: Feed, a: Account, p: Polled)
    ensures Poll(feed, a, p).signals == Turned(feed, p.signals)
  {
  }

  /** The signal queue after n polls, the first by the consumer at `turn`. */
  function Drained(q: seq<Message>, turn: nat, n: nat): seq<Message> {
    if n == 0 then q else Turned(AtTurn(turn + n - 1), Drained(q, turn, n - 1))
  }

  /** The k-th poll, with nothing taken before it, would take what it finds. */
  predicate TakenAt(q: seq<Message>, turn: nat, k: nat)
    requires q != []
  {
    Judge(AtTurn(turn + k), q[k % |q|]) != Rotate
  }

  /** No poll will ever take anything: checked over three laps. */
  predicate Stuck(q: seq<Message>, turn: nat) {
    q == [] || forall k: nat :: k < 3 * |q| ==> !TakenAt(q, turn, k)
  }

  function Rotated(q: seq<Message>, k: nat): seq<Message>
    requires q != []
  {
    q[k % |q|..] + q[..k % |q|]
  }

  lemma NotRotatedYet(q: seq<Message>)
    requires q != []
    ensures Rotated(q, 0) == q
  {
    ModUnique(0, |q|, 0, 0);
    assert q[0..] + q[..0] == q;
  }

  lemma NextDrained(q: seq<Message>, turn: nat, n: nat)
    ensures Drained(q, turn, n + 1) == Turned(AtTurn(turn + n), Drained(q, turn, n))
  {
  }

  lemma {:induction false} UntouchedRotates(q: seq<Message>, turn: nat, n: nat)
    requires q != [] && forall k: nat :: k < n ==> !TakenAt(q, turn, k)
    ensures Drained(q, turn, n) == Rotated(q, n)
  {
    if n == 0 {
      NotRotatedYet(q);
    } else {
      var m := n - 1;
      UntouchedRotates(q, turn, m);
      NextDrained(q, turn, m);
      UntakenRotates(q, turn, m);
    }
  }

  lemma UntakenRotates(q: seq<Message>, turn: nat, k: nat)
    requires q != [] && !TakenAt(q, turn, k)
    ensures Turned(AtTurn(turn + k), Rotated(q, k)) == Rotated(q, k + 1)
  {
    RotateOnce(q, k);
  }

  lemma RotateOnce(q: seq<Message>, k: nat)
    requires q != []
    ensures Rotated(q, k) != [] && Rotated(q, k)[0] == q[k % |q|]
    ensures Rotated(q, k)[1..] + [Rotated(q, k)[0]] == Rotated(q, k + 1)
  {
    var n := |q|;
    AddMod(k, 1, n);
    if k % n + 1 < n {
      ModUnique(k % n + 1, n, 0, k % n + 1);
    } else {
      ModUnique(k % n + 1, n, 1, 0);
    }
  }

  lemma {:induction false} QueueNeverGrows(q: seq<Message>, turn: nat, n: nat, m: nat)
    requires n <= m
    ensures |Drained(q, turn, m)| <= |Drained(q, turn, n)|
    decreases m
  {
    if n < m { QueueNeverGrows(q, turn, n, m - 1); }
  }

  /** The three laps are enough: what three laps do not take is never taken. */
  lemma StuckForEver(q: seq<Message>, turn: nat, k: nat)
    requires q != [] && Stuck(q, turn)
    ensures !TakenAt(q, turn, k)
  {
    var j := k % (3 * |q|);
    ThreeLapsRepeat(|q|, turn, k);
    assert !TakenAt(q, turn, j);
  }

  /** After three laps the same consumers meet the same signals. */
  lemma ThreeLapsRepeat(n: nat, turn: nat, k: nat)
    requires n > 0
    ensures var j := k % (3 * n); k % n == j % n && (turn + k) % 3 == (turn + j) % 3
  {
    var a, b := WholeLaps(n, k);
    ModShift(k % (3 * n), a, n);
    ModShift(turn + k % (3 * n), b, 3);
  }

  lemma {:induction false} WholeLaps(n: nat, k: nat) returns (a: int, b: int)
    requires n > 0
    ensures k == k % (3 * n) + n * a
    ensures k == k % (3 * n) + 3 * b
    decreases k
  {
    var d := 3 * n;
    if k < d {
      ModUnique(k, d, 0, k);
      a, b := 0, 0;
    } else {
      a, b := WholeLaps(n, k - d);
      OneLapLess(k, d);
      assert n * (a + 3) == n * a + d;
      a, b := a + 3, b + n;
    }
  }

  lemma OneLapLess(k: nat, d: nat)
    requires 0 < d <= k
    ensures (k - d) % d == k % d
  {
    ModShift(k - d, 1, d);
  }

  /** MAIN RESULT 17. Round-robin polling takes at least one signal within three laps exactly when the
      queue is not stuck; a stuck queue only rotates, for ever. */
  lemma SomethingLeavesUnlessStuck(q: seq<Message>, turn: nat)
    requires q != []
    ensures !Stuck(q, turn) <==> |Drained(q, turn, 3 * |q|)| < |q|
    ensures Stuck(q, turn) ==> forall n: nat :: Drained(q, turn, n) == Rotated(q, n)
  {
    if Stuck(q, turn) {
      forall n: nat ensures Drained(q, turn, n) == Rotated(q, n) {
        StuckOnlyRotates(q, turn, n);
      }
      assert |Rotated(q, 3 * |q|)| == |q|;
    } else {
      TakesWithinThreeLaps(q, turn);
    }
  }

  lemma StuckOnlyRotates(q: seq<Message>, turn: nat, n: nat)
    requires q != [] && Stuck(q, turn)
    ensures Drained(q, turn, n) == Rotated(q, n)
  {
    forall k: nat | k < n ensures !TakenAt(q, turn, k) {
      StuckForEver(q, turn, k);
    }
    UntouchedRotates(q, turn, n);
  }

  lemma TakesWithinThreeLaps(q: seq<Message>, turn: nat)
    requires q != [] && !Stuck(q, turn)
    ensures |Drained(q, turn, 3 * |q|)| < |q|
  {
    var k := FirstTaken(q, turn, 0);
    UntouchedRotates(q, turn, k);
    RotateOnce(q, k);
    NextDrained(q, turn, k);
    QueueNeverGrows(q, turn, k + 1, 3 * |q|);
  }

  lemma FirstTaken(q: seq<Message>, turn: nat, from: nat) returns (k: nat)
    requires q != [] && !Stuck(q, turn) && from <= 3 * |q|
    requires forall j: nat :: j < from ==> !TakenAt(q, turn, j)
    ensures k < 3 * |q| && TakenAt(q, turn, k) && forall j: nat :: j < k ==> !TakenAt(q, turn, j)
    decreases 3 * |q| - from
  {
    if from < 3 * |q| && !TakenAt(q, turn, from) {
      k := FirstTaken(q, turn, from + 1);
    } else {
      k := from;
    }
  }

  /** The three feeds the demo drains. */
  predicate Drainable(m: Message) {
    m.Signal? && m.signal.feed != SbeFeed
  }

  /** Which of the three consumers a signal needs. */
  function Wanted(m: Message): nat
    requires Drainable(m)
  {
    if m.signal.feed == ItchFeed then 0 else if m.signal.feed == MtbtFeed then 1 else 2
  }

  lemma TakenMeansWanted(q: seq<Message>, turn: nat, k: nat)
    requires q != [] && Drainable(q[k % |q|])
    ensures TakenAt(q, turn, k) <==> (turn + k) % 3 == Wanted(q[k % |q|])
  {
  }

  /** With a length that is a multiple of three, a signal always meets the same consumer. */
  lemma StuckInStep(q: seq<Message>, turn: nat)
    requires q != [] && |q| % 3 == 0 && forall m :: m in q ==> Drainable(m)
    ensures Stuck(q, turn) <==> forall i: nat :: i < |q| ==> (turn + i) % 3 != Wanted(q[i])
  {
    var n := |q|;
    forall k: nat | k < 3 * n ensures k % n < n && (TakenAt(q, turn, k) <==> (turn + k % n) % 3 == Wanted(q[k % n])) {
      TakenMeansWanted(q, turn, k);
      SameTurn(n, k, turn);
    }
    forall i: nat | i < n ensures TakenAt(q, turn, i) <==> (turn + i) % 3 == Wanted(q[i]) {
      ModUnique(i, n, 0, i);
      assert i < 3 * n;
    }
  }

  /** With any other length, the signal at the head meets every consumer. */
  lemma NotStuckOutOfStep(q: seq<Message>, turn: nat)
    requires q != [] && |q| % 3 != 0 && Drainable(q[0])
    ensures !Stuck(q, turn)
  {
    var k := Meeting(|q|, (Wanted(q[0]) + 2 * turn) % 3);
    assert q[k % |q|] == q[0];
    TakenMeansWanted(q, turn, k);
    RightTurn(turn, k, Wanted(q[0]));
  }

  lemma RightTurn(turn: nat, k: nat, wanted: nat)
    requires wanted < 3 && k % 3 == (wanted + 2 * turn) % 3
    ensures (turn + k) % 3 == wanted
  {
    ModUnique(turn + k, 3, k / 3 + turn - (wanted + 2 * turn) / 3, wanted);
  }

  /** MAIN RESULT 18. Exactly when a queue of ITCH, MTBT and MCX signals is stuck: its length is a
      multiple of three and every signal stands where the wrong consumer meets it. So a queue whose
      length is not a multiple of three always loses at least one signal in three laps. */
  lemma StuckExactly(q: seq<Message>, turn: nat)
    requires q != [] && forall m :: m in q ==> Drainable(m)
    ensures Stuck(q, turn) <==> |q| % 3 == 0 && forall i: nat :: i < |q| ==> (turn + i) % 3 != Wanted(q[i])
    ensures |q| % 3 != 0 ==> |Drained(q, turn, 3 * |q|)| < |q|
  {
    if |q| % 3 == 0 {
      StuckInStep(q, turn);
    } else {
      assert q[0] in q;
      NotStuckOutOfStep(q, turn);
      SomethingLeavesUnlessStuck(q, turn);
    }
  }

  lemma SameTurn(n: nat, k: nat, turn: nat)
    requires n > 0 && n % 3 == 0
    ensures (turn + k) % 3 == (turn + k % n) % 3
  {
    ThreeLapsRepeat(n / 3, turn, k);
  }

  /** Three and a length that is no multiple of it are coprime: the head of the queue meets every
      consumer within three laps. */
  lemma Meeting(n: nat, residue: nat) returns (k: nat)
    requires n > 0 && n % 3 != 0 && residue < 3
    ensures k < 3 * n && k % n == 0 && k % 3 == residue
  {
    k := if residue == 0 then 0 else if n % 3 == residue then n else 2 * n;
    if k == n { ModUnique(n, n, 1, 0); } else if k == 2 * n { ModUnique(2 * n, n, 2, 0); }
  }

  // ----- Draining to the end -----

  /** A number of polls that always suffices for n signals. */
  function Enough(n: nat): nat {
    if n == 0 then 0 else 3 * n + Enough(n - 1)
  }

  lemma {:induction false} DrainedInTwoParts(q: seq<Message>, turn: nat, n: nat, m: nat)
    ensures Drained(q, turn, n + m) == Drained(Drained(q, turn, n), turn + n, m)
  {
    if m > 0 {
      DrainedInTwoParts(q, turn, n, m - 1);
      NextDrained(q, turn, n + m - 1);
      NextDrained(Drained(q, turn, n), turn + n, m - 1);
    }
  }

  lemma {:induction false} EnoughGrows(n: nat, m: nat)
    requires n <= m
    ensures Enough(n) <= Enough(m)
    decreases m
  {
    if n < m { EnoughGrows(n, m - 1); }
  }

  /** MAIN RESULT 19. Round-robin polling of any queue reaches, within 3 (n + ... + 2 + 1) polls, a queue
      that is empty or stuck, and stays there. */
  lemma {:induction false} DrainingEnds(q: seq<Message>, turn: nat) returns (n: nat)
    ensures n <= Enough(|q|)
    ensures Stuck(Drained(q, turn, n), turn + n)
    decreases |q|
  {
    if Stuck(q, turn) {
      n := 0;
    } else {
      TakesWithinThreeLaps(q, turn);
      var laps := 3 * |q|;
      var rest := Drained(q, turn, laps);
      var more := DrainingEnds(rest, turn + laps);
      DrainedInTwoParts(q, turn, laps, more);
      EnoughGrows(|rest|, |q| - 1);
      n := laps + more;
    }
  }

  // ===== The orders the three consumers make =====

  /** The consumers and the two queues between which they stand. */
  datatype Crew = Crew(consumers: PerFeed<Consumer>, signals: seq<Message>, pending: seq<Message>)

  function CrewTurn(a: PerFeed<Account>, t: Crew, feed: Feed): Crew {
    var p := Poll(feed, a.Get(feed), Polled(t.consumers.Get(feed), t.signals, t.pending));
    Crew(t.consumers.Put(feed, p.c), p.signals, p.pending)
  }

  /** The crew after n polls in turn. */
  function CrewAfter(a: PerFeed<Account>, t: Crew, n: nat): Crew {
    if n == 0 then t else CrewTurn(a, CrewAfter(a, t, n - 1), AtTurn(n - 1))
  }

  lemma CrewTurnDrains(a: PerFeed<Account>, t: Crew, feed: Feed)
    ensures CrewTurn(a, t, feed).signals == Turned(feed, t.signals)
  {
    TurnedIsPolled(feed, a.Get(feed), Polled(t.consumers.Get(feed), t.signals, t.pending));
  }

  lemma {:induction false} CrewDrains(a: PerFeed<Account>, t: Crew, n: nat)
    ensures CrewAfter(a, t, n).signals == Drained(t.signals, 0, n)
  {
    if n > 0 {
      CrewDrains(a, t, n - 1);
      CrewTurnDrains(a, CrewAfter(a, t, n - 1), AtTurn(n - 1));
    }
  }

  lemma NextTurn(a: PerFeed<Account>, t: Crew, n: nat)
    ensures CrewAfter(a, t, n + 1) == CrewTurn(a, CrewAfter(a, t, n), AtTurn(n))
  {
  }

  function CrewSubmitted(t: Crew): nat {
    t.consumers.itch.submitted + t.consumers.mtbt.submitted + t.consumers.sbe.submitted + t.consumers.mcx.submitted
  }

  /** Only live signals of feeds that take their turn. */
  ghost predicate AllLive(ms: seq<Message>) {
    forall i :: 0 <= i < |ms| ==> Drainable(ms[i]) && ms[i].signal.side != NoSide
  }

  /** What one poll takes to make an order of. */
  function Taking(feed: Feed, q: seq<Message>): seq<StrategySignal> {
    if q != [] && Judge(feed, q[0]) == Submit then [q[0].signal] else []
  }

  /** The signals the first n polls in turn take, in the order in which they take them. */
  function Left(q: seq<Message>, n: nat): seq<StrategySignal> {
    if n == 0 then [] else Left(q, n - 1) + Taking(AtTurn(n - 1), Drained(q, 0, n - 1))
  }

  /** The consumers after each has submitted its own of a list of signals. */
  function CountersAfter(c: PerFeed<Consumer>, left: seq<StrategySignal>): PerFeed<Consumer> {
    if left == [] then c
    else
      var front, f := CountersAfter(c, left[..|left| - 1]), left[|left| - 1].feed;
      front.Put(f, Submitted(front.Get(f), f))
  }

  /** One order for each of a list of signals, in order: made by the consumer of the signal's own feed, with
      that feed's account and counters. */
  function OrdersOf(a: PerFeed<Account>, c: PerFeed<Consumer>, left: seq<StrategySignal>): (ms: seq<Message>)
    ensures |ms| == |left| && forall m :: m in ms ==> m.IsRequest()
  {
    if left == [] then []
    else
      var front, s := left[..|left| - 1], left[|left| - 1];
      OrdersOf(a, c, front) + [MakeOrder(s.feed, a.Get(s.feed), CountersAfter(c, front).Get(s.feed), s)]
  }

  function AsSignals(left: seq<StrategySignal>): (ms: seq<Message>)
    ensures |ms| == |left| && forall i :: 0 <= i < |left| ==> ms[i] == Signal(left[i])
  {
    seq(|left|, i requires 0 <= i < |left| => Signal(left[i]))
  }

  /** The crew e is the crew t after the signals `left` have made their orders; nothing was dropped. */
  ghost predicate Arrived(a: PerFeed<Account>, t: Crew, e: Crew, left: seq<StrategySignal>) {
    && e.pending == t.pending + OrdersOf(a, t.consumers, left)
    && e.consumers == CountersAfter(t.consumers, left)
    && multiset(t.signals) == multiset(e.signals) + multiset(AsSignals(left))
  }

  /** A turn that takes the signal at the head. */
  lemma TurnSubmits(a: PerFeed<Account>, u: Crew, feed: Feed)
    requires u.signals != [] && Judge(feed, u.signals[0]) == Submit
    ensures var s, e := u.signals[0].signal, CrewTurn(a, u, feed);
      && u.signals[0] == Signal(s) && s.feed == feed && e.signals == u.signals[1..]
      && e.consumers == u.consumers.Put(feed, Submitted(u.consumers.Get(feed), feed))
      && e.pending == u.pending + [MakeOrder(feed, a.Get(feed), u.consumers.Get(feed), s)]
  {
  }

  /** A turn that finds nothing of its own. */
  lemma TurnPasses(a: PerFeed<Account>, u: Crew, feed: Feed)
    requires u.signals == [] || Judge(feed, u.signals[0]) == Rotate
    ensures var e := CrewTurn(a, u, feed);
      && e.consumers == u.consumers && e.pending == u.pending
      && e.signals == if u.signals == [] then [] else u.signals[1..] + [u.signals[0]]
  {
  }

  lemma HeadFirst<T>(xs: seq<T>)
    requires xs != []
    ensures multiset(xs) == multiset{xs[0]} + multiset(xs[1..])
    ensures multiset(xs[1..] + [xs[0]]) == multiset(xs)
  {
    assert xs == [xs[0]] + xs[1..];
  }

  lemma NothingArrives(a: PerFeed<Account>, t: Crew, u: Crew, e: Crew, left: seq<StrategySignal>)
    requires Arrived(a, t, u, left)
    requires e.consumers == u.consumers && e.pending == u.pending && multiset(e.signals) == multiset(u.signals)
    ensures Arrived(a, t, e, left + [])
  {
    assert left + [] == left;
  }

  lemma OneMoreLeft(a: PerFeed<Account>, t: Crew, u: Crew, e: Crew, left: seq<StrategySignal>, s: StrategySignal)
    requires Arrived(a, t, u, left)
    requires u.signals != [] && u.signals[0] == Signal(s) && e.signals == u.signals[1..]
    requires e.consumers == u.consumers.Put(s.feed, Submitted(u.consumers.Get(s.feed), s.feed))
    requires e.pending == u.pending + [MakeOrder(s.feed, a.Get(s.feed), u.consumers.Get(s.feed), s)]
    ensures Arrived(a, t, e, left + [s])
  {
    var more := left + [s];
    assert more[..|more| - 1] == left;
    HeadFirst(u.signals);
    assert AsSignals(more) == AsSignals(left) + [Signal(s)];
  }

  lemma OneTurnArrives(a: PerFeed<Account>, t: Crew, u: Crew, feed: Feed, left: seq<StrategySignal>)
    requires AllLive(u.signals) && Arrived(a, t, u, left)
    ensures AllLive(CrewTurn(a, u, feed).signals)
    ensures Arrived(a, t, CrewTurn(a, u, feed), left + Taking(feed, u.signals))
  {
    var e := CrewTurn(a, u, feed);
    if u.signals != [] && Judge(feed, u.signals[0]) == Submit {
      TurnSubmits(a, u, feed);
      OneMoreLeft(a, t, u, e, left, u.signals[0].signal);
    } else {
      TurnPasses(a, u, feed);
      if u.signals != [] { HeadFirst(u.signals); }
      NothingArrives(a, t, u, e, left);
    }
  }

  lemma NothingHasLeft(a: PerFeed<Account>, t: Crew)
    ensures Arrived(a, t, t, [])
  {
    assert t.pending + [] == t.pending;
  }

  lemma NextLeft(a: PerFeed<Account>, t: Crew, n: nat)
    ensures Left(t.signals, n + 1) == Left(t.signals, n) + Taking(AtTurn(n), CrewAfter(a, t, n).signals)
  {
    CrewDrains(a, t, n);
  }

  lemma NextTurnArrives(a: PerFeed<Account>, t: Crew, m: nat, n: nat, u: Crew, left: seq<StrategySignal>)
    returns (e: Crew, more: seq<StrategySignal>)
    requires n == m + 1 && u == CrewAfter(a, t, m) && left == Left(t.signals, m)
    requires AllLive(u.signals) && Arrived(a, t, u, left)
    ensures e == CrewAfter(a, t, n) && more == Left(t.signals, n) && AllLive(e.signals) && Arrived(a, t, e, more)
  {
    NextTurn(a, t, m);
    NextLeft(a, t, m);
    e, more := CrewTurn(a, u, AtTurn(m)), left + Taking(AtTurn(m), u.signals);
    OneTurnArrives(a, t, u, AtTurn(m), left);
  }

  /** MAIN RESULT 24. What round-robin takes from a queue of live ITCH, MTBT and MCX signals arrives: after
      any number of polls the signals that have left and those still queued are together exactly the old
      ones, and behind the old pending orders stands, in order, one order for each that has left, made by
      the consumer of its own feed with that feed's account and the counters of that moment. */
  lemma {:induction false} TakenSignalsArrive(a: PerFeed<Account>, t: Crew, n: nat)
    returns (e: Crew, left: seq<StrategySignal>)
    requires AllLive(t.signals)
    ensures e == CrewAfter(a, t, n) && left == Left(t.signals, n)
    ensures AllLive(e.signals) && Arrived(a, t, e, left)
  {
    if n == 0 {
      NothingHasLeft(a, t);
      e, left := t, [];
    } else {
      var m := n - 1;
      var u, front := TakenSignalsArrive(a, t, m);
      e, left := NextTurnArrives(a, t, m, n, u, front);
    }
  }

  /** So every poll that takes a signal makes one order, and the counters have gone up by as many. */
  lemma TakenSignalsCounted(a: PerFeed<Account>, t: Crew, n: nat)
    requires AllLive(t.signals)
    ensures Counted(t, CrewAfter(a, t, n))
  {
    var e, left := TakenSignalsArrive(a, t, n);
    ArrivedMeansCounted(a, t, e, left);
  }

  predicate Counted(t: Crew, e: Crew) {
    && |e.pending| + |e.signals| == |t.pending| + |t.signals|
    && CrewSubmitted(e) - CrewSubmitted(t) == |e.pending| - |t.pending|
  }

  lemma ArrivedMeansCounted(a: PerFeed<Account>, t: Crew, e: Crew, left: seq<StrategySignal>)
    requires Arrived(a, t, e, left)
    ensures Counted(t, e)
  {
    assert |multiset(t.signals)| == |multiset(e.signals)| + |multiset(AsSignals(left))|;
    SubmittedTotal(t.consumers, left);
  }

  lemma {:induction false} SubmittedTotal(c: PerFeed<Consumer>, left: seq<StrategySignal>)
    ensures var e := CountersAfter(c, left);
      e.itch.submitted + e.mtbt.submitted + e.sbe.submitted + e.mcx.submitted
      == c.itch.submitted + c.mtbt.submitted + c.sbe.submitted + c.mcx.submitted + |left|
  {
    if left != [] { SubmittedTotal(c, left[..|left| - 1]); }
  }
}
