/** Threads that run one at a time: what a whole `try_pop` does, and why the ring is a FIFO queue then. */
module SoloRuns {
  import opened Machine
  import opened Ring
  import opened Workers
  import opened Deliveries
  import opened WorkerRuns
  import opened FullRing

  // ===== One try_pop =====

  lemma CursorLoaded(s: State, t: nat)
    requires Sized(s) && t < |s.workers| && s.workers[t].pc.NextTake? && s.workers[t].left > 0
    ensures Apply(s, Step(t, false)) == At(s, t, Scan(s.pop, 0, |s.log.pushes|))
  {
  }

  lemma EmptyCellProbed(s: State, t: nat)
    requires Sized(s) && t < |s.workers| && s.workers[t].pc.Scan? && s.workers[t].pc.probe < |s.ring|
    requires s.ring[Index(s.workers[t].pc.start, s.workers[t].pc.probe, |s.ring|)].None?
    ensures var Scan(start, probe, mark) := s.workers[t].pc;
      Apply(s, Step(t, false)) == At(s, t, Scan(start, probe + 1, mark))
  {
    CellIsCursorMod(s.workers[t].pc.start + s.workers[t].pc.probe, |s.ring|);
  }

  lemma FullCellProbed(s: State, t: nat)
    requires Sized(s) && t < |s.workers| && s.workers[t].pc.Scan? && s.workers[t].pc.probe < |s.ring|
    requires s.ring[Index(s.workers[t].pc.start, s.workers[t].pc.probe, |s.ring|)].Some?
    ensures var i := Index(s.workers[t].pc.start, s.workers[t].pc.probe, |s.ring|);
      Apply(s, Step(t, false)) == At(s, t, Store(s.ring[i].value, i)).(ring := s.ring[i := None])
  {
    CellIsCursorMod(s.workers[t].pc.start + s.workers[t].pc.probe, |s.ring|);
  }

  /** The scan passes over empty cells. */
  lemma {:induction false} ScanPasses(s: State, t: nat, d: nat) returns (e: State)
    requires Sized(s) && t < |s.workers| && s.workers[t].pc.Scan? && s.workers[t].pc.probe <= d <= |s.ring|
    requires forall e: nat :: s.workers[t].pc.probe <= e < d ==>
               s.ring[Index(s.workers[t].pc.start, e, |s.ring|)].None?
    ensures var Scan(start, probe, mark) := s.workers[t].pc;
      e == Exec(s, Alone(t, d - probe)) && e == At(s, t, Scan(start, d, mark))
    decreases d - s.workers[t].pc.probe
  {
    var Scan(start, probe, mark) := s.workers[t].pc;
    if probe < d {
      var s' := At(s, t, Scan(start, probe + 1, mark));
      EmptyCellProbed(s, t);
      AloneSteps(s, t, d - probe - 1);
      e := ScanPasses(s', t, d);
      AtTwice(s, t, Scan(start, probe + 1, mark), Scan(start, d, mark));
    } else {
      e := s;
      BackAgain(s, t);
    }
  }

  lemma CursorStored(s: State, t: nat)
    requires Sized(s) && t < |s.workers| && s.workers[t].pc.Store?
    ensures var Store(x, i) := s.workers[t].pc;
      Apply(s, Step(t, false)) == At(s, t, Read(x)).(pop := (i + 1) % |s.ring|)
  {
    CellIsCursorMod(s.workers[t].pc.idx + 1, |s.ring|);
  }

  /** The state after thread t has taken the message of cell i and stored the cursor c. */
  function TookFrom(s: State, t: nat, i: nat, c: int): State
    requires t < |s.workers| && i < |s.ring| && s.ring[i].Some?
  {
    At(s, t, Read(s.ring[i].value)).(ring := s.ring[i := None], pop := c)
  }

  lemma SuccessorCell(start: int, d: nat, cap: nat)
    requires cap > 0
    ensures (Index(start, d, cap) + 1) % cap == Index(start, d + 1, cap)
  {
    AddMod(start + d, 1, cap);
  }

  /** n steps that pass through the given states. */
  lemma OneStep(s: State, t: nat, n: nat, s1: State)
    requires n == 1 && Sized(s) && s1 == Apply(s, Step(t, false))
    ensures s1 == Exec(s, Alone(t, n))
  {
    AloneSteps(s, t, n - 1);
  }

  lemma TwoSteps(s: State, t: nat, n: nat, s1: State, s2: State)
    requires n == 2 && Sized(s) && Sized(s1) && s1 == Apply(s, Step(t, false)) && s2 == Apply(s1, Step(t, false))
    ensures s2 == Exec(s, Alone(t, n))
  {
    AloneSteps(s, t, n - 1);
    OneStep(s1, t, n - 1, s2);
  }

  /** n steps and then m more. */
  lemma ThenSteps(s: State, t: nat, n: nat, m: nat, e: State, last: State)
    requires Sized(s) && Sized(e) && e == Exec(s, Alone(t, n)) && last == Exec(e, Alone(t, m))
    ensures last == Exec(s, Alone(t, n + m))
  {
    AloneInTwo(s, t, n, m);
  }

  lemma ScansTo(s: State, t: nat, d: nat) returns (e: State)
    requires Sized(s) && t < |s.workers| && s.workers[t].pc.NextTake? && s.workers[t].left > 0 && d <= |s.ring|
    requires forall e: nat :: e < d ==> s.ring[Index(s.pop, e, |s.ring|)].None?
    ensures e == Exec(s, Alone(t, d + 1)) && e == At(s, t, Scan(s.pop, d, |s.log.pushes|)) && Sized(e)
  {
    var s1 := At(s, t, Scan(s.pop, 0, |s.log.pushes|));
    CursorLoaded(s, t);
    AloneSteps(s, t, d);
    e := ScanPasses(s1, t, d);
    AtTwice(s, t, Scan(s.pop, 0, |s.log.pushes|), Scan(s.pop, d, |s.log.pushes|));
  }

  lemma Hits(s: State, t: nat, x: nat, i: nat) returns (e: State)
    requires Sized(s) && t < |s.workers| && s.workers[t].pc.Scan? && s.workers[t].pc.probe < |s.ring|
    requires i == Index(s.workers[t].pc.start, s.workers[t].pc.probe, |s.ring|) && s.ring[i] == Some(x)
    ensures e == Apply(s, Step(t, false)) && Sized(e)
    ensures e == At(s, t, Store(x, i)).(ring := s.ring[i := None])
  {
    e := At(s, t, Store(x, i)).(ring := s.ring[i := None]);
    FullCellProbed(s, t);
  }

  lemma Stores(s: State, t: nat, x: nat, i: nat, c: nat) returns (e: State)
    requires Sized(s) && t < |s.workers| && s.workers[t].pc == Store(x, i) && c == (i + 1) % |s.ring|
    ensures e == Apply(s, Step(t, false)) && e == At(s, t, Read(x)).(pop := c)
  {
    e := At(s, t, Read(x)).(pop := c);
    CursorStored(s, t);
  }

  lemma HitThenStore(s: State, t: nat, x: nat, i: nat, c: nat)
    requires t < |s.workers| && i < |s.ring| && s.ring[i] == Some(x)
    ensures At(At(s, t, Store(x, i)).(ring := s.ring[i := None]), t, Read(x)).(pop := c) == TookFrom(s, t, i, c)
  {
    AtTwice(s, t, Store(x, i), Read(x));
  }

  /** The exchange and the store of the cursor. */
  lemma HitIsStored(s: State, t: nat, n: nat, i: nat, c: nat) returns (e: State)
    requires Sized(s) && t < |s.workers| && s.workers[t].pc.Scan? && s.workers[t].pc.probe < |s.ring| && n == 2
    requires i == Index(s.workers[t].pc.start, s.workers[t].pc.probe, |s.ring|) && s.ring[i].Some?
    requires c == (i + 1) % |s.ring|
    ensures e == Exec(s, Alone(t, n)) && e == TookFrom(s, t, i, c)
  {
    var x := s.ring[i].value;
    var s1 := Hits(s, t, x, i);
    e := Stores(s1, t, x, i, c);
    HitThenStore(s, t, x, i, c);
    TwoSteps(s, t, n, s1, e);
  }

  lemma TookTheSame(s: State, t: nat, pc: Pc, i: nat, c: int)
    requires t < |s.workers| && i < |s.ring| && s.ring[i].Some?
    ensures TookFrom(At(s, t, pc), t, i, c) == TookFrom(s, t, i, c)
  {
    AtTwice(s, t, pc, Read(s.ring[i].value));
  }

  /** MAIN RESULT 37. A `try_pop` that runs alone on a ring with a message succeeds: it takes the first full
      cell cyclically from the pop cursor, at the probe that finds it, and stores as the new cursor the cell
      after that one. Nothing else in the state differs. */
  lemma SoloTakeSucceeds(s: State, t: nat, d: nat, n: nat) returns (e: State)
    requires Sized(s) && t < |s.workers| && s.workers[t].pc.NextTake? && s.workers[t].left > 0
    requires d == Probe(s.ring, s.pop, 0, true) < |s.ring| && n == d + 3
    ensures s.ring[Index(s.pop, d, |s.ring|)].Some?
    ensures e == Exec(s, Alone(t, n))
    ensures e == TookFrom(s, t, Index(s.pop, d, |s.ring|), Index(s.pop, d + 1, |s.ring|))
  {
    var i, c := Index(s.pop, d, |s.ring|), Index(s.pop, d + 1, |s.ring|);
    SuccessorCell(s.pop, d, |s.ring|);
    var u := ScansTo(s, t, d);
    e := HitIsStored(u, t, n - d - 1, i, c);
    TookTheSame(s, t, u.workers[t].pc, i, c);
    ThenSteps(s, t, d + 1, n - d - 1, u, e);
  }

  /** On an empty ring it gives up after one lap, and nothing has changed. */
  lemma SoloTakeFails(s: State, t: nat, n: nat) returns (e: State)
    requires Sized(s) && t < |s.workers| && s.workers[t].pc.NextTake? && s.workers[t].left > 0
    requires (forall i :: 0 <= i < |s.ring| ==> s.ring[i].None?) && n == |s.ring| + 2
    ensures e == Exec(s, Alone(t, n)) && e == s
  {
    e := s;
    var u := ScansTo(s, t, |s.ring|);
    GivesUp(u, t);
    AtTwice(s, t, u.workers[t].pc, NextTake);
    BackAgain(s, t);
    OneStep(u, t, n - |s.ring| - 1, e);
    ThenSteps(s, t, |s.ring| + 1, n - |s.ring| - 1, u, e);
  }

  lemma BackAgain(s: State, t: nat)
    requires t < |s.workers|
    ensures At(s, t, s.workers[t].pc) == s
  {
  }

  lemma GivesUp(s: State, t: nat)
    requires Sized(s) && t < |s.workers| && s.workers[t].pc.Scan? && s.workers[t].pc.probe >= |s.ring|
    ensures Apply(s, Step(t, false)) == At(s, t, NextTake)
  {
  }

  /** The state after thread t has read slot x, released it and counted the operation. */
  function DeliveredFrom(s: State, t: nat, x: nat): State
    requires t < |s.workers| && x < |s.log.tag| && x < |s.body| && x < |s.acquired|
  {
    var w := s.workers[t];
    s.(workers := s.workers[t := Worker(if w.left > 0 then w.left - 1 else 0, NextTake)],
       acquired := s.acquired[x := false], popped := s.popped + 1,
       log := s.log.(delivered := s.log.delivered + [Delivery(s.log.tag[x], s.body[x])]))
  }

  /** Then the message is read, its slot released and the operation counted. */
  lemma TakenIsDelivered(s: State, t: nat, x: nat, n: nat) returns (e: State)
    requires Sized(s) && t < |s.workers| && s.workers[t].pc == Read(x) && x < |s.body| && n == 3
    ensures e == Exec(s, Alone(t, n)) && e == DeliveredFrom(s, t, x)
  {
    var s1 := Reads(s, t, x);
    var s2 := Releases(s1, t, x);
    e := DeliveredFrom(s, t, x);
    PopIsCounted(s2, t);
    TwoSteps(s1, t, n - 1, s2, e);
    OneStep(s, t, n - 2, s1);
    ThenSteps(s, t, n - 2, n - 1, s1, e);
  }

  lemma Reads(s: State, t: nat, x: nat) returns (e: State)
    requires Sized(s) && t < |s.workers| && s.workers[t].pc == Read(x) && x < |s.body|
    ensures e == Apply(s, Step(t, false)) && Sized(e)
    ensures e == At(s, t, Release(x)).(
                   log := s.log.(delivered := s.log.delivered + [Delivery(s.log.tag[x], s.body[x])]))
  {
    e := Apply(s, Step(t, false));
  }

  lemma Releases(s: State, t: nat, x: nat) returns (e: State)
    requires Sized(s) && t < |s.workers| && s.workers[t].pc == Release(x) && x < |s.acquired|
    ensures e == Apply(s, Step(t, false)) && Sized(e)
    ensures e == At(s, t, CountPop).(acquired := s.acquired[x := false])
  {
    e := Apply(s, Step(t, false));
  }

  lemma PopIsCounted(s: State, t: nat)
    requires Sized(s) && t < |s.workers| && s.workers[t].pc.CountPop?
    ensures var w := s.workers[t];
      Apply(s, Step(t, false))
      == s.(workers := s.workers[t := Worker(if w.left > 0 then w.left - 1 else 0, NextTake)], popped := s.popped + 1)
  {
  }

  // ===== One operation of a producer =====

  lemma OperationCounted(s: State, t: nat)
    requires Sized(s) && t < |s.workers| && s.workers[t].pc.CountPush?
    ensures var w := s.workers[t];
      Apply(s, Step(t, false))
      == s.(workers := s.workers[t := Worker(if w.left > 0 then w.left - 1 else 0, NextOp)], pushed := s.pushed + 1)
  {
  }

  /** The state after thread t has drawn a number, taken slot k, and pushed it into cell i. */
  function ProducedIn(s: State, t: nat, k: nat, i: nat): State
    requires t < |s.workers| && s.workers[t].left > 0
    requires k < |s.acquired| && k < |s.body| && k < |s.log.tag| && i < |s.ring|
  {
    s.(workers := s.workers[t := Worker(s.workers[t].left - 1, NextOp)], nextSequence := s.nextSequence + 1,
       acquired := s.acquired[k := true], body := s.body[k := Word(s.nextSequence)],
       ring := s.ring[i := Some(k)], post := Bump(s.post), pushed := s.pushed + 1,
       log := s.log.(pushes := s.log.pushes + [s.nextSequence], tag := s.log.tag[k := |s.log.pushes|]))
  }

  /** The state with slot k written and in hand. */
  function WrittenIn(s: State, t: nat, k: nat): State
    requires t < |s.workers| && k < |s.acquired| && k < |s.body|
  {
    At(s, t, Ticket(s.nextSequence, k)).(
      nextSequence := s.nextSequence + 1, acquired := s.acquired[k := true], body := s.body[k := Word(s.nextSequence)])
  }

  lemma Writes(s: State, t: nat, k: nat) returns (h: State)
    requires Sized(s) && t < |s.workers| && s.workers[t].pc.NextOp? && s.workers[t].left > 0 && FirstFree(s, k)
    ensures h == Exec(s, Alone(t, k + 4)) && h == WrittenIn(s, t, k) && Sized(h)
  {
    h := WrittenIn(s, t, k);
    WritesNext(s, t, k);
  }

  lemma Pushes(h: State, t: nat, q: nat, k: nat, d: nat) returns (e: State)
    requires Sized(h) && t < |h.workers| && h.workers[t].pc == Ticket(q, k) && k < |h.log.tag|
    requires d == Probe(h.ring, h.post, 0, false) < |h.ring|
    ensures e == Exec(h, Alone(t, d + 2)) && Sized(e)
    ensures e == Landed(h, t, q, k, Index(h.post, d, |h.ring|)).(post := Bump(h.post))
  {
    e := Landed(h, t, q, k, Index(h.post, d, |h.ring|)).(post := Bump(h.post));
    SoloPushSucceeds(h, t, d);
  }

  lemma Counts(s: State, t: nat) returns (e: State)
    requires Sized(s) && t < |s.workers| && s.workers[t].pc.CountPush?
    ensures var w := s.workers[t];
      e == s.(workers := s.workers[t := Worker(if w.left > 0 then w.left - 1 else 0, NextOp)], pushed := s.pushed + 1)
    ensures e == Apply(s, Step(t, false))
  {
    OperationCounted(s, t);
    e := Apply(s, Step(t, false));
  }

  lemma PushedAndCounted(s: State, t: nat, k: nat, i: nat, h: State, e: State)
    requires Sized(s) && t < |s.workers| && s.workers[t].left > 0 && k < |s.acquired| && i < |s.ring|
    requires h == WrittenIn(s, t, k) && e == Landed(h, t, s.nextSequence, k, i).(post := Bump(h.post))
    ensures t < |e.workers| && e.workers[t] == Worker(s.workers[t].left, CountPush)
    ensures e.(workers := e.workers[t := Worker(s.workers[t].left - 1, NextOp)], pushed := e.pushed + 1)
         == ProducedIn(s, t, k, i)
  {
  }

  /** One whole operation of a producer that runs alone: it draws the next number, takes the first free slot,
      writes the number into it, pushes it into the first free cell from the post cursor, and counts. */
  lemma SoloProduceSucceeds(s: State, t: nat, k: nat, d: nat, n: nat) returns (e: State)
    requires Sized(s) && t < |s.workers| && s.workers[t].pc.NextOp? && s.workers[t].left > 0
    requires FirstFree(s, k) && d == Probe(s.ring, s.post, 0, false) < |s.ring| && n == k + d + 7
    ensures e == Exec(s, Alone(t, n)) && e == ProducedIn(s, t, k, Index(s.post, d, |s.ring|))
  {
    var h := Writes(s, t, k);
    var u := Pushes(h, t, s.nextSequence, k, d);
    PushedAndCounted(s, t, k, Index(s.post, d, |s.ring|), h, u);
    e := Counts(u, t);
    ThreeParts(s, t, k + 4, d + 2, n - k - d - 6, h, u, e);
  }

  lemma ThreeParts(s: State, t: nat, a: nat, b: nat, c: nat, h: State, u: State, e: State)
    requires Sized(s) && Sized(h) && Sized(u) && c == 1
    requires h == Exec(s, Alone(t, a)) && u == Exec(h, Alone(t, b)) && e == Apply(u, Step(t, false))
    ensures e == Exec(s, Alone(t, a + b + c))
  {
    OneStep(u, t, c, e);
    ThenSteps(s, t, a, b, h, u);
    ThenSteps(s, t, a + b, c, u, e);
  }

  lemma {:induction false} AcquirePasses(s: State, t: nat, q: nat, i: nat)
    requires Sized(s) && t < |s.workers| && s.workers[t].pc == Acquire(q, i) && i <= |s.acquired|
    requires forall x :: 0 <= x < |s.acquired| ==> s.acquired[x]
    ensures Exec(s, Alone(t, |s.acquired| - i)) == At(s, t, Acquire(q, |s.acquired|))
    decreases |s.acquired| - i
  {
    if i < |s.acquired| {
      var s' := At(s, t, Acquire(q, i + 1));
      assert Apply(s, Step(t, false)) == s';
      AloneSteps(s, t, |s.acquired| - i - 1);
      AcquirePasses(s', t, q, i + 1);
      AtTwice(s, t, Acquire(q, i + 1), Acquire(q, |s.acquired|));
    }
  }

  lemma FindsNoSlot(s: State, t: nat, m: nat) returns (e: State)
    requires Sized(s) && t < |s.workers| && s.workers[t].pc.NextOp? && s.workers[t].left > 0
    requires (forall x :: 0 <= x < |s.acquired| ==> s.acquired[x]) && m == |s.acquired|
    ensures e == Exec(s, Alone(t, m + 1)) && Sized(e)
    ensures e == At(s, t, Acquire(s.nextSequence, m)).(nextSequence := s.nextSequence + 1)
  {
    var q := s.nextSequence;
    var s1 := At(s, t, Acquire(q, 0)).(nextSequence := q + 1);
    e := At(s, t, Acquire(q, m)).(nextSequence := q + 1);
    DrawsSequence(s, t);
    AloneSteps(s, t, m);
    AcquirePasses(s1, t, q, 0);
    AtTwice(s, t, Acquire(q, 0), Acquire(q, m));
  }

  /** With no slot free the number is used up and the operation is over. */
  lemma SoloProduceFails(s: State, t: nat, n: nat) returns (e: State)
    requires Sized(s) && t < |s.workers| && s.workers[t].pc.NextOp? && s.workers[t].left > 0
    requires (forall x :: 0 <= x < |s.acquired| ==> s.acquired[x]) && n == |s.acquired| + 2
    ensures e == Exec(s, Alone(t, n))
    ensures e == s.(workers := s.workers[t := Worker(s.workers[t].left - 1, NextOp)],
                    nextSequence := s.nextSequence + 1)
  {
    var m := |s.acquired|;
    var u := FindsNoSlot(s, t, m);
    e := s.(workers := s.workers[t := Worker(s.workers[t].left - 1, NextOp)], nextSequence := s.nextSequence + 1);
    NoSlotLeft(u, t);
    OneStep(u, t, n - m - 1, e);
    ThenSteps(s, t, m + 1, n - m - 1, u, e);
  }

  lemma NoSlotLeft(s: State, t: nat)
    requires Sized(s) && t < |s.workers| && s.workers[t].pc.Acquire? && s.workers[t].pc.i >= |s.acquired|
    requires s.workers[t].left > 0
    ensures Apply(s, Step(t, false)) == s.(workers := s.workers[t := Worker(s.workers[t].left - 1, NextOp)])
  {
  }

  // ===== Runs of one thread at a time =====

  predicate AtRest(w: Worker) {
    w.pc.NextOp? || w.pc.NextTake? || w.pc.Done?
  }

  /** Every thread but t is between two operations. */
  predicate OnlyBusy(s: State, t: nat) {
    forall u :: 0 <= u < |s.workers| && u != t ==> AtRest(s.workers[u])
  }

  /** A step of a thread while no other is in the middle of an operation, without a spurious failure; or a
      new thread. */
  predicate Exclusive(s: State, a: Action) {
    a.Step? ==> !a.spurious && OnlyBusy(s, a.t)
  }

  /** In the whole run no two operations overlap. */
  predicate Serial(s: State, acts: seq<Action>)
    requires Sized(s)
    decreases |acts|
  {
    acts == [] ||
    (StepKeepsSizes(s, acts[0]);
     Exclusive(s, acts[0]) && Serial(Apply(s, acts[0]), acts[1..]))
  }

  // ----- The ring between and within operations -----

  /** The slots of q, first to last, were pushed one after the other, the first as number `first`. */
  ghost predicate Numbered(s: State, q: seq<nat>, first: nat) {
    && first + |q| == |s.log.pushes|
    && (forall i :: 0 <= i < |q| ==> q[i] < |s.log.tag| && s.log.tag[q[i]] == first + i)
    && (forall j :: 0 <= j < |s.log.delivered| ==> s.log.delivered[j].id == j)
  }

  function Cells(s: State): RingState {
    RingState(s.ring, s.post, s.pop)
  }

  /** The ring is the queue q, up to what the busy thread at pc has done of its operation. */
  ghost predicate Line(s: State, pc: Pc, q: seq<nat>) {
    var cap, done := |s.ring|, |s.log.delivered|;
    match pc
    case Post(_, _, c) =>
      && Fifo(Cells(s).(post := s.pop + |q|), q) && Numbered(s, q, done)
      && s.post % cap == (s.pop + |q| + 1) % cap && (|q| < cap ==> c == Index(s.pop, |q|, cap))
    case Scan(start, probe, _) =>
      Fifo(Cells(s), q) && Numbered(s, q, done) && start == s.pop && (probe == 0 || q == [])
    case Store(x, i) =>
      && Fifo(Cells(s).(pop := i + 1), q) && Numbered(s, q, done + 1)
      && x < |s.log.tag| && s.log.tag[x] == done
    case Read(x) =>
      Fifo(Cells(s), q) && Numbered(s, q, done + 1) && x < |s.log.tag| && s.log.tag[x] == done
    case _ => Fifo(Cells(s), q) && Numbered(s, q, done)
  }

  function PcOf(s: State, t: nat): Pc {
    if t < |s.workers| then s.workers[t].pc else Done
  }

  ghost predicate InLine(s: State, t: nat, q: seq<nat>) {
    Sized(s) && OnlyBusy(s, t) && Line(s, PcOf(s, t), q)
  }

  /** Only the cells a cursor names matter. */
  lemma SameCells(r: RingState, p: RingState, q: seq<nat>)
    requires Fifo(r, q) && p.cells == r.cells
    requires p.post % |r.cells| == r.post % |r.cells| && p.pop % |r.cells| == r.pop % |r.cells|
    ensures Fifo(p, q)
  {
    var cap := |r.cells|;
    forall i: nat | i < cap ensures Nth(p, i) == Nth(r, i) {
      SameSum(p.pop, r.pop, i, cap);
    }
    SameSum(p.pop, r.pop, |q|, cap);
  }

  lemma TicketLines(s: State, t: nat, q: seq<nat>)
    requires InLine(s, t, q) && t < |s.workers| && s.workers[t].pc.Ticket?
    ensures InLine(Apply(s, Step(t, false)), t, q)
  {
    var cap, s' := |s.ring|, Apply(s, Step(t, false));
    TicketDrawn(s, t);
    CellIsCursorMod(s.post, cap);
    WrapKeepsCell(s.post, cap);
    SameSum(s.post, s.pop + |q|, 1, cap);
    SameCells(Cells(s), Cells(s).(post := s.pop + |q|), q);
    OthersAtRest(s, t);
  }

  lemma OthersAtRest(s: State, t: nat)
    requires Sized(s) && t < |s.workers| && OnlyBusy(s, t)
    ensures OnlyBusy(Apply(s, Step(t, false)), t) && |Apply(s, Step(t, false)).workers| == |s.workers|
    ensures Sized(Apply(s, Step(t, false)))
  {
    StepMovesOne(s, t, false);
    StepKeepsSizes(s, Step(t, false));
  }

  /** The push of slot x lands behind the queue. */
  lemma PushLines(s: State, t: nat, q: seq<nat>)
    requires InLine(s, t, q) && t < |s.workers| && s.workers[t].pc.Post? && s.workers[t].pc.slot < |s.log.tag|
    requires s.workers[t].pc.slot !in q && |q| < |s.ring|
    ensures InLine(Apply(s, Step(t, false)), t, q + [s.workers[t].pc.slot])
  {
    var Post(n, x, c) := s.workers[t].pc;
    var cap, r, s' := |s.ring|, Cells(s).(post := s.pop + |q|), Apply(s, Step(t, false));
    PushKeepsFifo(r, q, x);
    assert s.ring[c] == Nth(r, |q|) == None;
    FreeCell(s, t);
    WrapKeepsCell(r.post, cap);
    assert Index(r.post, 0, cap) == c;
    SameCells(Pushed(r, x), Cells(s'), q + [x]);
    PushNumbers(s, s', q, x, |s.log.delivered|);
    OthersAtRest(s, t);
  }

  lemma PushNumbers(s: State, s': State, q: seq<nat>, x: nat, first: nat)
    requires Numbered(s, q, first) && x < |s.log.tag| && x !in q
    requires |s'.log.pushes| == |s.log.pushes| + 1 && s'.log.tag == s.log.tag[x := |s.log.pushes|]
    requires s'.log.delivered == s.log.delivered
    ensures Numbered(s', q + [x], first)
  {
    forall i | 0 <= i < |q| ensures s'.log.tag[q[i]] == first + i {
      assert q[i] in q;
    }
  }

  /** A push on a full ring goes round, for ever if nobody else comes. */
  lemma FullRingLines(s: State, t: nat, q: seq<nat>)
    requires InLine(s, t, q) && t < |s.workers| && s.workers[t].pc.Post? && |q| == |s.ring|
    ensures InLine(Apply(s, Step(t, false)), t, q)
  {
    var Post(n, x, c) := s.workers[t].pc;
    var r := Cells(s).(post := s.pop + |q|);
    if c < |s.ring| { CellInRun(r, q, c); }
    PassesFullCell(s, t);
    OthersAtRest(s, t);
  }

  lemma PassesFullCell(s: State, t: nat)
    requires Sized(s) && t < |s.workers| && s.workers[t].pc.Post?
    requires s.workers[t].pc.cell < |s.ring| ==> s.ring[s.workers[t].pc.cell].Some?
    ensures var Post(n, x, c) := s.workers[t].pc;
      Apply(s, Step(t, false)) == At(s, t, Post(n, x, CellOf(c + 1, |s.ring|)))
  {
  }

  /** The exchange takes the head of the queue. */
  lemma TakeLines(s: State, t: nat, q: seq<nat>)
    requires InLine(s, t, q) && t < |s.workers| && s.workers[t].pc.Scan? && q != []
    ensures InLine(Apply(s, Step(t, false)), t, q[1..])
  {
    var cap, i, s' := |s.ring|, Index(s.pop, 0, |s.ring|), Apply(s, Step(t, false));
    assert Nth(Cells(s), 0) == Some(q[0]);
    FullCellProbed(s, t);
    AddMod(s.pop, 1, cap);
    HeadRemoved(Cells(s), q, Cells(s').(pop := i + 1));
    assert forall k :: 0 <= k < |q[1..]| ==> q[1..][k] == q[k + 1];
    OthersAtRest(s, t);
  }

  /** Probing an empty ring. */
  lemma MissLines(s: State, t: nat, q: seq<nat>)
    requires InLine(s, t, q) && t < |s.workers| && s.workers[t].pc.Scan? && q == []
    ensures InLine(Apply(s, Step(t, false)), t, q)
  {
    var Scan(start, probe, mark) := s.workers[t].pc;
    if probe < |s.ring| {
      assert Nth(Cells(s), probe) == None;
      EmptyCellProbed(s, t);
    } else {
      GivesUp(s, t);
    }
    OthersAtRest(s, t);
  }

  lemma StoreLines(s: State, t: nat, q: seq<nat>)
    requires InLine(s, t, q) && t < |s.workers| && s.workers[t].pc.Store?
    ensures InLine(Apply(s, Step(t, false)), t, q)
  {
    var Store(x, i) := s.workers[t].pc;
    CursorStored(s, t);
    ModTwice(i + 1, |s.ring|);
    SameCells(Cells(s).(pop := i + 1), Cells(s).(pop := (i + 1) % |s.ring|), q);
    OthersAtRest(s, t);
  }

  lemma ModTwice(x: int, d: nat)
    requires d > 0
    ensures (x % d) % d == x % d
  {
    ModUnique(x % d, d, 0, x % d);
  }

  /** The message read is the next one. */
  lemma ReadLines(s: State, t: nat, q: seq<nat>)
    requires InLine(s, t, q) && t < |s.workers| && s.workers[t].pc.Read? && s.workers[t].pc.slot < |s.body|
    ensures InLine(Apply(s, Step(t, false)), t, q)
  {
    var x, s' := s.workers[t].pc.slot, Apply(s, Step(t, false));
    assert s'.log == s.log.(delivered := s.log.delivered + [Delivery(s.log.tag[x], s.body[x])]);
    assert Cells(s') == Cells(s);
    OthersAtRest(s, t);
  }

  /** Everything else leaves cells, cursors and log as they are. */
  lemma PlainLines(s: State, t: nat, q: seq<nat>)
    requires InLine(s, t, q) && t < |s.workers|
    requires var pc := s.workers[t].pc; !pc.Ticket? && !pc.Post? && !pc.Scan? && !pc.Store? && !pc.Read?
    ensures InLine(Apply(s, Step(t, false)), t, q)
  {
    var s' := Apply(s, Step(t, false));
    OthersAtRest(s, t);
    PlainStep(s, t);
    if s'.workers[t].pc.Scan? { CursorLoaded(s, t); }
  }

  lemma PlainStep(s: State, t: nat)
    requires Sized(s) && t < |s.workers|
    requires var pc := s.workers[t].pc; !pc.Ticket? && !pc.Post? && !pc.Scan? && !pc.Store? && !pc.Read?
    ensures var s' := Apply(s, Step(t, false));
      && s'.ring == s.ring && s'.post == s.post && s'.pop == s.pop && s'.log == s.log && |s'.workers| == |s.workers|
      && var pc := s'.workers[t].pc;
         && !pc.Post? && !pc.Store? && !pc.Read?
         && (pc.Scan? ==> s.workers[t].pc.NextTake? && s.workers[t].left > 0)
  {
  }

  /** Slots in the queue are in cells; the one to be pushed is in a hand. */
  lemma HandIsNotQueued(s: State, at: seq<Place>, t: nat, q: seq<nat>)
    requires Owned(s, at) && InLine(s, t, q) && t < |s.workers| && s.workers[t].pc.Post?
    ensures s.workers[t].pc.slot !in q && s.workers[t].pc.slot < |s.log.tag|
  {
    var x, r := s.workers[t].pc.slot, Cells(s).(post := s.pop + |q|);
    assert Held(s.workers[t]) == Some(x);
    forall i: nat | i < |q| ensures q[i] != x {
      assert Nth(r, i) == Some(q[i]);
      assert at[q[i]] == Cell(Index(s.pop, i, |s.ring|));
    }
  }

  lemma StepLines(s: State, at: seq<Place>, t: nat, q: seq<nat>) returns (q': seq<nat>)
    requires Owned(s, at) && InLine(s, t, q) && t < |s.workers|
    ensures InLine(Apply(s, Step(t, false)), t, q')
  {
    var pc := s.workers[t].pc;
    q' := q;
    if pc.Ticket? {
      TicketLines(s, t, q);
    } else if pc.Post? {
      HandIsNotQueued(s, at, t, q);
      if |q| < |s.ring| {
        PushLines(s, t, q);
        q' := q + [pc.slot];
      } else {
        FullRingLines(s, t, q);
      }
    } else if pc.Scan? {
      if q != [] {
        TakeLines(s, t, q);
        q' := q[1..];
      } else {
        MissLines(s, t, q);
      }
    } else if pc.Store? {
      StoreLines(s, t, q);
    } else if pc.Read? {
      assert Held(s.workers[t]) == Some(pc.slot);
      ReadLines(s, t, q);
    } else {
      PlainLines(s, t, q);
    }
  }

  /** A thread may begin when the busy one has come to rest. */
  lemma NextThread(s: State, t: nat, u: nat, q: seq<nat>)
    requires InLine(s, t, q) && OnlyBusy(s, u)
    ensures InLine(s, u, q)
  {
    if u != t {
      assert t < |s.workers| ==> AtRest(s.workers[t]);
      assert u < |s.workers| ==> AtRest(s.workers[u]);
    }
  }

  lemma SpawnLines(s: State, a: Action, t: nat, q: seq<nat>) returns (u: nat)
    requires InLine(s, t, q) && a.Spawn?
    ensures InLine(Apply(s, a), u, q)
  {
    u := if t < |s.workers| then t else |s.workers|;
    StepKeepsSizes(s, a);
    NextThread(s, t, u, q);
  }

  lemma {:induction false} RunLines(s: State, at: seq<Place>, acts: seq<Action>, t: nat, q: seq<nat>)
    returns (e: State, u: nat, left: seq<nat>)
    requires Contents(s, at) && InLine(s, t, q) && Serial(s, acts)
    ensures e == Exec(s, acts) && InLine(e, u, left)
    decreases |acts|
  {
    if acts == [] {
      e, u, left := s, t, q;
    } else {
      var a := acts[0];
      StepKeepsSizes(s, a);
      StepKeepsContents(s, at, a);
      if a.Spawn? {
        var v := SpawnLines(s, a, t, q);
        e, u, left := RunLines(Apply(s, a), Moved(s, at, a), acts[1..], v, q);
      } else if a.t >= |s.workers| {
        e, u, left := RunLines(Apply(s, a), Moved(s, at, a), acts[1..], t, q);
      } else {
        NextThread(s, t, a.t, q);
        var more := StepLines(s, at, a.t, q);
        e, u, left := RunLines(Apply(s, a), Moved(s, at, a), acts[1..], a.t, more);
      }
    }
  }

  lemma FreshIsInLine(cap: nat, poolCap: nat)
    requires RingCapacity(cap)
    ensures InLine(Fresh(cap, poolCap), 0, [])
  {
    NewRingIsEmpty(cap);
  }

  /** MAIN RESULT 38. When no two operations overlap and no exchange fails for no reason, the threads' ring is
      a FIFO queue, for any number of threads and operations: messages are delivered in exactly the order in
      which they were pushed, and whenever all threads are between operations, cells and cursors are those
      of the queue of the messages pushed and not delivered. */
  lemma SerialRunsAreFifo(cap: nat, poolCap: nat, acts: seq<Action>) returns (e: State, q: seq<nat>)
    requires RingCapacity(cap) && Serial(Fresh(cap, poolCap), acts)
    ensures e == Exec(Fresh(cap, poolCap), acts)
    ensures forall j :: 0 <= j < |e.log.delivered| ==> e.log.delivered[j].id == j
    ensures (forall t :: 0 <= t < |e.workers| ==> AtRest(e.workers[t])) ==>
              && Fifo(Cells(e), q) && |e.log.delivered| + |q| == |e.log.pushes|
              && forall i :: 0 <= i < |q| ==>
                   q[i] < |e.log.tag| && e.log.tag[q[i]] == |e.log.delivered| + i
  {
    var s := Fresh(cap, poolCap);
    FreshProgramStarts(cap, poolCap);
    FreshIsInLine(cap, poolCap);
    var u: nat;
    e, u, q := RunLines(s, seq(poolCap, _ => Nowhere), acts, 0, []);
    if forall t :: 0 <= t < |e.workers| ==> AtRest(e.workers[t]) {
      NextThread(e, u, |e.workers|, q);
    }
  }
}
