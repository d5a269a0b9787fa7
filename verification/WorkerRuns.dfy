/** Whole runs of the concurrent program, of any length, with any number of threads started at any
    time: the main results about the pool, the ring and the workers. */
module WorkerRuns {
  import opened Machine
  import opened Counting
  import opened Ring
  import opened Workers
  import opened Deliveries

  // ----- The meaning of a scan -----

  /** If the cell holds a message, that message was pushed after the first `mark` pushes. */
  ghost predicate Late(s: State, c: nat, mark: nat) {
    c < |s.ring| && s.ring[c].Some? && s.ring[c].value < |s.log.tag| ==> mark <= s.log.tag[s.ring[c].value]
  }

  /** What a `try_pop` knows about the cells it has already probed, whatever the others did since. */
  ghost predicate Swept(s: State, w: Worker) {
    w.pc.Scan? && |s.ring| > 0 ==>
      && w.pc.mark <= |s.log.pushes|
      && forall k: nat :: k < w.pc.probe && k < |s.ring| ==> Late(s, Index(w.pc.start, k, |s.ring|), w.pc.mark)
  }

  ghost predicate Scans(s: State) {
    forall t :: 0 <= t < |s.workers| ==> Swept(s, s.workers[t])
  }

  /** A step empties cells or fills them with the newest push. */
  lemma CellsOnlyGetNewer(s: State, at: seq<Place>, a: Action, c: nat, mark: nat)
    requires Contents(s, at) && Late(s, c, mark) && mark <= |s.log.pushes|
    ensures Late(Apply(s, a), c, mark)
    ensures |s.log.pushes| <= |Apply(s, a).log.pushes|
  {
    if a.Step? && a.t < |s.workers| {
      if s.workers[a.t].pc.Scan? {
        ScanEmpties(s, a, c, mark);
      } else if s.workers[a.t].pc.Post? {
        PostFillsNewer(s, at, a, c, mark);
      } else {
        OthersLeaveCells(s, a);
      }
    }
  }

  lemma ScanEmpties(s: State, a: Action, c: nat, mark: nat)
    requires Sized(s) && Late(s, c, mark) && a.Step? && a.t < |s.workers| && s.workers[a.t].pc.Scan?
    ensures Late(Apply(s, a), c, mark) && Apply(s, a).log == s.log
  {
    CellIsCursorMod(s.workers[a.t].pc.start + s.workers[a.t].pc.probe, |s.ring|);
    var s' := Apply(s, a);
    assert s'.log == s.log && |s'.ring| == |s.ring|;
    assert forall i :: 0 <= i < |s.ring| && s'.ring[i].Some? ==> s'.ring[i] == s.ring[i];
  }

  lemma OthersLeaveCells(s: State, a: Action)
    requires Sized(s) && a.Step? && a.t < |s.workers| && !s.workers[a.t].pc.Scan? && !s.workers[a.t].pc.Post?
    ensures var s' := Apply(s, a);
      s'.ring == s.ring && s'.log.pushes == s.log.pushes && s'.log.tag == s.log.tag
  {
  }

  lemma PostFillsNewer(s: State, at: seq<Place>, a: Action, c: nat, mark: nat)
    requires Contents(s, at) && Late(s, c, mark) && mark <= |s.log.pushes|
    requires a.Step? && a.t < |s.workers| && s.workers[a.t].pc.Post?
    ensures Late(Apply(s, a), c, mark) && |s.log.pushes| <= |Apply(s, a).log.pushes|
  {
    assert Held(s.workers[a.t]) == Some(s.workers[a.t].pc.slot);
  }

  /** A step moves no other thread; a spawned thread starts outside any scan. */
  lemma OthersStay(s: State, a: Action, u: nat)
    requires Sized(s) && u < |Apply(s, a).workers| && (a.Step? ==> a.t != u)
    ensures u < |s.workers| ==> Apply(s, a).workers[u] == s.workers[u]
    ensures u >= |s.workers| ==> a.Spawn? && !Apply(s, a).workers[u].pc.Scan?
  {
    if a.Step? && a.t < |s.workers| { StepMovesOne(s, a.t, a.spurious); }
  }

  lemma StepKeepsScans(s: State, at: seq<Place>, a: Action)
    requires Contents(s, at) && Scans(s)
    ensures Scans(Apply(s, a))
  {
    var s' := Apply(s, a);
    forall u | 0 <= u < |s'.workers| ensures Swept(s', s'.workers[u]) {
      if a.Step? && a.t == u {
        WorkerCountGrows(s, a);
        StepKeepsOwnSweep(s, at, a);
      } else {
        OthersStay(s, a, u);
        if u < |s.workers| { OthersKeepSweep(s, at, a, s.workers[u]); }
      }
    }
  }

  lemma WorkerCountGrows(s: State, a: Action)
    requires Sized(s)
    ensures |Apply(s, a).workers| == |s.workers| + if a.Spawn? then 1 else 0
  {
  }

  lemma OthersKeepSweep(s: State, at: seq<Place>, a: Action, w: Worker)
    requires Contents(s, at) && Swept(s, w)
    ensures Swept(Apply(s, a), w)
  {
    StepKeepsSizes(s, a);
    if w.pc.Scan? {
      CellsOnlyGetNewer(s, at, a, |s.ring|, w.pc.mark);
      forall k: nat | k < w.pc.probe && k < |s.ring|
        ensures Late(Apply(s, a), Index(w.pc.start, k, |s.ring|), w.pc.mark)
      {
        CellsOnlyGetNewer(s, at, a, Index(w.pc.start, k, |s.ring|), w.pc.mark);
      }
    }
  }

  lemma StepKeepsOwnSweep(s: State, at: seq<Place>, a: Action)
    requires Contents(s, at) && a.Step? && a.t < |s.workers| && Swept(s, s.workers[a.t])
    ensures a.t < |Apply(s, a).workers| && Swept(Apply(s, a), Apply(s, a).workers[a.t])
  {
    WorkerCountGrows(s, a);
    if s.workers[a.t].pc.Scan? {
      if Apply(s, a).workers[a.t].pc.Scan? {
        ProbedCellIsEmpty(s, at, a);
        OthersKeepSweep(s, at, a, s.workers[a.t]);
      }
    } else {
      ScanBegins(s, a);
    }
  }

  /** A thread that begins a scan has probed nothing and remembers the pushes made so far. */
  lemma ScanBegins(s: State, a: Action)
    requires Sized(s) && a.Step? && a.t < |s.workers| && !s.workers[a.t].pc.Scan?
    ensures a.t < |Apply(s, a).workers|
    ensures var pc := Apply(s, a).workers[a.t].pc;
      pc.Scan? ==> pc.probe == 0 && pc.mark == |s.log.pushes| && Apply(s, a).log == s.log
  {
  }

  /** A scan that goes on has just seen its cell empty. */
  lemma ProbedCellIsEmpty(s: State, at: seq<Place>, a: Action)
    requires Contents(s, at) && a.Step? && a.t < |s.workers| && s.workers[a.t].pc.Scan?
    requires a.t < |Apply(s, a).workers| && Apply(s, a).workers[a.t].pc.Scan?
    ensures var Scan(start, probe, mark) := s.workers[a.t].pc;
      && Apply(s, a).workers[a.t].pc == Scan(start, probe + 1, mark)
      && |Apply(s, a).ring| == |s.ring| > 0
      && Late(Apply(s, a), Index(start, probe, |s.ring|), mark)
  {
    var Scan(start, probe, _) := s.workers[a.t].pc;
    CellIsCursorMod(start + probe, |s.ring|);
  }

  // ----- Counting -----

  const FULL: Option<nat> -> bool := (c: Option<nat>) => c.Some?
  /** Past its push, not counted in `pushed_` yet. */
  const PUSH_UNCOUNTED: Worker -> bool := (w: Worker) => w.pc.CountPush?
  /** Past its exchange, not counted in `popped_` yet. */
  const POP_UNCOUNTED: Worker -> bool := (w: Worker) => w.pc.Store? || w.pc.Read? || w.pc.Release? || w.pc.CountPop?

  function Entered(s: State, initial: nat): nat {
    initial + s.pushed + Tally(s.workers, PUSH_UNCOUNTED)
  }

  function Left(s: State): nat {
    Tally(s.ring, FULL) + s.popped + Tally(s.workers, POP_UNCOUNTED)
  }

  lemma StepKeepsCount(s: State, a: Action, initial: nat)
    requires Sized(s) && Entered(s, initial) == Left(s)
    ensures Entered(Apply(s, a), initial) == Left(Apply(s, a))
  {
    match a
    case Spawn(role, ops) =>
      var w := Worker(ops, if role.Producer? then NextOp else NextTake);
      TallyAppend(s.workers, w, PUSH_UNCOUNTED);
      TallyAppend(s.workers, w, POP_UNCOUNTED);
    case Step(t, spurious) =>
      if t < |s.workers| {
        if ProducerPc(s.workers[t].pc) {
          ProducerKeepsCount(s, t, spurious, initial);
        } else {
          ConsumerKeepsCount(s, t, initial);
        }
      }
  }

  lemma ProducerKeepsCount(s: State, t: nat, spurious: bool, initial: nat)
    requires Sized(s) && t < |s.workers| && ProducerPc(s.workers[t].pc)
    requires Entered(s, initial) == Left(s)
    ensures Entered(ProducerStep(s, t, spurious), initial) == Left(ProducerStep(s, t, spurious))
  {
    var w' := ProducerStep(s, t, spurious).workers[t];
    ProducerCounts(s, t, spurious);
    TallyUpdate(s.workers, t, w', PUSH_UNCOUNTED);
    TallyUpdate(s.workers, t, w', POP_UNCOUNTED);
  }

  /** A producer's step either moves one message from hand to ring, uncounted, or counts one. */
  lemma ProducerCounts(s: State, t: nat, spurious: bool)
    requires Sized(s) && t < |s.workers| && ProducerPc(s.workers[t].pc)
    ensures var s', w := ProducerStep(s, t, spurious), s.workers[t];
      && t < |s'.workers| && s'.workers == s.workers[t := s'.workers[t]]
      && !POP_UNCOUNTED(w) && !POP_UNCOUNTED(s'.workers[t]) && s'.popped == s.popped
      && s'.pushed == s.pushed + (if PUSH_UNCOUNTED(w) then 1 else 0)
      && Tally(s'.ring, FULL) == Tally(s.ring, FULL) + (if PUSH_UNCOUNTED(s'.workers[t]) then 1 else 0)
      && !(PUSH_UNCOUNTED(w) && PUSH_UNCOUNTED(s'.workers[t]))
  {
    var pc := s.workers[t].pc;
    if pc.Post? && pc.cell < |s.ring| {
      TallyUpdate(s.ring, pc.cell, Some(pc.slot), FULL);
    }
  }

  lemma ConsumerKeepsCount(s: State, t: nat, initial: nat)
    requires Sized(s) && t < |s.workers| && !ProducerPc(s.workers[t].pc)
    requires Entered(s, initial) == Left(s)
    ensures Entered(ConsumerStep(s, t), initial) == Left(ConsumerStep(s, t))
  {
    var w' := ConsumerStep(s, t).workers[t];
    ConsumerCounts(s, t);
    TallyUpdate(s.workers, t, w', PUSH_UNCOUNTED);
    TallyUpdate(s.workers, t, w', POP_UNCOUNTED);
  }

  /** A consumer's step moves one message from ring to hand, uncounted, or counts one, or neither. */
  lemma ConsumerCounts(s: State, t: nat)
    requires Sized(s) && t < |s.workers| && !ProducerPc(s.workers[t].pc)
    ensures var s', w := ConsumerStep(s, t), s.workers[t];
      && t < |s'.workers| && s'.workers == s.workers[t := s'.workers[t]]
      && !PUSH_UNCOUNTED(w) && !PUSH_UNCOUNTED(s'.workers[t]) && s'.pushed == s.pushed
      && Tally(s'.ring, FULL) + s'.popped + (if POP_UNCOUNTED(s'.workers[t]) then 1 else 0)
         == Tally(s.ring, FULL) + s.popped + (if POP_UNCOUNTED(w) then 1 else 0)
  {
    var pc := s.workers[t].pc;
    if pc.Scan? {
      CellIsCursorMod(pc.start + pc.probe, |s.ring|);
      TallyUpdate(s.ring, CellOf(pc.start + pc.probe, |s.ring|), None, FULL);
    }
  }

  // ----- Runs -----

  /** A run begins with no worker. The ring may already hold messages, and other parts of the program
      may hold acquired slots (`Elsewhere`); `pushes` starts with the words of the held messages. */
  ghost predicate Start(s: State, at: seq<Place>) {
    Contents(s, at) && s.workers == [] && s.pushed == 0 && s.popped == 0
  }

  lemma FreshProgramStarts(cap: nat, poolCap: nat)
    requires RingCapacity(cap)
    ensures Start(Fresh(cap, poolCap), seq(poolCap, _ => Nowhere))
  {
  }

  /** A new pool and a new ring; `next_sequence_` starts at 1. */
  function Fresh(cap: nat, poolCap: nat): State {
    State(seq(poolCap, _ => false), seq(poolCap, _ => 0), seq(cap, _ => None), 0, 0, 1, 0, 0, [],
          History([], seq(poolCap, _ => 0), []))
  }

  function Exec(s: State, acts: seq<Action>): (e: State)
    requires Sized(s)
    ensures Sized(e) && |e.ring| == |s.ring| && |e.acquired| == |s.acquired|
    decreases |acts|
  {
    if acts == [] then s
    else
      StepKeepsSizes(s, acts[0]);
      Exec(Apply(s, acts[0]), acts[1..])
  }

  function Track(s: State, at: seq<Place>, acts: seq<Action>): seq<Place>
    requires Sized(s)
    decreases |acts|
  {
    if acts == [] then at
    else
      StepKeepsSizes(s, acts[0]);
      Track(Apply(s, acts[0]), Moved(s, at, acts[0]), acts[1..])
  }

  lemma {:induction false} RunKeepsInvariant(s: State, at: seq<Place>, acts: seq<Action>)
    requires Contents(s, at) && Scans(s)
    ensures Contents(Exec(s, acts), Track(s, at, acts)) && Scans(Exec(s, acts))
    decreases |acts|
  {
    if acts != [] {
      StepKeepsContents(s, at, acts[0]);
      StepKeepsScans(s, at, acts[0]);
      RunKeepsInvariant(Apply(s, acts[0]), Moved(s, at, acts[0]), acts[1..]);
    }
  }

  lemma StepLeavesOthersSlots(s: State, at: seq<Place>, a: Action, x: nat)
    requires Owned(s, at) && x < |at|
    ensures |Moved(s, at, a)| == |at|
    ensures Moved(s, at, a)[x] == Elsewhere <==> at[x] == Elsewhere
  {
    if a.Step? && a.t < |s.workers| {
      var w := s.workers[a.t];
      if w.pc.Scan? { CellIsCursorMod(w.pc.start + w.pc.probe, |s.ring|); }
      if Held(w).Some? { assert at[Held(w).value] == Hand(a.t); }
    }
  }

  lemma {:induction false} RunLeavesOthersSlots(s: State, at: seq<Place>, acts: seq<Action>, x: nat)
    requires Owned(s, at) && x < |at|
    ensures |Track(s, at, acts)| == |at|
    ensures Track(s, at, acts)[x] == Elsewhere <==> at[x] == Elsewhere
    decreases |acts|
  {
    if acts != [] {
      StepLeavesOthersSlots(s, at, acts[0], x);
      StepKeepsOwnership(s, at, acts[0]);
      RunLeavesOthersSlots(Apply(s, acts[0]), Moved(s, at, acts[0]), acts[1..], x);
    }
  }

  /** The pointer to slot x is in place p. */
  predicate IsIn(s: State, p: Place, x: nat) {
    match p
    case Cell(i) => i < |s.ring| && s.ring[i] == Some(x)
    case Hand(t) => t < |s.workers| && Held(s.workers[t]) == Some(x)
    case _ => false
  }

  /** MAIN RESULT 1. In every state of every run, a slot is marked acquired exactly when its pointer
      is in a ring cell or in a thread's hand, and then in one of them only; slots other parts of the
      program own are never touched. */
  lemma EverySlotHasOnePlace(s: State, at: seq<Place>, acts: seq<Action>, x: nat)
    requires Start(s, at) && x < |s.acquired|
    ensures at[x] == Elsewhere ==> Exec(s, acts).acquired[x] && forall p :: !IsIn(Exec(s, acts), p, x)
    ensures at[x] != Elsewhere ==> (Exec(s, acts).acquired[x] <==> exists p :: IsIn(Exec(s, acts), p, x))
    ensures forall p, q :: IsIn(Exec(s, acts), p, x) && IsIn(Exec(s, acts), q, x) ==> p == q
  {
    RunKeepsInvariant(s, at, acts);
    RunLeavesOthersSlots(s, at, acts, x);
    var e, place := Exec(s, acts), Track(s, at, acts);
    assert forall p :: IsIn(e, p, x) ==> place[x] == p;
    assert place[x].Cell? || place[x].Hand? ==> IsIn(e, place[x], x);
  }

  /** The body a thread is about to read or write. */
  function Touches(w: Worker): Option<nat> {
    if w.pc.Clear? || w.pc.Fill? || w.pc.Read? then Some(w.pc.slot) else None
  }

  /** MAIN RESULT 2. No two threads are ever about to touch the same body, and no body is touched
      while its pointer is in the ring: the plain bodies need no lock. */
  lemma NoBodyIsShared(s: State, at: seq<Place>, acts: seq<Action>, t: nat, u: nat)
    requires Start(s, at) && t < |Exec(s, acts).workers| && u < |Exec(s, acts).workers|
    requires Touches(Exec(s, acts).workers[t]).Some?
    ensures Touches(Exec(s, acts).workers[u]) == Touches(Exec(s, acts).workers[t]) ==> t == u
    ensures forall i :: 0 <= i < |Exec(s, acts).ring| ==> Exec(s, acts).ring[i] != Touches(Exec(s, acts).workers[t])
  {
    var e := Exec(s, acts);
    RunKeepsInvariant(s, at, acts);
    assert Held(e.workers[t]) == Touches(e.workers[t]);
    if Touches(e.workers[u]) == Touches(e.workers[t]) {
      assert Held(e.workers[u]) == Touches(e.workers[u]);
    }
  }

  /** The message of push number id is in the ring, or taken and not read yet. */
  ghost predicate Carried(s: State, id: nat) {
    exists p, x: nat :: IsIn(s, p, x) && (p.Hand? ==> Unread(s.workers[p.t])) && x < |s.log.tag| && s.log.tag[x] == id
  }

  /** In a state with its contents in order, a push is delivered exactly when nothing carries it. */
  lemma DeliveredOrCarried(e: State, place: seq<Place>, id: nat)
    requires Contents(e, place) && id < |e.log.pushes|
    ensures Delivered(e.log, id) <==> !Carried(e, id)
  {
    if Carried(e, id) {
      var p, x: nat :| IsIn(e, p, x) && (p.Hand? ==> Unread(e.workers[p.t])) && x < |e.log.tag| && e.log.tag[x] == id;
      assert Live(e, place, x);
    }
    if Pending(e, place, id) {
      var x :| Live(e, place, x) && e.log.tag[x] == id;
      assert IsIn(e, place[x], x);
    }
  }

  lemma DeliveriesAreFaithful(s: State, at: seq<Place>, acts: seq<Action>)
    requires Start(s, at)
    ensures forall d :: d in Exec(s, acts).log.delivered ==>
              d.id < |Exec(s, acts).log.pushes| && d.value == Word(Exec(s, acts).log.pushes[d.id])
  {
    RunKeepsInvariant(s, at, acts);
    assert forall d :: d in Exec(s, acts).log.delivered ==> Faithful(Exec(s, acts).log, d);
  }

  lemma NothingIsDeliveredTwice(s: State, at: seq<Place>, acts: seq<Action>)
    requires Start(s, at)
    ensures forall i, j :: 0 <= i < j < |Exec(s, acts).log.delivered| ==>
              Exec(s, acts).log.delivered[i].id != Exec(s, acts).log.delivered[j].id
  {
    RunKeepsInvariant(s, at, acts);
  }

  lemma NothingIsLost(s: State, at: seq<Place>, acts: seq<Action>)
    requires Start(s, at)
    ensures forall id: nat :: id < |Exec(s, acts).log.pushes| ==>
              (Delivered(Exec(s, acts).log, id) <==> !Carried(Exec(s, acts), id))
  {
    RunKeepsInvariant(s, at, acts);
    forall id: nat | id < |Exec(s, acts).log.pushes|
      ensures Delivered(Exec(s, acts).log, id) <==> !Carried(Exec(s, acts), id)
    {
      DeliveredOrCarried(Exec(s, acts), Track(s, at, acts), id);
    }
  }

  /** MAIN RESULT 3. Every delivery gives its consumer the sequence number (modulo 2^32) the producer
      of that very push drew, however often the slot was recycled; no push is delivered twice; and no
      push is lost: it is delivered or still carried, never both. */
  lemma EveryPushIsDeliveredOnce(s: State, at: seq<Place>, acts: seq<Action>)
    requires Start(s, at)
    ensures forall d :: d in Exec(s, acts).log.delivered ==>
              d.id < |Exec(s, acts).log.pushes| && d.value == Word(Exec(s, acts).log.pushes[d.id])
    ensures forall i, j :: 0 <= i < j < |Exec(s, acts).log.delivered| ==>
              Exec(s, acts).log.delivered[i].id != Exec(s, acts).log.delivered[j].id
    ensures forall id: nat :: id < |Exec(s, acts).log.pushes| ==>
              (Delivered(Exec(s, acts).log, id) <==> !Carried(Exec(s, acts), id))
  {
    DeliveriesAreFaithful(s, at, acts);
    NothingIsDeliveredTwice(s, at, acts);
    NothingIsLost(s, at, acts);
  }

  predicate AllDone(s: State) {
    forall t :: 0 <= t < |s.workers| ==> s.workers[t].pc.Done?
  }

  lemma {:induction false} RunKeepsCount(s: State, acts: seq<Action>, initial: nat)
    requires Sized(s) && Entered(s, initial) == Left(s)
    ensures Entered(Exec(s, acts), initial) == Left(Exec(s, acts))
    decreases |acts|
  {
    if acts != [] {
      StepKeepsSizes(s, acts[0]);
      StepKeepsCount(s, acts[0], initial);
      RunKeepsCount(Apply(s, acts[0]), acts[1..], initial);
    }
  }

  /** MAIN RESULT 4. The counters balance in every state, with the threads between an operation and
      its count added in, and exactly once all workers are done. */
  lemma CountersBalance(s: State, at: seq<Place>, acts: seq<Action>)
    requires Start(s, at)
    ensures Tally(s.ring, FULL) + Exec(s, acts).pushed + Tally(Exec(s, acts).workers, PUSH_UNCOUNTED)
         == Tally(Exec(s, acts).ring, FULL) + Exec(s, acts).popped + Tally(Exec(s, acts).workers, POP_UNCOUNTED)
    ensures AllDone(Exec(s, acts)) ==>
              Tally(s.ring, FULL) + Exec(s, acts).pushed == Tally(Exec(s, acts).ring, FULL) + Exec(s, acts).popped
  {
    RunKeepsCount(s, acts, Tally(s.ring, FULL));
    if AllDone(Exec(s, acts)) {
      TallyNone(Exec(s, acts).workers, PUSH_UNCOUNTED);
      TallyNone(Exec(s, acts).workers, POP_UNCOUNTED);
    }
  }

  /** MAIN RESULT 5. When a `try_pop` has made its last probe, every message in the ring was pushed
      after it loaded the cursor (`mark` pushes had been made then); if nobody pushed in between, the
      ring is empty. */
  lemma FailedTryPopMeaning(s: State, at: seq<Place>, acts: seq<Action>, t: nat)
    requires Start(s, at) && t < |Exec(s, acts).workers|
    requires Exec(s, acts).workers[t].pc.Scan? && Exec(s, acts).workers[t].pc.probe >= |s.ring|
    ensures forall i :: 0 <= i < |s.ring| && Exec(s, acts).ring[i].Some? ==>
              && Exec(s, acts).ring[i].value < |Exec(s, acts).log.tag|
              && Exec(s, acts).log.tag[Exec(s, acts).ring[i].value] >= Exec(s, acts).workers[t].pc.mark
    ensures |Exec(s, acts).log.pushes| == Exec(s, acts).workers[t].pc.mark ==>
              forall i :: 0 <= i < |s.ring| ==> Exec(s, acts).ring[i].None?
  {
    RunKeepsInvariant(s, at, acts);
    var e, place := Exec(s, acts), Track(s, at, acts);
    var Scan(start, probe, mark) := e.workers[t].pc;
    forall i | 0 <= i < |s.ring| && e.ring[i].Some?
      ensures e.ring[i].value < |e.log.tag| && mark <= e.log.tag[e.ring[i].value] < |e.log.pushes|
    {
      EveryCellIsProbed(start, i, |s.ring|);
      assert Late(e, Index(start, (i - start) % |s.ring|, |s.ring|), mark);
      assert Live(e, place, e.ring[i].value);
    }
  }

  // ----- Room for every push -----

  /** Fewer than `m` distinct slots cannot fill a ring of at least `m` cells. */
  lemma RingLeavesRoom(ring: seq<Option<nat>>, m: nat, x: nat)
    requires x < m <= |ring|
    requires forall i :: 0 <= i < |ring| && ring[i].Some? ==> ring[i].value < m && ring[i].value != x
    requires forall i, j :: 0 <= i < j < |ring| && ring[i].Some? ==> ring[i] != ring[j]
    ensures exists i :: 0 <= i < |ring| && ring[i].None?
  {
    if forall i :: 0 <= i < |ring| ==> ring[i].Some? {
      var slots := seq(|ring|, i requires 0 <= i < |ring| => ring[i].value);
      forall i, j | 0 <= i < j < |slots| ensures slots[i] != slots[j] {
        assert ring[i] != ring[j];
      }
      DistinctCount(slots);
      var others := Below(m) - {x};
      assert Below(m) == others + {x};
      CardinalityOfSubset(Elements(slots), others);
      assert false;
    }
  }

  /** MAIN RESULT 6. With a pool no larger than the ring, a thread that has a message to push always
      finds a free cell: the ring cannot be full. */
  lemma PendingPushHasRoom(s: State, at: seq<Place>, acts: seq<Action>, t: nat)
    requires Start(s, at) && |s.acquired| <= |s.ring|
    requires t < |Exec(s, acts).workers| && Written(Exec(s, acts).workers[t]).Some?
    ensures exists i :: 0 <= i < |s.ring| && Exec(s, acts).ring[i].None?
  {
    RunKeepsInvariant(s, at, acts);
    var e, place := Exec(s, acts), Track(s, at, acts);
    var x := Written(e.workers[t]).value.1;
    assert Held(e.workers[t]) == Some(x);
    forall i, j | 0 <= i < j < |e.ring| && e.ring[i].Some? ensures e.ring[i] != e.ring[j] {
      assert place[e.ring[i].value] == Cell(i);
    }
    RingLeavesRoom(e.ring, |s.acquired|, x);
  }

  /** n steps of thread t, without spurious failures. */
  function Alone(t: nat, n: nat): seq<Action> {
    if n == 0 then [] else [Step(t, false)] + Alone(t, n - 1)
  }

  /** The state after thread t's push of slot x, numbered q, has landed in cell i: nothing else differs. */
  function Landed(s: State, t: nat, q: nat, x: nat, i: nat): State
    requires t < |s.workers| && x < |s.log.tag| && i < |s.ring|
  {
    s.(ring := s.ring[i := Some(x)],
       workers := s.workers[t := s.workers[t].(pc := CountPush)],
       log := s.log.(pushes := s.log.pushes + [q], tag := s.log.tag[x := |s.log.pushes|]))
  }

  /** From the first attempt on. */
  lemma {:induction false} AttemptsSucceed(s: State, t: nat, d: nat)
    requires Sized(s) && t < |s.workers| && s.workers[t].pc.Post?
    requires s.workers[t].pc.slot < |s.log.tag| && s.workers[t].pc.cell < |s.ring|
    requires d == Probe(s.ring, s.workers[t].pc.cell, 0, false) < |s.ring|
    ensures var Post(q, x, c) := s.workers[t].pc;
      Exec(s, Alone(t, d + 1)) == Landed(s, t, q, x, Index(c, d, |s.ring|))
    decreases d
  {
    var Post(q, x, c) := s.workers[t].pc;
    var cap, s' := |s.ring|, Apply(s, Step(t, false));
    AloneSteps(s, t, d);
    ModUnique(c, cap, 0, c);
    if d == 0 {
      FreeCell(s, t);
    } else {
      MissedCell(s, t);
      ProbeFromNext(s.ring, c, d);
      AttemptsSucceed(s', t, d - 1);
      IndexFromNext(c, d, cap);
      LandsTheSame(s, s', t, q, x, Index(c, d, cap));
    }
  }

  /** MAIN RESULT 7. A push that runs alone without spurious failures, from its ticket on, succeeds after
      the ticket and at most `Capacity` attempts, in the first free cell cyclically from the post cursor.
      The cursor has moved one on, the cell holds the message, the thread goes on to count it, and
      nothing else in the state differs. */
  lemma SoloPushSucceeds(s: State, t: nat, d: nat)
    requires Sized(s) && t < |s.workers| && s.workers[t].pc.Ticket? && s.workers[t].pc.slot < |s.log.tag|
    requires d == Probe(s.ring, s.post, 0, false) < |s.ring|
    ensures var Ticket(q, x) := s.workers[t].pc;
      Exec(s, Alone(t, d + 2)) == Landed(s, t, q, x, Index(s.post, d, |s.ring|)).(post := Bump(s.post))
  {
    var Ticket(q, x) := s.workers[t].pc;
    var c, u := CellOf(s.post, |s.ring|), s.(post := Bump(s.post));
    var s' := u.(workers := s.workers[t := s.workers[t].(pc := Post(q, x, c))]);
    TicketDrawn(s, t);
    AloneSteps(s, t, d + 1);
    CursorToCell(s.ring, s.post, d);
    AttemptsSucceed(s', t, d);
    LandsTheSame(u, s', t, q, x, Index(s.post, d, |s.ring|));
  }

  lemma CursorToCell(cells: seq<Option<nat>>, cursor: int, d: nat)
    requires RingCapacity(|cells|)
    ensures var c := CellOf(cursor, |cells|);
      && c < |cells| && Probe(cells, c, 0, false) == Probe(cells, cursor, 0, false)
      && Index(c, d, |cells|) == Index(cursor, d, |cells|)
  {
    CellIsCursorMod(cursor, |cells|);
    SameProbe(cells, cursor, CellOf(cursor, |cells|));
    AddMod(cursor, d, |cells|);
  }

  lemma TicketDrawn(s: State, t: nat)
    requires Sized(s) && t < |s.workers| && s.workers[t].pc.Ticket?
    ensures var Ticket(q, x) := s.workers[t].pc;
      Apply(s, Step(t, false))
      == s.(post := Bump(s.post), workers := s.workers[t := s.workers[t].(pc := Post(q, x, CellOf(s.post, |s.ring|)))])
  {
  }

  /** The state before an attempt differs from the one before the push only in where the thread stands. */
  lemma LandsTheSame(s: State, s': State, t: nat, q: nat, x: nat, i: nat)
    requires t < |s.workers| && x < |s.log.tag| && i < |s.ring| && t < |s'.workers|
    requires s' == s.(workers := s.workers[t := s.workers[t].(pc := s'.workers[t].pc)])
    ensures Landed(s', t, q, x, i) == Landed(s, t, q, x, i)
  {
    assert s'.workers[t := s'.workers[t].(pc := CountPush)] == s.workers[t := s.workers[t].(pc := CountPush)];
  }

  /** Probing from a cursor is probing from its cell. */
  lemma SameProbe(cells: seq<Option<nat>>, cursor: int, c: nat)
    requires |cells| > 0 && c == cursor % |cells|
    ensures Probe(cells, cursor, 0, false) == Probe(cells, c, 0, false)
  {
    forall e: nat | e < |cells| ensures Index(cursor, e, |cells|) == Index(c, e, |cells|) {
      AddMod(cursor, e, |cells|);
    }
    ProbeIsFirst(cells, cursor, Probe(cells, c, 0, false));
  }

  lemma ProbeIsFirst(cells: seq<Option<nat>>, start: int, p: nat)
    requires |cells| > 0 && p <= |cells|
    requires forall e: nat :: e < p ==> cells[Index(start, e, |cells|)].Some?
    requires p < |cells| ==> cells[Index(start, p, |cells|)].None?
    ensures Probe(cells, start, 0, false) == p
  {
  }

  lemma IndexFromNext(c: nat, d: nat, cap: nat)
    requires cap > 0 && d > 0
    ensures Index(Index(c, 1, cap), d - 1, cap) == Index(c, d, cap)
  {
    AddMod(c + 1, d - 1, cap);
  }

  lemma AloneSteps(s: State, t: nat, d: nat)
    requires Sized(s)
    ensures Sized(Apply(s, Step(t, false)))
    ensures Exec(s, Alone(t, d + 1)) == Exec(Apply(s, Step(t, false)), Alone(t, d))
  {
    StepKeepsSizes(s, Step(t, false));
    assert Alone(t, d + 1)[0] == Step(t, false) && Alone(t, d + 1)[1..] == Alone(t, d);
  }

  lemma FreeCell(s: State, t: nat)
    requires Sized(s) && t < |s.workers| && s.workers[t].pc.Post? && s.workers[t].pc.slot < |s.log.tag|
    requires s.workers[t].pc.cell < |s.ring| && s.ring[s.workers[t].pc.cell].None?
    ensures var Post(q, x, c) := s.workers[t].pc;
      Apply(s, Step(t, false)) == Landed(s, t, q, x, c)
  {
  }

  lemma MissedCell(s: State, t: nat)
    requires Sized(s) && t < |s.workers| && s.workers[t].pc.Post?
    requires s.workers[t].pc.cell < |s.ring| && s.ring[s.workers[t].pc.cell].Some?
    ensures var Post(q, x, c) := s.workers[t].pc;
      Apply(s, Step(t, false))
      == s.(workers := s.workers[t := s.workers[t].(pc := Post(q, x, Index(c, 1, |s.ring|)))])
  {
    CellIsCursorMod(s.workers[t].pc.cell + 1, |s.ring|);
  }

  lemma ProbeFromNext(cells: seq<Option<nat>>, c: nat, d: nat)
    requires |cells| > 0
    requires 0 < d == Probe(cells, c, 0, false) < |cells|
    ensures Probe(cells, Index(c, 1, |cells|), 0, false) == d - 1
  {
    var cap := |cells|;
    var c' := Index(c, 1, cap);
    forall e: nat | e < d ensures Index(c', e, cap) == Index(c, e + 1, cap) {
      IndexFromNext(c, e + 1, cap);
    }
    assert forall e: nat :: e < d - 1 ==> cells[Index(c', e, cap)].Some?;
    assert cells[Index(c', d - 1, cap)].None?;
  }
}
