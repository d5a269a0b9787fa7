/** The slot pool, the ring and the worker threads as one concurrent program: every atomic
    operation and every access to a message body is a step of its own, any thread may take the next
    step, and every weak compare-exchange may fail for no reason. */
module Workers {
  import opened Machine

  /** Where a thread is. The producer pcs follow `producer_main` through `acquire`,
      `fill_test_message` and `push`; the consumer pcs follow `consumer_main` through `try_pop`,
      `sequence_from` and `release`. */
  datatype Pc =
    | NextOp                                           // about to draw a sequence number
    | Acquire(sequence: nat, i: nat)                   // about to CAS the state byte of slot i
    | Clear(sequence: nat, slot: nat)                  // about to zero the acquired body
    | Fill(sequence: nat, slot: nat)                   // about to write the body
    | Ticket(sequence: nat, slot: nat)                 // about to bump the post cursor
    | Post(sequence: nat, slot: nat, cell: nat)        // about to CAS a cell
    | CountPush                                        // about to bump pushed_
    | NextTake                                         // about to load the pop cursor
    | Scan(start: int, probe: nat, mark: nat)          // about to exchange a cell
    | Store(slot: nat, idx: nat)                       // about to store the pop cursor
    | Read(slot: nat)                                  // about to read the body
    | Release(slot: nat)                               // about to clear the state byte
    | CountPop                                         // about to bump popped_
    | Done

  /** A thread and the operations it still has to do. */
  datatype Worker = Worker(left: nat, pc: Pc)

  datatype Role = Producer | Consumer

  /** `pushes[id]` is the sequence number of the id-th successful push, `tag[x]` the id under which
      slot x was last pushed, `delivered` what the consumers read. Nothing in the program depends on
      this record; neither does it on `Scan.mark`, the number of pushes at the cursor load. */
  datatype History = History(pushes: seq<nat>, tag: seq<nat>, delivered: seq<Delivery>)
  datatype Delivery = Delivery(id: nat, value: nat)

  datatype State = State(
    acquired: seq<bool>,        // the state byte of each pool slot
    body: seq<nat>,             // the 32-bit `shares` word of each pool slot
    ring: seq<Option<nat>>,
    post: int, pop: int,
    nextSequence: nat, pushed: nat, popped: nat,
    workers: seq<Worker>,
    log: History)

  datatype Action = Spawn(role: Role, ops: nat) | Step(t: nat, spurious: bool)

  // ----- The program -----

  function Goto(s: State, t: nat, pc: Pc): State
    requires t < |s.workers|
  {
    s.(workers := s.workers[t := s.workers[t].(pc := pc)])
  }

  /** One loop iteration is over. */
  function Finish(s: State, t: nat, pc: Pc): State
    requires t < |s.workers|
  {
    var w := s.workers[t];
    s.(workers := s.workers[t := Worker(if w.left > 0 then w.left - 1 else 0, pc)])
  }

  predicate Sized(s: State) {
    RingCapacity(|s.ring|) && |s.body| == |s.acquired| == |s.log.tag|
  }

  function ProducerStep(s: State, t: nat, spurious: bool): State
    requires Sized(s) && t < |s.workers|
  {
    var w := s.workers[t];
    match w.pc
    case NextOp =>
      if w.left == 0 then Goto(s, t, Done)
      else Goto(s, t, Acquire(s.nextSequence, 0)).(nextSequence := s.nextSequence + 1)
    case Acquire(q, i) =>
      if i >= |s.acquired| then Finish(s, t, NextOp)
      else if s.acquired[i] || spurious then Goto(s, t, Acquire(q, i + 1))
      else Goto(s, t, Clear(q, i)).(acquired := s.acquired[i := true])
    case Clear(q, x) =>
      if x < |s.body| then Goto(s, t, Fill(q, x)).(body := s.body[x := 0]) else s
    case Fill(q, x) =>
      if x < |s.body| then Goto(s, t, Ticket(q, x)).(body := s.body[x := Word(q)]) else s
    case Ticket(q, x) =>
      Goto(s, t, Post(q, x, CellOf(s.post, |s.ring|))).(post := Bump(s.post))
    case Post(q, x, c) =>
      if c < |s.ring| && s.ring[c].None? && !spurious && x < |s.log.tag| then
        Goto(s, t, CountPush).(
          ring := s.ring[c := Some(x)],
          log := s.log.(pushes := s.log.pushes + [q], tag := s.log.tag[x := |s.log.pushes|]))
      else Goto(s, t, Post(q, x, CellOf(c + 1, |s.ring|)))
    case CountPush => Finish(s, t, NextOp).(pushed := s.pushed + 1)
    case _ => s
  }

  function ConsumerStep(s: State, t: nat): State
    requires Sized(s) && t < |s.workers|
  {
    var w := s.workers[t];
    match w.pc
    case NextTake =>
      if w.left == 0 then Goto(s, t, Done)
      else Goto(s, t, Scan(s.pop, 0, |s.log.pushes|))
    case Scan(start, probe, mark) =>
      if probe >= |s.ring| then Goto(s, t, NextTake)
      else
        var idx := CellOf(start + probe, |s.ring|);
        CellIsCursorMod(start + probe, |s.ring|);
        if s.ring[idx].Some? then Goto(s, t, Store(s.ring[idx].value, idx)).(ring := s.ring[idx := None])
        else Goto(s, t, Scan(start, probe + 1, mark))
    case Store(x, idx) => Goto(s, t, Read(x)).(pop := CellOf(idx + 1, |s.ring|))
    case Read(x) =>
      if x < |s.body| then
        Goto(s, t, Release(x)).(
          log := s.log.(delivered := s.log.delivered + [Delivery(s.log.tag[x], s.body[x])]))
      else s
    case Release(x) =>
      if x < |s.acquired| then Goto(s, t, CountPop).(acquired := s.acquired[x := false]) else s
    case CountPop => Finish(s, t, NextTake).(popped := s.popped + 1)
    case _ => s
  }

  predicate ProducerPc(pc: Pc) {
    pc.NextOp? || pc.Acquire? || pc.Clear? || pc.Fill? || pc.Ticket? || pc.Post? || pc.CountPush?
  }

  function Apply(s: State, a: Action): State
    requires Sized(s)
  {
    match a
    case Spawn(role, ops) =>
      s.(workers := s.workers + [Worker(ops, if role.Producer? then NextOp else NextTake)],
         nextSequence := s.nextSequence + 1)
    case Step(t, spurious) =>
      if t >= |s.workers| then s
      else if ProducerPc(s.workers[t].pc) then ProducerStep(s, t, spurious)
      else ConsumerStep(s, t)
  }

  lemma StepKeepsSizes(s: State, a: Action)
    requires Sized(s)
    ensures Sized(Apply(s, a))
    ensures |Apply(s, a).ring| == |s.ring| && |Apply(s, a).acquired| == |s.acquired|
    ensures |s.workers| <= |Apply(s, a).workers|
  {
    if a.Step? && a.t < |s.workers| {
      if ProducerPc(s.workers[a.t].pc) {
        ProducerKeepsSizes(s, a.t, a.spurious);
      } else {
        ConsumerKeepsSizes(s, a.t);
      }
    }
  }

  /** The pool, the ring and the threads are as many as before. */
  predicate SameSizes(s: State, s': State) {
    && |s'.ring| == |s.ring| && |s'.body| == |s.body| && |s'.acquired| == |s.acquired|
    && |s'.log.tag| == |s.log.tag| && |s'.workers| == |s.workers|
  }

  lemma ProducerKeepsSizes(s: State, t: nat, spurious: bool)
    requires Sized(s) && t < |s.workers|
    ensures SameSizes(s, ProducerStep(s, t, spurious))
  {
  }

  lemma ConsumerKeepsSizes(s: State, t: nat)
    requires Sized(s) && t < |s.workers|
    ensures SameSizes(s, ConsumerStep(s, t))
  {
    if s.workers[t].pc.Scan? {
      CellIsCursorMod(s.workers[t].pc.start + s.workers[t].pc.probe, |s.ring|);
    }
  }

  /** A step of a thread changes no other thread. */
  lemma StepMovesOne(s: State, t: nat, spurious: bool)
    requires Sized(s) && t < |s.workers|
    ensures var s' := Apply(s, Step(t, spurious));
      |s'.workers| == |s.workers| && s'.workers == s.workers[t := s'.workers[t]]
  {
    if ProducerPc(s.workers[t].pc) { ProducerMovesOne(s, t, spurious); } else { ConsumerMovesOne(s, t); }
  }

  lemma ProducerMovesOne(s: State, t: nat, spurious: bool)
    requires Sized(s) && t < |s.workers|
    ensures var s' := ProducerStep(s, t, spurious);
      |s'.workers| == |s.workers| && s'.workers == s.workers[t := s'.workers[t]]
  {
  }

  lemma ConsumerMovesOne(s: State, t: nat)
    requires Sized(s) && t < |s.workers|
    ensures var s' := ConsumerStep(s, t);
      |s'.workers| == |s.workers| && s'.workers == s.workers[t := s'.workers[t]]
  {
  }

  // ----- Ownership -----

  /** The one place a slot's pointer is: nowhere, in a ring cell, in a thread's hand, or with a part
      of the program that takes no step here. */
  datatype Place = Nowhere | Cell(i: nat) | Hand(t: nat) | Elsewhere

  function Held(w: Worker): Option<nat> {
    match w.pc
    case Clear(_, x) => Some(x)
    case Fill(_, x) => Some(x)
    case Ticket(_, x) => Some(x)
    case Post(_, x, _) => Some(x)
    case Store(x, _) => Some(x)
    case Read(x) => Some(x)
    case Release(x) => Some(x)
    case _ => None
  }

  /** `at` names the place of every slot: a slot is acquired exactly when it is somewhere, and the
      cells and hands hold exactly the slots that are there. */
  ghost predicate Owned(s: State, at: seq<Place>) {
    && Sized(s)
    && |at| == |s.acquired|
    && (forall x :: 0 <= x < |at| ==> (s.acquired[x] <==> at[x] != Nowhere))
    && (forall i :: 0 <= i < |s.ring| && s.ring[i].Some? ==> s.ring[i].value < |at| && at[s.ring[i].value] == Cell(i))
    && (forall x :: 0 <= x < |at| && at[x].Cell? ==> at[x].i < |s.ring| && s.ring[at[x].i] == Some(x))
    && (forall t :: 0 <= t < |s.workers| && Held(s.workers[t]).Some? ==>
          Held(s.workers[t]).value < |at| && at[Held(s.workers[t]).value] == Hand(t))
    && (forall x :: 0 <= x < |at| && at[x].Hand? ==> at[x].t < |s.workers| && Held(s.workers[at[x].t]) == Some(x))
  }

  /** Where the slots are after a step. */
  function Moved(s: State, at: seq<Place>, a: Action): seq<Place>
    requires Sized(s)
  {
    if a.Spawn? || a.t >= |s.workers| then at
    else match s.workers[a.t].pc
      case Acquire(_, i) =>
        if i < |at| && i < |s.acquired| && !s.acquired[i] && !a.spurious then at[i := Hand(a.t)] else at
      case Post(_, x, c) =>
        if c < |s.ring| && s.ring[c].None? && !a.spurious && x < |at| then at[x := Cell(c)] else at
      case Scan(start, probe, _) =>
        CellIsCursorMod(start + probe, |s.ring|);
        var idx := CellOf(start + probe, |s.ring|);
        if probe < |s.ring| && s.ring[idx].Some? && s.ring[idx].value < |at|
        then at[s.ring[idx].value := Hand(a.t)] else at
      case Release(x) => if x < |at| then at[x := Nowhere] else at
      case _ => at
  }

  /** Steps that move no pointer. */
  lemma OwnershipIgnores(s: State, at: seq<Place>, t: nat, w: Worker, s': State)
    requires Owned(s, at) && t < |s.workers| && Held(w) == Held(s.workers[t])
    requires Sized(s') && s'.acquired == s.acquired && s'.ring == s.ring
    requires s'.workers == s.workers[t := w]
    ensures Owned(s', at)
  {
  }

  lemma AcquireOwns(s: State, at: seq<Place>, t: nat, w: Worker, x: nat, s': State)
    requires Owned(s, at) && t < |s.workers| && Held(s.workers[t]) == None
    requires x < |at| && !s.acquired[x] && Held(w) == Some(x)
    requires Sized(s') && s'.acquired == s.acquired[x := true] && s'.ring == s.ring
    requires s'.workers == s.workers[t := w]
    ensures Owned(s', at[x := Hand(t)])
  {
  }

  lemma PushOwns(s: State, at: seq<Place>, t: nat, w: Worker, x: nat, c: nat, s': State)
    requires Owned(s, at) && t < |s.workers| && Held(s.workers[t]) == Some(x) && Held(w) == None
    requires c < |s.ring| && s.ring[c].None?
    requires Sized(s') && s'.acquired == s.acquired && s'.ring == s.ring[c := Some(x)]
    requires s'.workers == s.workers[t := w]
    ensures x < |at| && Owned(s', at[x := Cell(c)])
  {
  }

  lemma TakeOwns(s: State, at: seq<Place>, t: nat, w: Worker, c: nat, s': State)
    requires Owned(s, at) && t < |s.workers| && Held(s.workers[t]) == None
    requires c < |s.ring| && s.ring[c].Some? && Held(w) == s.ring[c]
    requires Sized(s') && s'.acquired == s.acquired && s'.ring == s.ring[c := None]
    requires s'.workers == s.workers[t := w]
    ensures s.ring[c].value < |at| && Owned(s', at[s.ring[c].value := Hand(t)])
  {
  }

  lemma ReleaseOwns(s: State, at: seq<Place>, t: nat, w: Worker, x: nat, s': State)
    requires Owned(s, at) && t < |s.workers| && Held(s.workers[t]) == Some(x) && Held(w) == None
    requires Sized(s') && x < |s.acquired| && s'.acquired == s.acquired[x := false] && s'.ring == s.ring
    requires s'.workers == s.workers[t := w]
    ensures x < |at| && Owned(s', at[x := Nowhere])
  {
  }

  lemma ProducerKeepsOwnership(s: State, at: seq<Place>, t: nat, spurious: bool)
    requires Owned(s, at) && t < |s.workers| && ProducerPc(s.workers[t].pc)
    ensures Owned(Apply(s, Step(t, spurious)), Moved(s, at, Step(t, spurious)))
  {
    StepKeepsSizes(s, Step(t, spurious));
    var s' := Apply(s, Step(t, spurious));
    var w' := s'.workers[t];
    match s.workers[t].pc
    case Acquire(_, i) =>
      if i < |at| && !s.acquired[i] && !spurious {
        AcquireOwns(s, at, t, w', i, s');
      } else {
        OwnershipIgnores(s, at, t, w', s');
      }
    case Post(_, x, c) =>
      if c < |s.ring| && s.ring[c].None? && !spurious {
        PushOwns(s, at, t, w', x, c, s');
      } else {
        OwnershipIgnores(s, at, t, w', s');
      }
    case _ => OwnershipIgnores(s, at, t, w', s');
  }

  lemma ScanKeepsOwnership(s: State, at: seq<Place>, t: nat, spurious: bool)
    requires Owned(s, at) && t < |s.workers| && s.workers[t].pc.Scan?
    ensures Owned(Apply(s, Step(t, spurious)), Moved(s, at, Step(t, spurious)))
  {
    StepKeepsSizes(s, Step(t, spurious));
    var s' := Apply(s, Step(t, spurious));
    var w' := s'.workers[t];
    var Scan(start, probe, _) := s.workers[t].pc;
    CellIsCursorMod(start + probe, |s.ring|);
    var idx := CellOf(start + probe, |s.ring|);
    if probe < |s.ring| && s.ring[idx].Some? {
      TakeOwns(s, at, t, w', idx, s');
    } else {
      OwnershipIgnores(s, at, t, w', s');
    }
  }

  lemma ConsumerKeepsOwnership(s: State, at: seq<Place>, t: nat, spurious: bool)
    requires Owned(s, at) && t < |s.workers| && !ProducerPc(s.workers[t].pc)
    ensures Owned(Apply(s, Step(t, spurious)), Moved(s, at, Step(t, spurious)))
  {
    if s.workers[t].pc.Scan? {
      ScanKeepsOwnership(s, at, t, spurious);
    } else {
      StepKeepsSizes(s, Step(t, spurious));
      var s' := Apply(s, Step(t, spurious));
      if s.workers[t].pc.Release? {
        ReleaseOwns(s, at, t, s'.workers[t], s.workers[t].pc.slot, s');
      } else {
        OwnershipIgnores(s, at, t, s'.workers[t], s');
      }
    }
  }

  lemma StepKeepsOwnership(s: State, at: seq<Place>, a: Action)
    requires Owned(s, at)
    ensures Owned(Apply(s, a), Moved(s, at, a))
  {
    if a.Step? && a.t < |s.workers| {
      if ProducerPc(s.workers[a.t].pc) {
        ProducerKeepsOwnership(s, at, a.t, a.spurious);
      } else {
        ConsumerKeepsOwnership(s, at, a.t, a.spurious);
      }
    }
  }
}
