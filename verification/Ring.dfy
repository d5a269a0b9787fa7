/** The MPMC ring: cells holding pool-slot pointers, a post cursor and a pop cursor, both handed
    out as tickets and both resolved by linear probing.

    A pointer into the pool is modelled by its slot number; an empty cell is `None`. */
module Ring {
  import opened Machine

  datatype RingState = RingState(cells: seq<Option<nat>>, post: int, pop: int)

  predicate WellFormed(r: RingState) {
    RingCapacity(|r.cells|)
  }

  /** The cell `d` probes after `start`. */
  function Index(start: int, d: nat, cap: nat): (i: nat)
    requires cap > 0
    ensures i < cap
  {
    (start + d) % cap
  }

  /** The number of probes from `start`, at least `d`, to the first cell that is full (or, when
      `full` is false, free); the capacity when there is none. */
  function Probe(cells: seq<Option<nat>>, start: int, d: nat, full: bool): (p: nat)
    requires |cells| > 0
    ensures d <= |cells| ==> d <= p <= |cells|
    ensures p < |cells| ==> cells[Index(start, p, |cells|)].Some? == full
    ensures forall e: nat :: d <= e < p && e < |cells| ==> cells[Index(start, e, |cells|)].Some? != full
    decreases |cells| - d
  {
    if d >= |cells| then |cells|
    else if cells[Index(start, d, |cells|)].Some? == full then d
    else Probe(cells, start, d + 1, full)
  }

  predicate HasRoom(r: RingState) {
    exists i :: 0 <= i < |r.cells| && r.cells[i].None?
  }

  predicate HasMessage(r: RingState) {
    exists i :: 0 <= i < |r.cells| && r.cells[i].Some?
  }

  // ----- What one call that runs alone does -----

  /** `push`: the first free cell from the post ticket takes the message. */
  function Pushed(r: RingState, m: nat): RingState
    requires WellFormed(r) && HasRoom(r)
  {
    var d := Probe(r.cells, r.post, 0, false);
    ProbeFinds(r.cells, r.post, false);
    RingState(r.cells[Index(r.post, d, |r.cells|) := Some(m)], Bump(r.post), r.pop)
  }

  /** `pop`: the first full cell from the pop ticket gives up its message. */
  function Popped(r: RingState): (nat, RingState)
    requires WellFormed(r) && HasMessage(r)
  {
    var d := Probe(r.cells, r.pop, 0, true);
    ProbeFinds(r.cells, r.pop, true);
    var i := Index(r.pop, d, |r.cells|);
    (r.cells[i].value, RingState(r.cells[i := None], r.post, Bump(r.pop)))
  }

  /** `try_pop`: like `pop`, but it only reads the cursor, gives up after one lap, and on success
      stores the masked successor of the cell it emptied. */
  function TryPopped(r: RingState): (Option<nat>, RingState)
    requires WellFormed(r)
  {
    var d := Probe(r.cells, r.pop, 0, true);
    if d == |r.cells| then (None, r)
    else
      var i := Index(r.pop, d, |r.cells|);
      (r.cells[i], RingState(r.cells[i := None], r.post, CellOf(i + 1, |r.cells|)))
  }

  /** One lap visits every cell. */
  lemma EveryCellIsProbed(start: int, i: nat, cap: nat)
    requires i < cap
    ensures Index(start, (i - start) % cap, cap) == i
  {
    AddMod(i - start, start, cap);
    ModUnique(i, cap, 0, i);
  }

  lemma ProbesDiffer(start: int, d: nat, e: nat, cap: nat)
    requires d < cap && e < cap
    ensures Index(start, d, cap) == Index(start, e, cap) <==> d == e
  {
    if Index(start, d, cap) == Index(start, e, cap) {
      var q := (start + d) / cap - (start + e) / cap;
      assert d - e == cap * q by {
        assert start + d == cap * ((start + d) / cap) + (start + d) % cap;
        assert start + e == cap * ((start + e) / cap) + (start + e) % cap;
      }
      MulAtLeast(cap, q);
    }
  }

  /** A cell of the wanted kind is always found within one lap. */
  lemma ProbeFinds(cells: seq<Option<nat>>, start: int, full: bool)
    requires |cells| > 0
    ensures Probe(cells, start, 0, full) < |cells| <==> exists i :: 0 <= i < |cells| && cells[i].Some? == full
  {
    forall i | 0 <= i < |cells| && cells[i].Some? == full
      ensures Probe(cells, start, 0, full) < |cells|
    {
      EveryCellIsProbed(start, i, |cells|);
    }
  }

  /** What a probe of the next cell says about the first cell of the wanted kind. */
  lemma ProbeDecides(cells: seq<Option<nat>>, start: int, e: nat, full: bool)
    requires e < |cells| && e <= Probe(cells, start, 0, full)
    ensures cells[Index(start, e, |cells|)].Some? == full <==> e == Probe(cells, start, 0, full)
  {
  }

  /** What `try_pop` does when the first full cell is d probes away. */
  lemma TryPopFound(r: RingState, d: nat, i: nat)
    requires WellFormed(r) && d < |r.cells| && d == Probe(r.cells, r.pop, 0, true) && i == Index(r.pop, d, |r.cells|)
    ensures TryPopped(r) == (r.cells[i], RingState(r.cells[i := None], r.post, CellOf(i + 1, |r.cells|)))
  {
  }

  // ----- The ring as a FIFO queue -----

  /** The i-th cell of the cyclic run that starts at the pop cursor. */
  function Nth(r: RingState, i: nat): Option<nat>
    requires |r.cells| > 0
  {
    r.cells[Index(r.pop, i, |r.cells|)]
  }

  /** The full cells are exactly the cyclic run from the pop cursor to the post cursor, and hold q
      in order. */
  ghost predicate Fifo(r: RingState, q: seq<nat>) {
    && WellFormed(r)
    && |q| <= |r.cells|
    && (forall i: nat :: i < |r.cells| ==> Nth(r, i) == if i < |q| then Some(q[i]) else None)
    && r.post % |r.cells| == (r.pop + |q|) % |r.cells|
  }

  /** A FIFO state has room exactly when the queue is shorter than the capacity, and a message
      exactly when the queue is not empty. */
  lemma FifoRoom(r: RingState, q: seq<nat>)
    requires Fifo(r, q)
    ensures HasRoom(r) <==> |q| < |r.cells|
    ensures HasMessage(r) <==> q != []
  {
    var cap := |r.cells|;
    if |q| < cap { assert Nth(r, |q|).None?; }
    if q != [] { assert Nth(r, 0).Some?; }
    forall i | 0 <= i < cap && r.cells[i].Some? ensures q != [] {
      CellInRun(r, q, i);
    }
    forall i | 0 <= i < cap && r.cells[i].None? ensures |q| < cap {
      CellInRun(r, q, i);
    }
  }

  /** Every cell has its place in the cyclic run. */
  lemma CellInRun(r: RingState, q: seq<nat>, i: nat)
    requires Fifo(r, q) && i < |r.cells|
    ensures var d := (i - r.pop) % |r.cells|;
      0 <= d < |r.cells| && r.cells[i] == if d < |q| then Some(q[d]) else None
  {
    var d: nat := (i - r.pop) % |r.cells|;
    EveryCellIsProbed(r.pop, i, |r.cells|);
    assert Nth(r, d) == r.cells[i];
  }

  lemma PushKeepsFifo(r: RingState, q: seq<nat>, m: nat)
    requires Fifo(r, q) && |q| < |r.cells|
    ensures HasRoom(r)
    ensures Fifo(Pushed(r, m), q + [m])
    ensures Probe(r.cells, r.post, 0, false) == 0
  {
    FifoRoom(r, q);
    var cap, s := |r.cells|, Pushed(r, m);
    assert Index(r.post, 0, cap) == Index(r.pop, |q|, cap);
    assert Nth(r, |q|).None?;
    forall i: nat | i < cap ensures Nth(s, i) == if i < |q + [m]| then Some((q + [m])[i]) else None {
      ProbesDiffer(r.pop, i, |q|, cap);
      assert Nth(r, i) == if i < |q| then Some(q[i]) else None;
    }
    WrapKeepsCell(r.post, cap);
    AddMod(r.post, 1, cap);
    AddMod(r.pop + |q|, 1, cap);
  }

  lemma PopKeepsFifo(r: RingState, q: seq<nat>)
    requires Fifo(r, q) && q != []
    ensures HasMessage(r)
    ensures Popped(r).0 == q[0] && Fifo(Popped(r).1, q[1..])
  {
    FifoRoom(r, q);
    assert Nth(r, 0) == Some(q[0]);
    WrapKeepsCell(r.pop, |r.cells|);
    HeadRemoved(r, q, Popped(r).1);
  }

  lemma SuccessorMod(x: int, i: int, c: int, cap: nat)
    requires cap > 0 && i == x % cap && c == (i + 1) % cap
    ensures c % cap == (x + 1) % cap
  {
    AddMod(x, 1, cap);
    AddMod(i + 1, 0, cap);
  }

  /** The cursor `try_pop` stores names the cell after the pop cursor's. */
  lemma StoredCursorMovesOne(pop: int, cap: nat)
    requires RingCapacity(cap)
    ensures CellOf(Index(pop, 0, cap) + 1, cap) % cap == (pop + 1) % cap
  {
    var i := Index(pop, 0, cap);
    CellIsCursorMod(i + 1, cap);
    SuccessorMod(pop, i, CellOf(i + 1, cap), cap);
  }

  /** On a FIFO ring `try_pop` finds the head at its first probe. */
  lemma TryPopFindsHead(r: RingState, q: seq<nat>)
    requires Fifo(r, q) && q != []
    ensures var i := Index(r.pop, 0, |r.cells|);
      TryPopped(r) == (Some(q[0]), RingState(r.cells[i := None], r.post, CellOf(i + 1, |r.cells|)))
  {
    assert Nth(r, 0) == Some(q[0]);
    assert Probe(r.cells, r.pop, 0, true) == 0;
  }

  lemma TryPopKeepsFifo(r: RingState, q: seq<nat>)
    requires Fifo(r, q)
    ensures q == [] ==> TryPopped(r) == (None, r)
    ensures q != [] ==> TryPopped(r).0 == Some(q[0]) && Fifo(TryPopped(r).1, q[1..])
  {
    if q == [] {
      FifoRoom(r, q);
      ProbeFinds(r.cells, r.pop, true);
    } else {
      TryPopFindsHead(r, q);
      StoredCursorMovesOne(r.pop, |r.cells|);
      HeadRemoved(r, q, TryPopped(r).1);
    }
  }

  /** Emptying the first cell and moving the pop cursor one cell on drops the head. */
  lemma HeadRemoved(r: RingState, q: seq<nat>, s: RingState)
    requires Fifo(r, q) && q != []
    requires s.cells == r.cells[Index(r.pop, 0, |r.cells|) := None] && s.post == r.post
    requires s.pop % |r.cells| == (r.pop + 1) % |r.cells|
    ensures Fifo(s, q[1..])
  {
    var cap := |r.cells|;
    forall i: nat | i < cap ensures Nth(s, i) == if i < |q[1..]| then Some(q[1..][i]) else None {
      RunShifts(r, s, i);
    }
    SameSum(s.pop, r.pop + 1, |q| - 1, cap);
  }

  /** Each cell of the run moves one place forward, and the emptied cell to its end. */
  lemma RunShifts(r: RingState, s: RingState, i: nat)
    requires |r.cells| > 0 && i < |r.cells|
    requires s.cells == r.cells[Index(r.pop, 0, |r.cells|) := None]
    requires s.pop % |r.cells| == (r.pop + 1) % |r.cells|
    ensures Nth(s, i) == if i + 1 < |r.cells| then Nth(r, i + 1) else None
  {
    var cap := |r.cells|;
    SameSum(s.pop, r.pop + 1, i, cap);
    if i + 1 < cap {
      ProbesDiffer(r.pop, i + 1, 0, cap);
    } else {
      ModShift(r.pop, 1, cap);
    }
  }

  lemma SameSum(x: int, y: int, z: int, d: nat)
    requires d > 0 && x % d == y % d
    ensures (x + z) % d == (y + z) % d
  {
    AddMod(x, z, d);
    AddMod(y, z, d);
  }

  /** Two's-complement wrap of a cursor never changes the cell it names, because the capacity
      divides 2^32. */
  lemma WrapKeepsCell(cursor: int, cap: nat)
    requires RingCapacity(cap)
    ensures Bump(cursor) % cap == (cursor + 1) % cap
  {
    CellIsCursorMod(Bump(cursor), cap);
    CellIsCursorMod(cursor + 1, cap);
  }

  // ----- Whole runs -----

  datatype Op = Push(m: nat) | Pop | TryPop

  /** The bounded queue a run of ring calls is compared with: `None` where a call would not
      return (a push onto a full ring, a blocking pop on an empty one). */
  function QueueRun(q: seq<nat>, ops: seq<Op>, cap: nat): Option<(seq<Option<nat>>, seq<nat>)>
    decreases |ops|
  {
    if ops == [] then Some(([], q))
    else match ops[0]
      case Push(m) => if |q| < cap then QueueRun(q + [m], ops[1..], cap) else None
      case Pop => if q == [] then None else Yielding(Some(q[0]), QueueRun(q[1..], ops[1..], cap))
      case TryPop =>
        if q == [] then Yielding(None, QueueRun(q, ops[1..], cap))
        else Yielding(Some(q[0]), QueueRun(q[1..], ops[1..], cap))
  }

  function Yielding<S>(out: Option<nat>, rest: Option<(seq<Option<nat>>, S)>): Option<(seq<Option<nat>>, S)> {
    match rest
    case None => None
    case Some((outs, s)) => Some(([out] + outs, s))
  }

  function RingRun(r: RingState, ops: seq<Op>): Option<(seq<Option<nat>>, RingState)>
    requires WellFormed(r)
    decreases |ops|
  {
    if ops == [] then Some(([], r))
    else match ops[0]
      case Push(m) => if HasRoom(r) then RingRun(Pushed(r, m), ops[1..]) else None
      case Pop =>
        if HasMessage(r) then Yielding(Some(Popped(r).0), RingRun(Popped(r).1, ops[1..])) else None
      case TryPop => Yielding(TryPopped(r).0, RingRun(TryPopped(r).1, ops[1..]))
  }

  /** Every run of pushes, pops and try_pops on the ring gives the results of the same run on a
      bounded FIFO queue, blocks exactly where that one would, and ends in a state that again is
      the queue, however often the cursors wrapped. */
  lemma {:induction false} RingRefinesQueue(r: RingState, q: seq<nat>, ops: seq<Op>)
    requires Fifo(r, q)
    ensures RingRun(r, ops).Some? <==> QueueRun(q, ops, |r.cells|).Some?
    ensures RingRun(r, ops).Some? ==>
              && RingRun(r, ops).value.0 == QueueRun(q, ops, |r.cells|).value.0
              && Fifo(RingRun(r, ops).value.1, QueueRun(q, ops, |r.cells|).value.1)
    decreases |ops|
  {
    if ops != [] {
      FifoRoom(r, q);
      match ops[0]
      case Push(m) =>
        if |q| < |r.cells| {
          PushKeepsFifo(r, q, m);
          RingRefinesQueue(Pushed(r, m), q + [m], ops[1..]);
        }
      case Pop =>
        if q != [] {
          PopKeepsFifo(r, q);
          RingRefinesQueue(Popped(r).1, q[1..], ops[1..]);
        }
      case TryPop =>
        TryPopKeepsFifo(r, q);
        RingRefinesQueue(TryPopped(r).1, if q == [] then q else q[1..], ops[1..]);
    }
  }

  /** A new ring is the empty queue. */
  lemma NewRingIsEmpty(cap: nat)
    requires RingCapacity(cap)
    ensures Fifo(RingState(seq(cap, _ => None), 0, 0), [])
  {
  }

  // ----- The class -----

  /** The masked successor of a probed cell is the next cell probed. */
  lemma ProbeStep(start: int, e: nat, cap: nat)
    requires RingCapacity(cap)
    ensures CellOf(start, cap) == Index(start, 0, cap)
    ensures CellOf(start + e, cap) == Index(start, e, cap)
    ensures CellOf(Index(start, e, cap) + 1, cap) == Index(start, e + 1, cap)
  {
    CellIsCursorMod(start, cap);
    CellIsCursorMod(start + e, cap);
    CellIsCursorMod(Index(start, e, cap) + 1, cap);
    AddMod(start + e, 1, cap);
  }

  /** What is left of the queue a ring stands for when its head has been taken. */
  ghost function Rest(r: RingState, q: seq<nat>): seq<nat> {
    if q != [] && Fifo(r, q) then q[1..] else q
  }

  lemma QueueAfterTake(r: RingState, q: seq<nat>)
    requires WellFormed(r)
    ensures HasMessage(r) <==> TryPopped(r).0.Some?
    ensures Fifo(r, q) ==> (HasMessage(r) <==> q != [])
    ensures Fifo(r, q) && q == [] ==> TryPopped(r) == (None, r)
    ensures Fifo(r, q) && q != [] ==> TryPopped(r).0 == Some(q[0]) && Fifo(TryPopped(r).1, q[1..])
    ensures Fifo(r, q) && q != [] && HasMessage(r) ==> Popped(r).0 == q[0] && Fifo(Popped(r).1, q[1..])
  {
    ProbeFinds(r.cells, r.pop, true);
    if Fifo(r, q) {
      FifoRoom(r, q);
      TryPopKeepsFifo(r, q);
      if q != [] { PopKeepsFifo(r, q); }
    }
  }

  lemma QueueAfterPost(r: RingState, q: seq<nat>, m: nat)
    requires WellFormed(r) && HasRoom(r)
    ensures WellFormed(Pushed(r, m)) && Probe(r.cells, r.post, 0, false) < |r.cells|
    ensures Fifo(r, q) && |q| < |r.cells| ==>
              Fifo(Pushed(r, m), q + [m]) && Probe(r.cells, r.post, 0, false) == 0
  {
    ProbeFinds(r.cells, r.post, false);
    if Fifo(r, q) && |q| < |r.cells| {
      PushKeepsFifo(r, q, m);
    }
  }

  class Mpmc {
    const ring: array<Option<nat>>
    var postCursor: int
    var popCursor: int
    /** The queue the ring stands for, as long as `IsFifo()` holds. */
    ghost var contents: seq<nat>

    ghost function State(): RingState
      reads this, ring
    {
      RingState(ring[..], postCursor, popCursor)
    }

    ghost predicate Valid()
      reads this, ring
    {
      WellFormed(State())
    }

    ghost predicate IsFifo()
      reads this, ring
    {
      Fifo(State(), contents)
    }

    function Capacity(): nat { ring.Length }

    constructor (capacity: nat)
      requires RingCapacity(capacity)
      ensures Valid() && IsFifo() && contents == [] && Capacity() == capacity
      ensures fresh(ring)
    {
      ring := new Option<nat>[capacity](_ => None);
      postCursor, popCursor, contents := 0, 0, [];
      new;
      assert ring[..] == seq(capacity, _ => None);
      NewRingIsEmpty(capacity);
    }

    /** `push` running alone. A null message is ignored; otherwise the message lands in the first
        free cell cyclically from the ticket, after at most `Capacity` attempts. */
    method Push(message: Option<nat>) returns (attempts: nat)
      requires Valid()
      requires message.Some? ==> HasRoom(State())
      modifies this, ring
      ensures Valid()
      ensures message.None? ==> attempts == 0 && State() == old(State()) && contents == old(contents)
      ensures message.Some? ==>
                && State() == Pushed(old(State()), message.value)
                && attempts == old(Probe(ring[..], postCursor, 0, false)) + 1 <= Capacity()
                && contents == old(contents) + [message.value]
      ensures message.Some? && old(IsFifo()) && |old(contents)| < Capacity() ==> IsFifo() && attempts == 1
    {
      if message.None? {
        return 0;
      }
      ghost var before := State();
      ghost var d := Probe(ring[..], postCursor, 0, false);
      QueueAfterPost(before, contents, message.value);
      ProbeStep(postCursor, 0, ring.Length);
      var slot := CellOf(postCursor, ring.Length);
      postCursor := Bump(postCursor);
      attempts := 1;
      while ring[slot].Some?
        invariant 1 <= attempts <= d + 1
        invariant slot == Index(before.post, attempts - 1, ring.Length)
        invariant ring[..] == before.cells && contents == old(contents)
        invariant postCursor == Bump(before.post) && popCursor == before.pop
        decreases d + 1 - attempts
      {
        ProbeStep(before.post, attempts - 1, ring.Length);
        slot := CellOf(slot + 1, ring.Length);
        attempts := attempts + 1;
      }
      assert attempts - 1 == d;
      ring[slot] := message;
      contents := contents + [message.value];
      assert ring[..] == before.cells[slot := Some(message.value)];
      assert State() == Pushed(before, message.value);
    }

    /** `pop` running alone on a ring that holds a message. */
    method Pop() returns (message: nat)
      requires Valid() && HasMessage(State())
      modifies this, ring
      ensures Valid()
      ensures (message, State()) == Popped(old(State()))
      ensures old(IsFifo()) ==>
                IsFifo() && old(contents) != [] && message == old(contents)[0] && contents == old(contents)[1..]
    {
      ghost var before := State();
      ghost var d := Probe(ring[..], popCursor, 0, true);
      ProbeFinds(ring[..], popCursor, true);
      QueueAfterTake(before, contents);
      ProbeStep(popCursor, 0, ring.Length);
      var slot := CellOf(popCursor, ring.Length);
      popCursor := Bump(popCursor);
      ghost var probes := 0;
      while ring[slot].None?
        invariant 0 <= probes <= d
        invariant slot == Index(before.pop, probes, ring.Length)
        invariant ring[..] == before.cells && contents == old(contents)
        invariant popCursor == Bump(before.pop) && postCursor == before.post
        decreases d - probes
      {
        ProbeStep(before.pop, probes, ring.Length);
        slot := CellOf(slot + 1, ring.Length);
        probes := probes + 1;
      }
      assert probes == d;
      message := ring[slot].value;
      ring[slot] := None;
      assert ring[..] == before.cells[slot := None];
      contents := Rest(before, contents);
    }

    /** `try_pop` running alone: it fails exactly when no cell holds a message. */
    method TryPop() returns (message: Option<nat>)
      requires Valid()
      modifies this, ring
      ensures Valid()
      ensures (message, State()) == TryPopped(old(State()))
      ensures message.None? <==> !HasMessage(old(State()))
      ensures old(IsFifo()) ==>
                && IsFifo()
                && (old(contents) == [] ==> message.None? && contents == [])
                && (old(contents) != [] ==> message == Some(old(contents)[0]) && contents == old(contents)[1..])
    {
      ghost var before := State();
      ghost var d := Probe(ring[..], popCursor, 0, true);
      ProbeFinds(ring[..], popCursor, true);
      QueueAfterTake(before, contents);
      var slot := popCursor;
      for probe := 0 to ring.Length
        invariant probe <= d
        invariant ring[..] == before.cells && popCursor == slot && postCursor == before.post
        invariant contents == old(contents)
      {
        ProbeStep(slot, probe, ring.Length);
        ProbeDecides(before.cells, slot, probe, true);
        var idx := CellOf(slot + probe, ring.Length);
        message := ring[idx];
        ring[idx] := None;
        assert ring[..] == before.cells[idx := None];
        if message.Some? {
          popCursor := CellOf(idx + 1, ring.Length);
          contents := Rest(before, contents);
          TryPopFound(before, probe, idx);
          assert State() == TryPopped(before).1;
          return;
        }
        assert before.cells[idx := None] == before.cells;
      }
      message := None;
    }
  }
}
