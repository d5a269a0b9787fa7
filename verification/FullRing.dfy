/** When the pool is larger than the ring, the ring can fill up under a pending push. */
module FullRing {
  import opened Machine
  import opened Workers
  import opened Deliveries
  import opened WorkerRuns

  /** k producers have pushed one message each, into the first k cells. */
  ghost predicate Filling(s: State, k: nat) {
    && Sized(s) && |s.workers| == k && s.post == k <= |s.ring|
    && FirstTaken(s, k)
    && (forall i :: 0 <= i < |s.ring| ==> (s.ring[i].Some? <==> i < k))
  }

  /** Exactly the first k slots are acquired. */
  ghost predicate FirstTaken(s: State, k: nat) {
    forall x :: 0 <= x < |s.acquired| ==> (s.acquired[x] <==> x < k)
  }

  lemma {:induction false} ExecInTwo(s: State, a: seq<Action>, b: seq<Action>)
    requires Sized(s)
    ensures Exec(s, a + b) == Exec(Exec(s, a), b)
    decreases |a|
  {
    if a == [] {
      assert a + b == b;
    } else {
      StepKeepsSizes(s, a[0]);
      assert (a + b)[0] == a[0] && (a + b)[1..] == a[1..] + b;
      ExecInTwo(Apply(s, a[0]), a[1..], b);
    }
  }

  lemma {:induction false} AloneAppends(t: nat, a: nat, b: nat)
    ensures Alone(t, a + b) == Alone(t, a) + Alone(t, b)
  {
    if a == 0 {
      assert [] + Alone(t, b) == Alone(t, b);
    } else {
      AloneAppends(t, a - 1, b);
      assert Alone(t, a + b) == [Step(t, false)] + (Alone(t, a - 1) + Alone(t, b));
    }
  }

  lemma AloneInTwo(s: State, t: nat, a: nat, b: nat)
    requires Sized(s)
    ensures Exec(s, Alone(t, a + b)) == Exec(Exec(s, Alone(t, a)), Alone(t, b))
  {
    AloneAppends(t, a, b);
    ExecInTwo(s, Alone(t, a), Alone(t, b));
  }

  /** The state with thread t somewhere else. */
  function At(s: State, t: nat, pc: Pc): State
    requires t < |s.workers|
  {
    s.(workers := s.workers[t := s.workers[t].(pc := pc)])
  }

  lemma AtTwice(s: State, t: nat, pc: Pc, pc': Pc)
    requires t < |s.workers|
    ensures At(At(s, t, pc), t, pc') == At(s, t, pc')
  {
  }

  /** Slot k is the first free one. */
  ghost predicate FirstFree(s: State, k: nat) {
    k < |s.acquired| && !s.acquired[k] && forall x :: 0 <= x < k ==> s.acquired[x]
  }

  /** `acquire` passes over the taken slots and takes the first free one. */
  lemma {:induction false} AcquireFinds(s: State, t: nat, q: nat, i: nat, k: nat) returns (e: State)
    requires Sized(s) && t < |s.workers| && s.workers[t].pc == Acquire(q, i) && i <= k < |s.acquired|
    requires FirstFree(s, k)
    ensures e == Exec(s, Alone(t, k - i + 1)) && e == At(s, t, Clear(q, k)).(acquired := s.acquired[k := true])
    decreases k - i
  {
    AloneSteps(s, t, k - i);
    if i < k {
      var s' := At(s, t, Acquire(q, i + 1));
      TakenSlotPassed(s, t, q, i);
      e := AcquireFinds(s', t, q, i + 1, k);
      AtTwice(s, t, Acquire(q, i + 1), Clear(q, k));
    } else {
      e := At(s, t, Clear(q, k)).(acquired := s.acquired[k := true]);
      FreeSlotTaken(s, t, q, k);
    }
  }

  lemma TakenSlotPassed(s: State, t: nat, q: nat, i: nat)
    requires Sized(s) && t < |s.workers| && s.workers[t].pc == Acquire(q, i) && i < |s.acquired| && s.acquired[i]
    ensures Apply(s, Step(t, false)) == At(s, t, Acquire(q, i + 1))
  {
  }

  lemma FreeSlotTaken(s: State, t: nat, q: nat, k: nat)
    requires Sized(s) && t < |s.workers| && s.workers[t].pc == Acquire(q, k) && k < |s.acquired| && !s.acquired[k]
    ensures Apply(s, Step(t, false)) == At(s, t, Clear(q, k)).(acquired := s.acquired[k := true])
  {
  }

  /** Clearing and filling the body. */
  lemma BodyWritten(s: State, t: nat, q: nat, x: nat)
    requires Sized(s) && t < |s.workers| && s.workers[t].pc == Clear(q, x) && x < |s.body|
    ensures Exec(s, Alone(t, 2)) == At(s, t, Ticket(q, x)).(body := s.body[x := Word(q)])
  {
    var s1 := At(s, t, Fill(q, x)).(body := s.body[x := 0]);
    AloneSteps(s, t, 1);
    assert Apply(s, Step(t, false)) == s1;
    AloneSteps(s1, t, 0);
    assert s1.body[x := Word(q)] == s.body[x := Word(q)];
    AtTwice(s, t, Fill(q, x), Ticket(q, x));
  }

  lemma AcquiresNext(s: State, t: nat, k: nat)
    requires Sized(s) && t < |s.workers| && s.workers[t].pc.NextOp? && s.workers[t].left > 0
    requires FirstFree(s, k)
    ensures Exec(s, Alone(t, k + 2))
         == At(s, t, Clear(s.nextSequence, k)).(nextSequence := s.nextSequence + 1, acquired := s.acquired[k := true])
  {
    var q := s.nextSequence;
    var s1 := At(s, t, Acquire(q, 0)).(nextSequence := q + 1);
    DrawsSequence(s, t);
    AloneSteps(s, t, k + 1);
    var e := AcquireFinds(s1, t, q, 0, k);
    AtTwice(s, t, Acquire(q, 0), Clear(q, k));
  }

  /** From the start of an operation to the ticket: the message is in hand, ready to be pushed. */
  lemma WritesNext(s: State, t: nat, k: nat)
    requires Sized(s) && t < |s.workers| && s.workers[t].pc.NextOp? && s.workers[t].left > 0
    requires FirstFree(s, k)
    ensures Exec(s, Alone(t, k + 4))
         == At(s, t, Ticket(s.nextSequence, k)).(
              nextSequence := s.nextSequence + 1, acquired := s.acquired[k := true],
              body := s.body[k := Word(s.nextSequence)])
  {
    var q := s.nextSequence;
    AcquiresNext(s, t, k);
    AloneInTwo(s, t, k + 2, 2);
    BodyWritten(Exec(s, Alone(t, k + 2)), t, q, k);
    AtTwice(s, t, Clear(q, k), Ticket(q, k));
  }

  lemma DrawsSequence(s: State, t: nat)
    requires Sized(s) && t < |s.workers| && s.workers[t].pc.NextOp? && s.workers[t].left > 0
    ensures Apply(s, Step(t, false))
         == At(s, t, Acquire(s.nextSequence, 0)).(nextSequence := s.nextSequence + 1)
  {
  }

  /** A new producer with one operation to do. */
  function Joined(s: State): State {
    s.(workers := s.workers + [Worker(1, NextOp)], nextSequence := s.nextSequence + 1)
  }

  /** The new producer up to its ticket. */
  function Holding(s: State, k: nat): State
    requires |s.workers| == k < |s.acquired| == |s.body|
  {
    var j := Joined(s);
    At(j, k, Ticket(j.nextSequence, k)).(
      nextSequence := j.nextSequence + 1, acquired := j.acquired[k := true],
      body := j.body[k := Word(j.nextSequence)])
  }

  lemma JoinsAndHolds(s: State, k: nat) returns (acts: seq<Action>)
    requires Filling(s, k) && k < |s.acquired|
    ensures Exec(s, acts) == Holding(s, k)
  {
    var j := Joined(s);
    acts := [Spawn(Producer, 1)] + Alone(k, k + 4);
    assert acts[1..] == Alone(k, k + 4);
    StepKeepsSizes(s, Spawn(Producer, 1));
    assert Apply(s, Spawn(Producer, 1)) == j;
    WritesNext(j, k, k);
  }

  /** Its push lands in cell k, and is counted. */
  lemma HeldLands(s: State, k: nat)
    requires Filling(s, k) && k < |s.acquired| && k < |s.ring|
    ensures Filling(Exec(Holding(s, k), Alone(k, 3)), k + 1)
    ensures var e := Exec(Holding(s, k), Alone(k, 3)); |e.ring| == |s.ring| && |e.acquired| == |s.acquired|
  {
    var h := Holding(s, k);
    var e := Landed(h, k, h.workers[k].pc.sequence, k, k).(post := Bump(h.post));
    AloneInTwo(h, k, 2, 1);
    ModUnique(k, |s.ring|, 0, k);
    ProbeIsFirst(h.ring, h.post, 0);
    SoloPushSucceeds(h, k, 0);
    FittingValueIsKept(k + 1);
    AloneSteps(e, k, 0);
  }

  lemma PushesNext(s: State, k: nat) returns (acts: seq<Action>)
    requires Filling(s, k) && k < |s.acquired| && k < |s.ring|
    ensures Filling(Exec(s, acts), k + 1)
    ensures |Exec(s, acts).ring| == |s.ring| && |Exec(s, acts).acquired| == |s.acquired|
  {
    var first := JoinsAndHolds(s, k);
    acts := first + Alone(k, 3);
    ExecInTwo(s, first, Alone(k, 3));
    HeldLands(s, k);
  }

  lemma {:induction false} Fills(s: State, k: nat, more: nat) returns (acts: seq<Action>)
    requires Filling(s, k) && k + more <= |s.ring| && k + more <= |s.acquired|
    ensures Filling(Exec(s, acts), k + more)
    ensures |Exec(s, acts).ring| == |s.ring| && |Exec(s, acts).acquired| == |s.acquired|
    decreases more
  {
    if more == 0 {
      acts := [];
    } else {
      var first := PushesNext(s, k);
      var rest := Fills(Exec(s, first), k + 1, more - 1);
      ExecInTwo(s, first, rest);
      acts := first + rest;
    }
  }

  /** A thread that holds a message to push while no cell is free. */
  ghost predicate Blocked(e: State) {
    && (exists t :: 0 <= t < |e.workers| && Written(e.workers[t]).Some?)
    && (forall i :: 0 <= i < |e.ring| ==> e.ring[i].Some?)
  }

  /** With a larger pool: one producer after another, with one operation each, fills the ring, and the
      next one is left with a message and no cell. */
  lemma FullRingIsReached(cap: nat, poolCap: nat) returns (acts: seq<Action>)
    requires RingCapacity(cap) && cap < poolCap
    ensures Blocked(Exec(Fresh(cap, poolCap), acts))
  {
    var s := Fresh(cap, poolCap);
    var first := Fills(s, 0, cap);
    var full := Exec(s, first);
    var rest := JoinsAndHolds(full, cap);
    ExecInTwo(s, first, rest);
    acts := first + rest;
    assert Written(Exec(s, acts).workers[cap]).Some?;
  }

  ghost predicate CanBlock(cap: nat, poolCap: nat)
    requires RingCapacity(cap)
  {
    exists acts :: Blocked(Exec(Fresh(cap, poolCap), acts))
  }

  /** MAIN RESULT 25. Some run of a new program leaves a push without a free cell exactly when the pool is
      larger than the ring. The demo's pool is four times its ring. */
  lemma BlocksExactly(cap: nat, poolCap: nat)
    requires RingCapacity(cap)
    ensures CanBlock(cap, poolCap) <==> poolCap > cap
  {
    if poolCap <= cap {
      forall acts ensures !Blocked(Exec(Fresh(cap, poolCap), acts)) {
        NeverBlocked(cap, poolCap, acts);
      }
    } else {
      var acts := FullRingIsReached(cap, poolCap);
      assert Blocked(Exec(Fresh(cap, poolCap), acts));
    }
  }

  lemma NeverBlocked(cap: nat, poolCap: nat, acts: seq<Action>)
    requires RingCapacity(cap) && poolCap <= cap
    ensures !Blocked(Exec(Fresh(cap, poolCap), acts))
  {
    var s := Fresh(cap, poolCap);
    var e := Exec(s, acts);
    FreshProgramStarts(cap, poolCap);
    forall t: nat | t < |e.workers| && Written(e.workers[t]).Some?
      ensures exists i :: 0 <= i < |e.ring| && e.ring[i].None?
    {
      PendingPushHasRoom(s, seq(poolCap, _ => Nowhere), acts, t);
    }
  }
}
