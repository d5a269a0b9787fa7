/** What the concurrent program guarantees about messages: no body is touched by two threads, every
    consumer reads what the producer of that very push wrote, nothing is delivered twice, and a
    try_pop that fails has a meaning. */
module Deliveries {
  import opened Machine
  import opened Workers

  /** The thread has taken a message and not read it yet. */
  predicate Unread(w: Worker) {
    w.pc.Store? || w.pc.Read?
  }

  /** The message a producer has finished writing and not pushed yet. */
  function Written(w: Worker): Option<(nat, nat)> {
    match w.pc
    case Ticket(q, x) => Some((q, x))
    case Post(q, x, _) => Some((q, x))
    case _ => None
  }

  /** Slot x carries a pushed message that no consumer has read. */
  ghost predicate Live(s: State, at: seq<Place>, x: int) {
    && 0 <= x < |at|
    && (at[x].Cell? || (at[x].Hand? && at[x].t < |s.workers| && Unread(s.workers[at[x].t])))
  }

  /** Delivery d gives its consumer the number its push was made with. */
  ghost predicate Faithful(log: History, d: Delivery) {
    d.id < |log.pushes| && d.value == Word(log.pushes[d.id])
  }

  /** Push number id is on its way: some slot still carries it, unread. */
  ghost predicate Pending(s: State, at: seq<Place>, id: nat) {
    exists x :: Live(s, at, x) && x < |s.log.tag| && s.log.tag[x] == id
  }

  ghost predicate Delivered(log: History, id: nat) {
    exists j :: 0 <= j < |log.delivered| && log.delivered[j].id == id
  }

  ghost predicate Contents(s: State, at: seq<Place>) {
    && Owned(s, at)
    && (forall t :: 0 <= t < |s.workers| && Written(s.workers[t]).Some? ==>
          var (q, x) := Written(s.workers[t]).value; x < |s.body| && s.body[x] == Word(q))
    && (forall x :: Live(s, at, x) ==> Faithful(s.log, Delivery(s.log.tag[x], s.body[x])))
    && (forall x, d :: Live(s, at, x) && d in s.log.delivered ==> d.id != s.log.tag[x])
    && (forall x, y :: Live(s, at, x) && Live(s, at, y) && x != y ==> s.log.tag[x] != s.log.tag[y])
    && (forall d :: d in s.log.delivered ==> Faithful(s.log, d))
    && (forall i, j :: 0 <= i < j < |s.log.delivered| ==> s.log.delivered[i].id != s.log.delivered[j].id)
    && (forall id: nat :: id < |s.log.pushes| ==> Delivered(s.log, id) || Pending(s, at, id))
  }

  lemma ContentsIgnores(s: State, at: seq<Place>, t: nat, w: Worker, s': State, at': seq<Place>)
    requires Contents(s, at) && Owned(s', at') && |at'| == |at|
    requires t < |s.workers| && s'.workers == s.workers[t := w]
    requires s'.body == s.body && s'.log == s.log
    requires forall x :: Live(s', at', x) <==> Live(s, at, x)
    requires Written(w).Some? ==> var (q, x) := Written(w).value; x < |s.body| && s.body[x] == Word(q)
    ensures Contents(s', at')
  {
  }

  /** A write by the one thread that holds the slot. */
  lemma WriteKeepsContents(s: State, at: seq<Place>, t: nat, w: Worker, x: nat, v: nat, s': State)
    requires Contents(s, at) && Owned(s', at)
    requires t < |s.workers| && Held(s.workers[t]) == Some(x) && !Unread(s.workers[t]) && !Unread(w)
    requires s'.workers == s.workers[t := w] && s'.log == s.log
    requires s'.body == s.body[x := v]
    requires Written(w).Some? ==> Written(w).value.1 == x && v == Word(Written(w).value.0)
    ensures Contents(s', at)
  {
    assert at[x] == Hand(t);
    forall u | 0 <= u < |s'.workers| && u != t && Written(s'.workers[u]).Some?
      ensures Written(s'.workers[u]).value.1 != x
    {
      assert Held(s.workers[u]) == Some(Written(s.workers[u]).value.1);
    }
    assert forall y :: Live(s', at, y) <==> Live(s, at, y);
    assert !Live(s, at, x);
  }

  lemma PushKeepsContents(s: State, at: seq<Place>, t: nat, w: Worker, q: nat, x: nat, c: nat, s': State)
    requires Contents(s, at) && t < |s.workers| && Written(s.workers[t]) == Some((q, x))
    requires x < |at| && Owned(s', at[x := Cell(c)])
    requires s'.workers == s.workers[t := w] && Written(w) == None && s'.body == s.body
    requires s'.log == s.log.(pushes := s.log.pushes + [q], tag := s.log.tag[x := |s.log.pushes|])
    ensures Contents(s', at[x := Cell(c)])
  {
    var at' := at[x := Cell(c)];
    assert Held(s.workers[t]) == Some(x);
    assert forall y :: Live(s', at', y) ==> y == x || Live(s, at, y);
    assert !Live(s, at, x);
    PushIsNew(s, at, q, x, s', at');
    PushKeepsPending(s, at, t, w, x, c, s');
  }

  /** The new push has a number no message on its way and no delivery has. */
  lemma PushIsNew(s: State, at: seq<Place>, q: nat, x: nat, s': State, at': seq<Place>)
    requires Contents(s, at) && !Live(s, at, x) && x < |s.body| && s.body[x] == Word(q)
    requires s'.body == s.body && |at'| == |at|
    requires s'.log == s.log.(pushes := s.log.pushes + [q], tag := s.log.tag[x := |s.log.pushes|])
    requires forall y :: Live(s', at', y) ==> y == x || Live(s, at, y)
    ensures forall y :: Live(s', at', y) ==> Faithful(s'.log, Delivery(s'.log.tag[y], s'.body[y]))
    ensures forall y, d :: Live(s', at', y) && d in s'.log.delivered ==> d.id != s'.log.tag[y]
    ensures forall y, z :: Live(s', at', y) && Live(s', at', z) && y != z ==> s'.log.tag[y] != s'.log.tag[z]
    ensures forall d :: d in s'.log.delivered ==> Faithful(s'.log, d)
  {
    assert forall d :: d in s.log.delivered ==> Faithful(s.log, d);
    assert forall y :: Live(s, at, y) ==> Faithful(s.log, Delivery(s.log.tag[y], s.body[y]));
  }

  /** What was on its way still is, and the new push is too. */
  lemma PushKeepsPending(s: State, at: seq<Place>, t: nat, w: Worker, x: nat, c: nat, s': State)
    requires Contents(s, at) && t < |s.workers| && Held(s.workers[t]) == Some(x) && !Unread(s.workers[t])
    requires x < |at| && s'.workers == s.workers[t := w] && s'.log.delivered == s.log.delivered
    requires |s'.log.pushes| == |s.log.pushes| + 1 && s'.log.tag == s.log.tag[x := |s.log.pushes|]
    ensures forall id: nat :: id < |s'.log.pushes| ==> Delivered(s'.log, id) || Pending(s', at[x := Cell(c)], id)
  {
    var at' := at[x := Cell(c)];
    forall id: nat | id < |s'.log.pushes| ensures Delivered(s'.log, id) || Pending(s', at', id) {
      if id == |s.log.pushes| {
        assert Live(s', at', x);
      } else if Pending(s, at, id) {
        var y :| Live(s, at, y) && s.log.tag[y] == id;
        assert Live(s', at', y);
      }
    }
  }

  /** What was on its way and is not the message read still is, and that one is delivered. */
  lemma ReadKeepsPending(s: State, at: seq<Place>, x: nat, s': State)
    requires Contents(s, at) && x < |s.body| && s'.log.tag == s.log.tag && s'.log.pushes == s.log.pushes
    requires s'.log.delivered == s.log.delivered + [Delivery(s.log.tag[x], s.body[x])]
    requires forall y :: Live(s', at, y) <==> y != x && Live(s, at, y)
    ensures forall id: nat :: id < |s.log.pushes| ==> Delivered(s'.log, id) || Pending(s', at, id)
  {
    forall id: nat | id < |s.log.pushes| ensures Delivered(s'.log, id) || Pending(s', at, id) {
      if id == s.log.tag[x] {
        assert s'.log.delivered[|s.log.delivered|].id == id;
      } else if Delivered(s.log, id) {
        var j :| 0 <= j < |s.log.delivered| && s.log.delivered[j].id == id;
        assert s'.log.delivered[j].id == id;
      } else {
        var y :| Live(s, at, y) && s.log.tag[y] == id;
        assert Live(s', at, y);
      }
    }
  }

  /** The message read was not delivered before, and is no longer on its way. */
  lemma ReadDelivers(s: State, at: seq<Place>, x: nat, s': State)
    requires Contents(s, at) && Live(s, at, x) && x < |s.body|
    requires s'.log == s.log.(delivered := s.log.delivered + [Delivery(s.log.tag[x], s.body[x])])
    requires forall y :: Live(s', at, y) <==> y != x && Live(s, at, y)
    ensures forall y, d :: Live(s', at, y) && d in s'.log.delivered ==> d.id != s'.log.tag[y]
    ensures forall d :: d in s'.log.delivered ==> Faithful(s'.log, d)
    ensures forall i, j :: 0 <= i < j < |s'.log.delivered| ==> s'.log.delivered[i].id != s'.log.delivered[j].id
  {
    var last := Delivery(s.log.tag[x], s.body[x]);
    assert Faithful(s.log, last);
    assert forall d :: d in s'.log.delivered <==> d in s.log.delivered || d == last;
    assert forall i :: 0 <= i < |s.log.delivered| ==> s.log.delivered[i] in s.log.delivered;
  }

  lemma ReadKeepsContents(s: State, at: seq<Place>, t: nat, w: Worker, x: nat, s': State)
    requires Contents(s, at) && Owned(s', at)
    requires t < |s.workers| && s.workers[t].pc == Read(x) && !Unread(w) && Written(w) == None
    requires s'.workers == s.workers[t := w] && s'.body == s.body
    requires x < |s.body|
    requires s'.log == s.log.(delivered := s.log.delivered + [Delivery(s.log.tag[x], s.body[x])])
    ensures Contents(s', at)
  {
    assert Held(s.workers[t]) == Some(x);
    assert Live(s, at, x);
    assert forall y :: Live(s', at, y) <==> y != x && Live(s, at, y);
    ReadKeepsPending(s, at, x, s');
    ReadDelivers(s, at, x, s');
  }

  lemma ProducerKeepsContents(s: State, at: seq<Place>, t: nat, spurious: bool)
    requires Contents(s, at) && t < |s.workers| && ProducerPc(s.workers[t].pc)
    ensures Contents(Apply(s, Step(t, spurious)), Moved(s, at, Step(t, spurious)))
  {
    ProducerKeepsOwnership(s, at, t, spurious);
    var pc := s.workers[t].pc;
    if pc.Clear? || pc.Fill? {
      BodyWriteKeepsContents(s, at, t, spurious);
    } else if pc.Post? {
      PostKeepsContents(s, at, t, spurious);
    } else if pc.Acquire? {
      AcquireKeepsContents(s, at, t, spurious);
    } else {
      PlainProducerKeepsContents(s, at, t, spurious);
    }
  }

  lemma BodyWriteKeepsContents(s: State, at: seq<Place>, t: nat, spurious: bool)
    requires Contents(s, at) && t < |s.workers| && (s.workers[t].pc.Clear? || s.workers[t].pc.Fill?)
    requires Owned(Apply(s, Step(t, spurious)), Moved(s, at, Step(t, spurious)))
    ensures Contents(Apply(s, Step(t, spurious)), Moved(s, at, Step(t, spurious)))
  {
    var s' := Apply(s, Step(t, spurious));
    var pc := s.workers[t].pc;
    assert Held(s.workers[t]) == Some(pc.slot);
    WriteKeepsContents(s, at, t, s'.workers[t], pc.slot, if pc.Clear? then 0 else Word(pc.sequence), s');
  }

  lemma AcquireKeepsLive(s: State, at: seq<Place>, t: nat, spurious: bool)
    requires Contents(s, at) && t < |s.workers|
    requires s.workers[t].pc.Acquire?
    ensures var s' := Apply(s, Step(t, spurious));
      && s'.body == s.body && s'.log == s.log && t < |s'.workers| && !Unread(s'.workers[t])
      && forall y :: Live(s', Moved(s, at, Step(t, spurious)), y) <==> Live(s, at, y)
  {
  }

  lemma AcquireKeepsContents(s: State, at: seq<Place>, t: nat, spurious: bool)
    requires Contents(s, at) && t < |s.workers|
    requires s.workers[t].pc.Acquire?
    requires Owned(Apply(s, Step(t, spurious)), Moved(s, at, Step(t, spurious)))
    ensures Contents(Apply(s, Step(t, spurious)), Moved(s, at, Step(t, spurious)))
  {
    var s' := Apply(s, Step(t, spurious));
    AcquireKeepsLive(s, at, t, spurious);
    ContentsIgnores(s, at, t, s'.workers[t], s', Moved(s, at, Step(t, spurious)));
  }

  lemma PostKeepsContents(s: State, at: seq<Place>, t: nat, spurious: bool)
    requires Contents(s, at) && t < |s.workers| && s.workers[t].pc.Post?
    requires Owned(Apply(s, Step(t, spurious)), Moved(s, at, Step(t, spurious)))
    ensures Contents(Apply(s, Step(t, spurious)), Moved(s, at, Step(t, spurious)))
  {
    var s' := Apply(s, Step(t, spurious));
    var Post(q, x, c) := s.workers[t].pc;
    if c < |s.ring| && s.ring[c].None? && !spurious {
      PushKeepsContents(s, at, t, s'.workers[t], q, x, c, s');
    } else {
      assert forall y :: Live(s', at, y) ==> Live(s, at, y);
      ContentsIgnores(s, at, t, s'.workers[t], s', at);
    }
  }

  lemma PlainProducerKeepsLive(s: State, at: seq<Place>, t: nat, spurious: bool)
    requires Contents(s, at) && t < |s.workers|
    requires var pc := s.workers[t].pc; pc.NextOp? || pc.Ticket? || pc.CountPush?
    ensures var s' := Apply(s, Step(t, spurious));
      && s'.body == s.body && s'.log == s.log && t < |s'.workers| && !Unread(s'.workers[t])
      && forall y :: Live(s', Moved(s, at, Step(t, spurious)), y) <==> Live(s, at, y)
  {
  }

  lemma PlainProducerKeepsContents(s: State, at: seq<Place>, t: nat, spurious: bool)
    requires Contents(s, at) && t < |s.workers|
    requires var pc := s.workers[t].pc; pc.NextOp? || pc.Ticket? || pc.CountPush?
    requires Owned(Apply(s, Step(t, spurious)), Moved(s, at, Step(t, spurious)))
    ensures Contents(Apply(s, Step(t, spurious)), Moved(s, at, Step(t, spurious)))
  {
    var s' := Apply(s, Step(t, spurious));
    PlainProducerKeepsLive(s, at, t, spurious);
    ContentsIgnores(s, at, t, s'.workers[t], s', Moved(s, at, Step(t, spurious)));
  }

  lemma ConsumerKeepsContents(s: State, at: seq<Place>, t: nat, spurious: bool)
    requires Contents(s, at) && t < |s.workers| && !ProducerPc(s.workers[t].pc)
    ensures Contents(Apply(s, Step(t, spurious)), Moved(s, at, Step(t, spurious)))
  {
    ConsumerKeepsOwnership(s, at, t, spurious);
    var pc := s.workers[t].pc;
    if pc.Read? {
      ReadKeepsContents(s, at, t, s.workers[t].(pc := Release(pc.slot)), pc.slot, Apply(s, Step(t, spurious)));
    } else if pc.Scan? {
      ScanKeepsContents(s, at, t, spurious);
    } else if pc.Release? {
      ReleaseKeepsContents(s, at, t, spurious);
    } else {
      PlainConsumerKeepsContents(s, at, t, spurious);
    }
  }

  lemma ReleaseKeepsLive(s: State, at: seq<Place>, t: nat, spurious: bool)
    requires Contents(s, at) && t < |s.workers| && s.workers[t].pc.Release?
    ensures var s', at' := Apply(s, Step(t, spurious)), Moved(s, at, Step(t, spurious));
      && s'.body == s.body && s'.log == s.log && |s'.workers| == |s.workers| && |at'| == |at|
      && s'.workers == s.workers[t := s'.workers[t]] && Written(s'.workers[t]) == None
      && forall y :: Live(s', at', y) <==> Live(s, at, y)
  {
    var x := s.workers[t].pc.slot;
    assert Held(s.workers[t]) == Some(x) && at[x] == Hand(t);
    StepMovesOne(s, t, spurious);
  }

  lemma ReleaseKeepsContents(s: State, at: seq<Place>, t: nat, spurious: bool)
    requires Contents(s, at) && t < |s.workers| && s.workers[t].pc.Release?
    requires Owned(Apply(s, Step(t, spurious)), Moved(s, at, Step(t, spurious)))
    ensures Contents(Apply(s, Step(t, spurious)), Moved(s, at, Step(t, spurious)))
  {
    var s', at' := Apply(s, Step(t, spurious)), Moved(s, at, Step(t, spurious));
    ReleaseKeepsLive(s, at, t, spurious);
    ContentsIgnores(s, at, t, s'.workers[t], s', at');
  }

  lemma PlainConsumerKeepsLive(s: State, at: seq<Place>, t: nat, spurious: bool)
    requires Contents(s, at) && t < |s.workers|
    requires var pc := s.workers[t].pc; pc.NextTake? || pc.Store? || pc.CountPop? || pc.Done?
    ensures Moved(s, at, Step(t, spurious)) == at
    ensures var s' := Apply(s, Step(t, spurious));
      && s'.body == s.body && s'.log == s.log && t < |s'.workers| && Written(s'.workers[t]) == None
      && forall y :: Live(s', at, y) <==> Live(s, at, y)
  {
  }

  lemma PlainConsumerKeepsContents(s: State, at: seq<Place>, t: nat, spurious: bool)
    requires Contents(s, at) && t < |s.workers|
    requires var pc := s.workers[t].pc; pc.NextTake? || pc.Store? || pc.CountPop? || pc.Done?
    requires Owned(Apply(s, Step(t, spurious)), Moved(s, at, Step(t, spurious)))
    ensures Contents(Apply(s, Step(t, spurious)), Moved(s, at, Step(t, spurious)))
  {
    var s' := Apply(s, Step(t, spurious));
    PlainConsumerKeepsLive(s, at, t, spurious);
    ContentsIgnores(s, at, t, s'.workers[t], s', at);
  }

  /** A thread that held nothing takes slot x out of its cell: the message stays live. */
  lemma TakingKeepsLive(s: State, at: seq<Place>, t: nat, w: Worker, x: nat, s': State)
    requires Owned(s, at) && t < |s.workers| && Held(s.workers[t]) == None
    requires s'.workers == s.workers[t := w] && Unread(w) && x < |at| && at[x].Cell?
    ensures forall y :: Live(s', at[x := Hand(t)], y) <==> Live(s, at, y)
  {
    assert forall y :: 0 <= y < |at| ==> at[y] != Hand(t);
  }

  /** A thread that held nothing goes on holding nothing. */
  lemma PassingKeepsLive(s: State, at: seq<Place>, t: nat, w: Worker, s': State)
    requires Owned(s, at) && t < |s.workers| && Held(s.workers[t]) == None
    requires s'.workers == s.workers[t := w]
    ensures forall y :: Live(s', at, y) <==> Live(s, at, y)
  {
    assert forall y :: 0 <= y < |at| ==> at[y] != Hand(t);
  }

  /** A scan step moves at most one slot, from a cell to a hand: the message stays live. */
  lemma ScanKeepsLive(s: State, at: seq<Place>, t: nat, spurious: bool)
    requires Contents(s, at) && t < |s.workers| && s.workers[t].pc.Scan?
    ensures var s' := Apply(s, Step(t, spurious));
      && s'.body == s.body && s'.log == s.log && t < |s'.workers| && Written(s'.workers[t]) == None
      && forall y :: Live(s', Moved(s, at, Step(t, spurious)), y) <==> Live(s, at, y)
  {
    var s' := Apply(s, Step(t, spurious));
    var Scan(start, probe, _) := s.workers[t].pc;
    CellIsCursorMod(start + probe, |s.ring|);
    var idx := CellOf(start + probe, |s.ring|);
    assert s'.workers == s.workers[t := s'.workers[t]];
    if probe < |s.ring| && s.ring[idx].Some? {
      var x := s.ring[idx].value;
      assert at[x] == Cell(idx) && Moved(s, at, Step(t, spurious)) == at[x := Hand(t)];
      TakingKeepsLive(s, at, t, s'.workers[t], x, s');
    } else {
      assert Moved(s, at, Step(t, spurious)) == at;
      PassingKeepsLive(s, at, t, s'.workers[t], s');
    }
  }

  lemma ScanKeepsContents(s: State, at: seq<Place>, t: nat, spurious: bool)
    requires Contents(s, at) && t < |s.workers| && s.workers[t].pc.Scan?
    requires Owned(Apply(s, Step(t, spurious)), Moved(s, at, Step(t, spurious)))
    ensures Contents(Apply(s, Step(t, spurious)), Moved(s, at, Step(t, spurious)))
  {
    var s' := Apply(s, Step(t, spurious));
    ScanKeepsLive(s, at, t, spurious);
    ContentsIgnores(s, at, t, s'.workers[t], s', Moved(s, at, Step(t, spurious)));
  }

  lemma SpawnKeepsContents(s: State, at: seq<Place>, a: Action)
    requires Contents(s, at) && (a.Step? ==> a.t >= |s.workers|)
    requires Owned(Apply(s, a), at)
    ensures Contents(Apply(s, a), at)
  {
    var s' := Apply(s, a);
    assert forall x :: Live(s', at, x) <==> Live(s, at, x);
    forall id: nat | id < |s.log.pushes| && Pending(s, at, id) ensures Pending(s', at, id) {
      var x :| Live(s, at, x) && s.log.tag[x] == id;
      assert Live(s', at, x);
    }
  }

  lemma StepKeepsContents(s: State, at: seq<Place>, a: Action)
    requires Contents(s, at)
    ensures Contents(Apply(s, a), Moved(s, at, a))
  {
    StepKeepsOwnership(s, at, a);
    if a.Step? && a.t < |s.workers| {
      if ProducerPc(s.workers[a.t].pc) {
        ProducerKeepsContents(s, at, a.t, a.spurious);
      } else {
        ConsumerKeepsContents(s, at, a.t, a.spurious);
      }
    } else {
      SpawnKeepsContents(s, at, a);
    }
  }
}
