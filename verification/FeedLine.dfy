/** The inlet protocol with a bounded pool and a bounded market queue behind the reader, and threads that
    take messages off the queue and release slots at any time. */
module FeedLine {
  import opened Machine
  import opened Messages
  import opened Decoding
  import opened Inlet
  import opened Lockstep

  /** The history `inlet.market` is the list of all messages decoded so far. */
  datatype Line = Line(
    inlet: State,
    inbox: seq<Message>,       // decoded from the frame being ingested and not offered yet
    hand: Option<Message>,     // in an acquired slot, about to be pushed
    free: nat,                 // free slots of the pool
    queue: seq<Message>,       // the market queue
    out: nat,                  // slots taken off the queue and not released yet
    taken: seq<Message>,       // history: messages taken off the queue, in order
    fates: seq<bool>)          // history: of every message offered, whether it found a slot

  datatype Move = WriterMoves | ReaderMoves | TakeHead | ReleaseSlot

  // ----- The program -----

  /** The reader pushes the slot in its hand, spinning on a full queue; else it offers the next decoded
      message a slot; else it goes on with the inlet. */
  function ReaderMove(y: Line, cap: nat, lz4: Lz4): Line {
    if y.hand.Some? then
      if |y.queue| < cap then y.(queue := y.queue + [y.hand.value], hand := None) else y
    else if y.inbox != [] then
      if y.free > 0 then
        y.(inbox := y.inbox[1..], hand := Some(y.inbox[0]), free := y.free - 1, fates := y.fates + [true])
      else y.(inbox := y.inbox[1..], fates := y.fates + [false])
    else
      var s := ReaderStep(y.inlet, lz4);
      y.(inlet := s, inbox := if |y.inlet.market| <= |s.market| then s.market[|y.inlet.market|..] else [])
  }

  function Moved(y: Line, m: Move, cap: nat, lz4: Lz4): Line {
    match m
    case WriterMoves => y.(inlet := WriterStep(y.inlet))
    case ReaderMoves => ReaderMove(y, cap, lz4)
    case TakeHead =>
      if y.queue == [] then y
      else y.(queue := y.queue[1..], taken := y.taken + [y.queue[0]], out := y.out + 1)
    case ReleaseSlot => if y.out == 0 then y else y.(out := y.out - 1, free := y.free + 1)
  }

  function Run(y: Line, moves: seq<Move>, cap: nat, lz4: Lz4): Line
    decreases |moves|
  {
    if moves == [] then y else Run(Moved(y, moves[0], cap, lz4), moves[1..], cap, lz4)
  }

  // ----- What every move keeps -----

  /** The messages that found a slot, in order. */
  function Chosen(ms: seq<Message>, fates: seq<bool>): seq<Message>
    requires |fates| <= |ms|
  {
    if fates == [] then []
    else
      var last := |fates| - 1;
      Chosen(ms, fates[..last]) + if fates[last] then [ms[last]] else []
  }

  lemma OneMoreFate(ms: seq<Message>, fates: seq<bool>, fate: bool)
    requires |fates| < |ms|
    ensures Chosen(ms, fates + [fate]) == Chosen(ms, fates) + if fate then [ms[|fates|]] else []
  {
    assert (fates + [fate])[..|fates|] == fates;
  }

  lemma {:induction false} ChosenIgnoresTail(ms: seq<Message>, more: seq<Message>, fates: seq<bool>)
    requires |fates| <= |ms|
    ensures Chosen(ms + more, fates) == Chosen(ms, fates)
  {
    if fates != [] { ChosenIgnoresTail(ms, more, fates[..|fates| - 1]); }
  }

  function InHand(y: Line): seq<Message> {
    if y.hand.Some? then [y.hand.value] else []
  }

  /** Every decoded message is offered in order; the ones that found a slot are taken, queued or in hand. */
  ghost predicate Delivered(y: Line) {
    && |y.fates| + |y.inbox| == |y.inlet.market|
    && y.inbox == y.inlet.market[|y.fates|..]
    && y.taken + y.queue + InHand(y) == Chosen(y.inlet.market, y.fates)
  }

  /** Every slot of the pool is free, in hand, queued or taken; the queue is within its capacity; and the
      first `poolCap` messages offered found a slot. */
  ghost predicate Slotted(y: Line, poolCap: nat, cap: nat) {
    && y.free + |InHand(y)| + |y.queue| + y.out == poolCap
    && y.out <= |y.taken| && |y.queue| <= cap
    && (forall i :: 0 <= i < |y.fates| && i < poolCap ==> y.fates[i])
  }

  /** The reader acknowledges only when all is offered and pushed. */
  ghost predicate Pending(y: Line) {
    y.inbox != [] || y.hand.Some? ==> y.inlet.reader.Acking?
  }

  lemma {:induction false} ChosenCount(ms: seq<Message>, fates: seq<bool>)
    requires |fates| <= |ms|
    ensures |Chosen(ms, fates)| <= |fates|
  {
    if fates != [] { ChosenCount(ms, fates[..|fates| - 1]); }
  }

  lemma OfferKeepsDelivered(y: Line, cap: nat, lz4: Lz4)
    requires Delivered(y) && y.hand.None? && y.inbox != []
    ensures Delivered(ReaderMove(y, cap, lz4))
  {
    var m := y.inbox[0];
    assert m == y.inlet.market[|y.fates|];
    OneMoreFate(y.inlet.market, y.fates, y.free > 0);
    assert y.taken + y.queue + [] == y.taken + y.queue;
    assert y.inlet.market[|y.fates|..][1..] == y.inlet.market[|y.fates| + 1..];
  }

  lemma OfferKeepsSlotted(y: Line, poolCap: nat, cap: nat, lz4: Lz4)
    requires Delivered(y) && Slotted(y, poolCap, cap) && y.hand.None? && y.inbox != []
    ensures Slotted(ReaderMove(y, cap, lz4), poolCap, cap)
  {
    if y.free == 0 {
      ChosenCount(y.inlet.market, y.fates);
      assert |y.taken + y.queue| <= |y.fates|;
    }
  }

  lemma PushKeepsDelivered(y: Line, cap: nat, lz4: Lz4)
    requires Delivered(y) && y.hand.Some?
    ensures Delivered(ReaderMove(y, cap, lz4))
  {
    if |y.queue| < cap {
      var z := ReaderMove(y, cap, lz4);
      assert z.taken + z.queue + [] == y.taken + y.queue + [y.hand.value];
    }
  }

  lemma MarketGrows(s: State, lz4: Lz4)
    ensures s.market <= ReaderStep(s, lz4).market
    ensures !s.reader.Ingesting? ==> ReaderStep(s, lz4).market == s.market
    ensures s.reader.Ingesting? ==> ReaderStep(s, lz4) == s || ReaderStep(s, lz4).reader.Acking?
  {
  }

  lemma InletKeepsDelivered(y: Line, cap: nat, lz4: Lz4)
    requires Delivered(y) && y.hand.None? && y.inbox == []
    ensures Delivered(ReaderMove(y, cap, lz4)) && Pending(ReaderMove(y, cap, lz4))
  {
    var s, t := y.inlet, ReaderStep(y.inlet, lz4);
    MarketGrows(s, lz4);
    var more := t.market[|s.market|..];
    assert t.market == s.market + more;
    ChosenIgnoresTail(s.market, more, y.fates);
  }

  lemma TakeKeepsDelivered(y: Line, cap: nat, lz4: Lz4)
    requires Delivered(y) && y.queue != []
    ensures Delivered(Moved(y, TakeHead, cap, lz4))
  {
    assert y.taken + [y.queue[0]] + y.queue[1..] == y.taken + y.queue;
  }

  ghost predicate Steady(y: Line, poolCap: nat, cap: nat) {
    Delivered(y) && Slotted(y, poolCap, cap) && Pending(y)
  }

  lemma ReaderKeepsSteady(y: Line, poolCap: nat, cap: nat, lz4: Lz4)
    requires Steady(y, poolCap, cap)
    ensures Steady(ReaderMove(y, cap, lz4), poolCap, cap)
  {
    if y.hand.Some? {
      PushKeepsDelivered(y, cap, lz4);
    } else if y.inbox != [] {
      OfferKeepsDelivered(y, cap, lz4);
      OfferKeepsSlotted(y, poolCap, cap, lz4);
    } else {
      InletKeepsDelivered(y, cap, lz4);
    }
  }

  lemma WriterLeavesReader(s: State)
    ensures var t := WriterStep(s);
      t.market == s.market && t.reader == s.reader && t.processed == s.processed
  {
  }

  lemma MoveKeepsSteady(y: Line, m: Move, poolCap: nat, cap: nat, lz4: Lz4)
    requires Steady(y, poolCap, cap)
    ensures Steady(Moved(y, m, cap, lz4), poolCap, cap)
  {
    match m
    case WriterMoves => WriterLeavesReader(y.inlet);
    case ReaderMoves => ReaderKeepsSteady(y, poolCap, cap, lz4);
    case TakeHead => if y.queue != [] { TakeKeepsDelivered(y, cap, lz4); }
    case ReleaseSlot =>
  }

  /** A message is refused only when every slot of the pool is queued or taken; and with a pool no larger than
      the queue the reader never waits for room. */
  lemma RefusedOnlyWhenFull(y: Line, poolCap: nat, cap: nat, lz4: Lz4)
    requires Steady(y, poolCap, cap)
    ensures ReaderMove(y, cap, lz4).fates == y.fates + [false] ==> |y.queue| + y.out == poolCap
    ensures y.hand.Some? && poolCap <= cap ==> |y.queue| < cap
  {
    if y.hand.None? && y.inbox != [] && y.free > 0 {
      assert (y.fates + [true])[|y.fates|];
    }
  }

  // ----- Whole runs -----

  /** The inlet in a line runs as if it were alone: a move of the line is a step of the inlet or none. */
  lemma MoveRefinesInlet(y: Line, m: Move, cap: nat, lz4: Lz4) returns (acts: seq<Actor>)
    ensures Moved(y, m, cap, lz4).inlet == Exec(y.inlet, acts, lz4)
    ensures |acts| <= 1
  {
    if m.WriterMoves? {
      acts := [TheWriter];
    } else if m.ReaderMoves? && y.hand.None? && y.inbox == [] {
      acts := [TheReader];
    } else {
      acts := [];
    }
    if acts != [] {
      assert acts[1..] == [];
      assert Exec(Apply(y.inlet, acts[0], lz4), [], lz4) == Apply(y.inlet, acts[0], lz4);
    }
  }

  lemma ExecPrepends(s: State, first: seq<Actor>, rest: seq<Actor>, lz4: Lz4)
    requires |first| <= 1
    ensures Exec(s, first + rest, lz4) == Exec(Exec(s, first, lz4), rest, lz4)
  {
    if first == [] {
      assert first + rest == rest;
    } else {
      assert first[1..] == [] && (first + rest)[1..] == rest;
      assert Exec(Apply(s, first[0], lz4), [], lz4) == Apply(s, first[0], lz4);
    }
  }

  lemma {:induction false} RunRefinesInlet(y: Line, moves: seq<Move>, cap: nat, lz4: Lz4) returns (acts: seq<Actor>)
    ensures Run(y, moves, cap, lz4).inlet == Exec(y.inlet, acts, lz4)
    decreases |moves|
  {
    if moves == [] {
      acts := [];
    } else {
      var first := MoveRefinesInlet(y, moves[0], cap, lz4);
      var rest := RunRefinesInlet(Moved(y, moves[0], cap, lz4), moves[1..], cap, lz4);
      ExecPrepends(y.inlet, first, rest, lz4);
      acts := first + rest;
    }
  }

  lemma {:induction false} RunKeepsSteady(y: Line, moves: seq<Move>, poolCap: nat, cap: nat, lz4: Lz4)
    requires Steady(y, poolCap, cap)
    ensures Steady(Run(y, moves, cap, lz4), poolCap, cap)
    decreases |moves|
  {
    if moves != [] {
      MoveKeepsSteady(y, moves[0], poolCap, cap, lz4);
      RunKeepsSteady(Moved(y, moves[0], cap, lz4), moves[1..], poolCap, cap, lz4);
    }
  }

  /** A new pool and an empty queue behind an inlet at rest. */
  ghost predicate Fresh(y: Line, lz4: Lz4) {
    && Start(y.inlet) && y.inlet.waits && AllReturn(lz4, y.inlet.todo)
    && y.inbox == [] && y.hand == None && y.queue == [] && y.out == 0 && y.taken == [] && y.fates == []
  }

  /** MAIN RESULT 30. Result 10 with a bounded pool and a bounded queue. In every run in which the writer
      waits, whoever takes messages and releases slots in between: the reader still handles the accepted
      frames once each, in order and untorn; when it is not in the middle of ingesting, the messages taken
      off the market queue and those still in it are, in order, the decoded messages of the handled frames
      that found a slot; the first messages, as many as the pool has slots, all find one, and later ones are
      refused only when every slot is queued or taken; the queue stays within its capacity; and every slot is
      free, in the reader's hand, queued or taken. */
  lemma LineDeliversLog(y: Line, moves: seq<Move>, cap: nat, lz4: Lz4)
    requires Fresh(y, lz4)
    ensures var e := Run(y, moves, cap, lz4);
      && e.inlet.frames <= AcceptedFrames(y.inlet.todo) && e.inlet.handled <= e.inlet.frames
      && (forall f :: f in e.inlet.handled ==> Returns(lz4, f))
      && (!e.inlet.reader.Acking? ==>
            var decoded := AllMessages(lz4, e.inlet.handled);
            |e.fates| == |decoded| && e.taken + e.queue == Chosen(decoded, e.fates))
      && (forall i :: 0 <= i < |e.fates| && i < y.free ==> e.fates[i])
      && |e.queue| <= cap && e.free + |InHand(e)| + |e.queue| + e.out == y.free
      && (e.inlet.writer.Calling? && e.inlet.todo == [] ==>
            !e.inlet.reader.Acking? && e.inlet.handled == AcceptedFrames(y.inlet.todo))
      && (ReaderMove(e, cap, lz4).fates == e.fates + [false] ==> |e.queue| + e.out == y.free)
  {
    var e := Run(y, moves, cap, lz4);
    RunKeepsSteady(y, moves, y.free, cap, lz4);
    var acts := RunRefinesInlet(y, moves, cap, lz4);
    ReaderRefinesPublishedLog(y.inlet, acts, lz4);
    WritesAndReadsNeverOverlap(y.inlet, acts, lz4);
    RefusedOnlyWhenFull(e, y.free, cap, lz4);
    if !e.inlet.reader.Acking? {
      assert e.taken + e.queue + [] == e.taken + e.queue;
    }
  }

  // ----- The wait ends -----

  /** Twice the number of messages of the newest frame, until they are decoded. */
  ghost function Undecoded(s: State, lz4: Lz4): nat {
    if s.reader.Acking? || |s.frames| != |s.handled| + 1 || !Returns(lz4, s.frames[|s.handled|]) then 0
    else 2 * |FrameMessages(lz4, s.frames[|s.handled|])|
  }

  /** A bound on the moves the reader still needs to acknowledge the newest frame. */
  ghost function MovesLeft(y: Line, lz4: Lz4): nat {
    Remaining(y.inlet) + Undecoded(y.inlet, lz4) + 2 * |y.inbox| + |InHand(y)|
  }

  function ReaderMovesIn(moves: seq<Move>): nat {
    if moves == [] then 0 else (if moves[0] == ReaderMoves then 1 else 0) + ReaderMovesIn(moves[1..])
  }

  lemma DecodingLeavesAsMuch(s: State, base: nat, lz4: Lz4)
    requires Synced(s, base, lz4) && s.writer.Waiting? && s.processed < s.writer.n
    ensures var t := ReaderStep(s, lz4);
      t.processed == s.processed ==>
        && |s.market| <= |t.market|
        && Undecoded(t, lz4) + 2 * (|t.market| - |s.market|) <= Undecoded(s, lz4)
  {
    var t := ReaderStep(s, lz4);
    if s.reader.Ingesting? {
      assert s.reader.g == s.frames[|s.handled|];
    } else if !s.reader.Acking? {
      assert t.frames == s.frames && t.handled == s.handled && t.market == s.market;
    }
  }

  lemma ReaderMoveProgresses(y: Line, poolCap: nat, cap: nat, base: nat, lz4: Lz4)
    requires Steady(y, poolCap, cap) && poolCap <= cap && Synced(y.inlet, base, lz4)
    requires y.inlet.writer.Waiting? && y.inlet.processed < y.inlet.writer.n
    ensures var z := ReaderMove(y, cap, lz4);
      && z.inlet.writer == y.inlet.writer && Synced(z.inlet, base, lz4)
      && (z.inlet.processed == y.inlet.writer.n
          || (z.inlet.processed == y.inlet.processed && MovesLeft(z, lz4) < MovesLeft(y, lz4)))
  {
    if y.hand.Some? {
      RefusedOnlyWhenFull(y, poolCap, cap, lz4);
    } else if y.inbox == [] {
      ReaderProgresses(y.inlet, base, lz4);
      ReaderKeepsSynced(y.inlet, base, lz4);
      DecodingLeavesAsMuch(y.inlet, base, lz4);
      MarketGrows(y.inlet, lz4);
    }
  }

  /** While the writer spins, no other move changes what the reader has left to do. */
  lemma OtherMovesLeaveReader(y: Line, m: Move, cap: nat, lz4: Lz4)
    requires !m.ReaderMoves? && y.inlet.writer.Waiting? && y.inlet.processed < y.inlet.writer.n
    ensures var z := Moved(y, m, cap, lz4);
      z.inlet == y.inlet && MovesLeft(z, lz4) == MovesLeft(y, lz4)
  {
    assert WriterStep(y.inlet) == y.inlet;
  }

  lemma LineNeverFalls(y: Line, moves: seq<Move>, cap: nat, base: nat, lz4: Lz4)
    requires Synced(y.inlet, base, lz4)
    ensures y.inlet.processed <= Run(y, moves, cap, lz4).inlet.processed
  {
    var acts := RunRefinesInlet(y, moves, cap, lz4);
    ProcessedNeverFalls(y.inlet, acts, base, lz4);
  }

  /** The writer spins; everything is as it should be. */
  ghost predicate Spinning(y: Line, poolCap: nat, cap: nat, base: nat, lz4: Lz4) {
    Steady(y, poolCap, cap) && poolCap <= cap && Synced(y.inlet, base, lz4) && y.inlet.writer.Waiting?
  }

  lemma SpinningMoves(y: Line, m: Move, poolCap: nat, cap: nat, base: nat, lz4: Lz4)
    requires Spinning(y, poolCap, cap, base, lz4) && y.inlet.processed < y.inlet.writer.n
    ensures var z := Moved(y, m, cap, lz4);
      && Spinning(z, poolCap, cap, base, lz4) && z.inlet.writer == y.inlet.writer
      && (z.inlet.processed >= y.inlet.writer.n
          || MovesLeft(z, lz4) + (if m.ReaderMoves? then 1 else 0) <= MovesLeft(y, lz4))
  {
    MoveKeepsSteady(y, m, poolCap, cap, lz4);
    if m.ReaderMoves? {
      ReaderMoveProgresses(y, poolCap, cap, base, lz4);
    } else {
      OtherMovesLeaveReader(y, m, cap, lz4);
    }
  }

  /** At most 1511 moves and two for each message of the frame, and one for a message in the reader's hand. */
  lemma MovesLeftBounded(y: Line, lz4: Lz4)
    ensures MovesLeft(y, lz4) <= 1511 + Undecoded(y.inlet, lz4) + 2 * |y.inbox| + |InHand(y)|
  {
  }

  /** Every wait of every run is of this kind, and the reader's moves left are bounded. */
  lemma WaitsSpin(y: Line, moves: seq<Move>, cap: nat, lz4: Lz4)
    requires Fresh(y, lz4) && y.free <= cap && Run(y, moves, cap, lz4).inlet.writer.Waiting?
    ensures var e := Run(y, moves, cap, lz4);
      && Spinning(e, y.free, cap, y.inlet.sequence, lz4)
      && MovesLeft(e, lz4) <= 1511 + Undecoded(e.inlet, lz4) + 2 * |e.inbox| + |InHand(e)|
  {
    MovesLeftBounded(Run(y, moves, cap, lz4), lz4);
    RunKeepsSteady(y, moves, y.free, cap, lz4);
    var acts := RunRefinesInlet(y, moves, cap, lz4);
    StartIsSynced(y.inlet, lz4);
    RunKeepsSynced(y.inlet, acts, y.inlet.sequence, lz4);
  }

  /** MAIN RESULT 31. Result 11 with pool and queue: with a pool no larger than the queue the wait ends,
      whatever the schedule and even if nobody takes a message, once the reader has made the moves it has left
      (`WaitsSpin` bounds them). */
  lemma {:induction false} LineWaitEnds(
    y: Line, moves: seq<Move>, poolCap: nat, cap: nat, base: nat, lz4: Lz4)
    requires Spinning(y, poolCap, cap, base, lz4) && ReaderMovesIn(moves) >= MovesLeft(y, lz4)
    ensures Run(y, moves, cap, lz4).inlet.processed >= y.inlet.writer.n
    decreases |moves|
  {
    if y.inlet.processed >= y.inlet.writer.n {
      LineNeverFalls(y, moves, cap, base, lz4);
    } else {
      assert moves != [];
      var z, rest := Moved(y, moves[0], cap, lz4), moves[1..];
      SpinningMoves(y, moves[0], poolCap, cap, base, lz4);
      if z.inlet.processed >= y.inlet.writer.n {
        LineNeverFalls(z, rest, cap, base, lz4);
      } else {
        LineWaitEnds(z, rest, poolCap, cap, base, lz4);
      }
    }
  }

  /** The condition on the sizes matters: with a slot in hand and a full queue, which a larger pool allows,
      the reader acknowledges nothing until somebody takes a message, whatever else moves. */
  lemma {:induction false} FullQueueHoldsReader(y: Line, moves: seq<Move>, cap: nat, lz4: Lz4)
    requires y.hand.Some? && |y.queue| >= cap && TakeHead !in moves
    ensures var e := Run(y, moves, cap, lz4);
      && e.hand == y.hand && e.queue == y.queue && e.fates == y.fates
      && e.inlet.processed == y.inlet.processed && e.inlet.reader == y.inlet.reader
    decreases |moves|
  {
    if moves != [] {
      assert moves[0] in moves;
      WriterLeavesReader(y.inlet);
      FullQueueHoldsReader(Moved(y, moves[0], cap, lz4), moves[1..], cap, lz4);
    }
  }
}
