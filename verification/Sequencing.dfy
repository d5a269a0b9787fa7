/** MCX orders carry sequence numbers, which must leave the gateway in the order they were drawn. */
module Sequencing {
  import opened Machine
  import opened Messages
  import opened Framing
  import opened TradingSteps
  import opened Pipeline
  import Orders

  /** The sequence number of an MCX order or confirmation. */
  function SeqNo(m: Message): seq<nat> {
    match m
    case McxRequest(o) => [o.msgSeqNum]
    case McxConfirm(a) => [a.msgSeqNum]
    case _ => []
  }

  function SeqNos(ms: seq<Message>): seq<nat> {
    if ms == [] then [] else SeqNos(ms[..|ms| - 1]) + SeqNo(ms[|ms| - 1])
  }

  lemma SeqNosAppend(ms: seq<Message>, m: Message)
    ensures SeqNos(ms + [m]) == SeqNos(ms) + SeqNo(m)
  {
    assert (ms + [m])[..|ms|] == ms;
  }

  lemma {:induction false} SeqNosPrepend(m: Message, ms: seq<Message>)
    ensures SeqNos([m] + ms) == SeqNo(m) + SeqNos(ms)
  {
    if ms == [] {
      assert [m] + ms == [] + [m];
      SeqNosAppend([], m);
    } else {
      var front, last := ms[..|ms| - 1], ms[|ms| - 1];
      assert [m] + ms == ([m] + front) + [last];
      SeqNosPrepend(m, front);
      SeqNosAppend([m] + front, last);
      ConcatAssociates(SeqNo(m), SeqNos(front), SeqNo(last));
    }
  }

  /** 1, 2, ..., n in 32 bits. */
  function FirstWords(n: nat): (ws: seq<nat>)
    ensures |ws| == n && forall i :: 0 <= i < n ==> ws[i] == Word(i + 1)
  {
    if n == 0 then [] else FirstWords(n - 1) + [Word(n)]
  }

  /** The numbers on confirmations and then on pending orders are the numbers drawn, in order. */
  ghost predicate Sequenced(y: System) {
    && SeqNos(y.answered.mcx) + SeqNos(y.pending) == FirstWords(y.consumers.mcx.submitted)
    && y.consumers.mcx.nextSeq == Word(y.consumers.mcx.submitted + 1)
  }

  /** A poll appends at most one order; an MCX order takes the next number. */
  lemma ConsumeAppends(y: System, g: Feed, a: Account)
    ensures var z := Consuming(y, g, a);
      && z.answered == y.answered
      && (z.pending == y.pending ==> z.consumers.mcx == y.consumers.mcx)
      && (z.pending != y.pending ==>
            var n, mcx := |y.pending|, y.consumers.mcx;
            && |z.pending| == n + 1 && z.pending[..n] == y.pending
            && SeqNo(z.pending[n]) == (if g == McxFeed then [mcx.nextSeq] else [])
            && z.consumers.mcx == if g == McxFeed then Submitted(mcx, McxFeed) else mcx)
  {
  }

  lemma NumbersGrow(done: seq<nat>, pending: seq<Message>, order: Message, n: nat)
    requires done + SeqNos(pending) == FirstWords(n)
    ensures SeqNo(order) == [] ==> done + SeqNos(pending + [order]) == FirstWords(n)
    ensures SeqNo(order) == [Word(n + 1)] ==> done + SeqNos(pending + [order]) == FirstWords(n + 1)
  {
    SeqNosAppend(pending, order);
    ConcatAssociates(done, SeqNos(pending), SeqNo(order));
    assert FirstWords(n) + [] == FirstWords(n);
  }

  /** The numbers drawn so far are on the confirmations done and the orders pending. */
  ghost predicate Drawn(done: seq<nat>, pending: seq<Message>, mcx: Consumer) {
    done + SeqNos(pending) == FirstWords(mcx.submitted) && mcx.nextSeq == Word(mcx.submitted + 1)
  }

  lemma OrderKeepsDrawn(done: seq<nat>, pending: seq<Message>, order: Message, mcx: Consumer, g: Feed)
    requires Drawn(done, pending, mcx) && SeqNo(order) == if g == McxFeed then [mcx.nextSeq] else []
    ensures Drawn(done, pending + [order], if g == McxFeed then Submitted(mcx, McxFeed) else mcx)
  {
    NumbersGrow(done, pending, order, mcx.submitted);
    Orders.NextToken(mcx.submitted + 1);
  }

  lemma ConsumeKeepsSequenced(y: System, g: Feed, a: Account)
    requires Sequenced(y)
    ensures Sequenced(Consuming(y, g, a))
  {
    var z, done := Consuming(y, g, a), SeqNos(y.answered.mcx);
    ConsumeAppends(y, g, a);
    if z.pending != y.pending {
      var order := z.pending[|y.pending|];
      assert z.pending == y.pending + [order];
      OrderKeepsDrawn(done, y.pending, order, y.consumers.mcx, g);
    }
    assert Drawn(done, z.pending, z.consumers.mcx);
  }

  lemma AnswerKeepsSequenced(y: System)
    requires Typed(y) && Sequenced(y)
    ensures Sequenced(Answering(y))
  {
    if y.pending != [] {
      assert y.pending[0] in y.pending;
      AnswerMovesNumber(y, y.pending[0]);
      NumbersMove(SeqNos(y.answered.mcx), y.pending);
    }
  }

  lemma NumbersMove(done: seq<nat>, pending: seq<Message>)
    requires pending != []
    ensures (done + SeqNo(pending[0])) + SeqNos(pending[1..]) == done + SeqNos(pending)
  {
    assert pending == [pending[0]] + pending[1..];
    SeqNosPrepend(pending[0], pending[1..]);
    ConcatAssociates(done, SeqNo(pending[0]), SeqNos(pending[1..]));
  }

  /** A confirmation keeps its order's number; other feeds' orders have none. */
  lemma AnswerMovesNumber(y: System, m: Message)
    requires y.pending != [] && y.pending[0] == m && m.IsRequest()
    ensures var z := Answering(y);
      z.pending == y.pending[1..] && z.consumers == y.consumers
      && SeqNos(z.answered.mcx) == SeqNos(y.answered.mcx) + SeqNo(m)
  {
    ConfirmKinds(y.gateway, m);
    if m.McxRequest? {
      McxAnswerMovesNumber(y, m);
    } else {
      OtherAnswerMovesNone(y, m);
    }
  }

  lemma McxAnswerMovesNumber(y: System, m: Message)
    requires y.pending != [] && y.pending[0] == m && m.McxRequest?
    ensures SeqNos(Answering(y).answered.mcx) == SeqNos(y.answered.mcx) + SeqNo(m)
  {
    var ack := Confirm(y.gateway, m).value.1;
    SeqNosAppend(y.answered.mcx, ack);
    assert Answering(y).answered.mcx == y.answered.mcx + [ack] && SeqNo(ack) == SeqNo(m);
  }

  lemma OtherAnswerMovesNone(y: System, m: Message)
    requires y.pending != [] && y.pending[0] == m && m.IsRequest() && !m.McxRequest?
    ensures SeqNos(Answering(y).answered.mcx) == SeqNos(y.answered.mcx) + SeqNo(m)
  {
    assert Answering(y).answered.mcx == y.answered.mcx;
    assert SeqNos(y.answered.mcx) + [] == SeqNos(y.answered.mcx);
  }

  lemma OthersKeepSequenced(y: System, s: Step, a: Account, bps: int)
    requires Sequenced(y) && !s.Consume? && !s.Answer?
    ensures Sequenced(Apply(y, s, a, bps))
  {
    OthersLeaveOrders(y, s, a, bps);
  }

  lemma OthersLeaveOrders(y: System, s: Step, a: Account, bps: int)
    requires !s.Consume? && !s.Answer?
    ensures var z := Apply(y, s, a, bps);
      z.answered == y.answered && z.pending == y.pending && z.consumers == y.consumers
  {
  }

  lemma StepKeepsSequenced(y: System, s: Step, a: Account, bps: int) returns (z: System)
    requires Typed(y) && Sequenced(y)
    ensures z == Apply(y, s, a, bps) && Sequenced(z)
  {
    if s.Consume? {
      z := Consuming(y, s.feed, a);
      ConsumeKeepsSequenced(y, s.feed, a);
    } else if s.Answer? {
      z := Answering(y);
      AnswerKeepsSequenced(y);
    } else {
      z := Apply(y, s, a, bps);
      OthersKeepSequenced(y, s, a, bps);
    }
  }

  lemma {:induction false} RunKeepsSequenced(y: System, steps: seq<Step>, a: Account, bps: int)
    requires Typed(y) && Sequenced(y)
    ensures Sequenced(Exec(y, steps, a, bps))
    decreases |steps|
  {
    if steps != [] {
      StepKeepsTyped(y, steps[0], a, bps);
      var z := StepKeepsSequenced(y, steps[0], a, bps);
      RunKeepsSequenced(z, steps[1..], a, bps);
    }
  }

  lemma {:induction false} OneNumberEach(log: seq<Message>)
    requires forall i :: 0 <= i < |log| ==> log[i].McxConfirm?
    ensures |SeqNos(log)| == |log|
    ensures forall i :: 0 <= i < |log| ==> SeqNos(log)[i] == log[i].mcxAck.msgSeqNum
  {
    if log != [] { OneNumberEach(log[..|log| - 1]); }
  }

  /** MAIN RESULT 22. In every run the MCX confirmations carry the sequence numbers 1, 2, 3, ... (in 32
      bits) in exactly that order: the pending queue loses, repeats and reorders none. */
  lemma McxConfirmationsInSequence(steps: seq<Step>, a: Account, bps: int, i: nat)
    requires i < |Exec(START, steps, a, bps).answered.mcx|
    ensures var ack := Exec(START, steps, a, bps).answered.mcx[i];
      ack.McxConfirm? && ack.mcxAck.msgSeqNum == Word(i + 1) && ack.mcxAck.orderId == i + 1
  {
    var e := Exec(START, steps, a, bps);
    Orders.StartIsInOrder();
    Orders.RunKeepsOrder(START, steps, a, bps);
    assert Orders.Tokened(e, McxFeed);
    forall j | 0 <= j < |e.answered.mcx|
      ensures e.answered.mcx[j].McxConfirm? && e.answered.mcx[j].mcxAck.orderId == j + 1
    {
      IsMcx(e.answered.mcx[j], j + 1);
    }
    assert Sequenced(START);
    RunKeepsSequenced(START, steps, a, bps);
    OneNumberEach(e.answered.mcx);
    assert e.answered.mcx[i].mcxAck.msgSeqNum == (SeqNos(e.answered.mcx) + SeqNos(e.pending))[i];
  }

  lemma IsMcx(m: Message, r: nat)
    requires AckFeed(m) == McxFeed && Orders.Reference(m) == r > 0
    ensures m.McxConfirm? && m.mcxAck.orderId == r
  {
  }

  // ----- What the gateway writes of its own -----

  /** Execution numbers count up as order numbers do, and every SBE confirmation has the exchange's order
      id, "exch-oid". */
  ghost predicate Stamped(y: System) {
    && y.gateway.mcxExec == |y.answered.mcx| + 1
    && (forall i :: 0 <= i < |y.answered.mcx| ==>
          y.answered.mcx[i].McxConfirm? && y.answered.mcx[i].mcxAck.execId == i + 1)
    && (forall m :: m in y.answered.sbe ==>
          m.SbeConfirm? && m.sbeAck.orderId == [101, 120, 99, 104, 45, 111, 105, 100])
  }

  lemma StepKeepsStamped(y: System, s: Step, a: Account, bps: int)
    requires Typed(y) && Stamped(y)
    ensures Stamped(Apply(y, s, a, bps))
  {
    if s.Answer? {
      AnswerKeepsStamped(y);
    } else {
      OthersLeaveAnswers(y, s, a, bps);
    }
  }

  lemma OthersLeaveAnswers(y: System, s: Step, a: Account, bps: int)
    requires !s.Answer?
    ensures Apply(y, s, a, bps).answered == y.answered && Apply(y, s, a, bps).gateway == y.gateway
  {
  }

  lemma AnswerKeepsStamped(y: System)
    requires Typed(y) && Stamped(y)
    ensures Stamped(Answering(y))
  {
    if y.pending != [] {
      var m := y.pending[0];
      assert m in y.pending && m.IsRequest();
      var ack := Confirm(y.gateway, m).value.1;
      if m.McxRequest? {
        assert Answering(y).answered.mcx == y.answered.mcx + [ack];
      } else if m.SbeRequest? {
        assert Answering(y).answered.sbe == y.answered.sbe + [ack];
      }
    }
  }

  lemma {:induction false} RunKeepsStamped(y: System, steps: seq<Step>, a: Account, bps: int)
    requires Typed(y) && Stamped(y)
    ensures Stamped(Exec(y, steps, a, bps))
    decreases |steps|
  {
    if steps != [] {
      StepKeepsTyped(y, steps[0], a, bps);
      StepKeepsStamped(y, steps[0], a, bps);
      RunKeepsStamped(Apply(y, steps[0], a, bps), steps[1..], a, bps);
    }
  }

  /** In every run the MCX confirmations carry the execution numbers 1, 2, 3, ..., and the SBE ones the
      exchange's order id. */
  lemma ConfirmationsAreStamped(steps: seq<Step>, a: Account, bps: int) returns (e: System)
    ensures e == Exec(START, steps, a, bps)
    ensures forall i :: 0 <= i < |e.answered.mcx| ==>
              e.answered.mcx[i].McxConfirm? && e.answered.mcx[i].mcxAck.execId == i + 1
    ensures forall m :: m in e.answered.sbe ==>
              m.SbeConfirm? && m.sbeAck.orderId == [101, 120, 99, 104, 45, 111, 105, 100]
  {
    var y := START;
    assert Typed(y) && Stamped(y);
    RunKeepsStamped(y, steps, a, bps);
    e := Exec(y, steps, a, bps);
  }
}
