/** What a publisher sends is what arrives: from the orders and quotes of a run of `publish` calls to the
    messages on the market queue. */
module DemoFeed {
  import opened Machine
  import opened Messages
  import opened Framing
  import opened Decoding
  import opened FrameContents
  import opened Quotes
  import opened Inlet
  import Lockstep
  import FeedReader

  /** What one call sends: a frame of ITCH orders, a frame of MTBT orders, or a top of book. */
  datatype Sent = ItchSent(itch: seq<ItchSpec>) | MtbtSent(mtbt: seq<MtbtSpec>) | TobSent(tob: TopOfBook)

  predicate Fits(d: Bytes) {
    0 < |d| <= FRAME_CAPACITY
  }

  /** The call publishes it: ITCH and MCX as they are, MTBT plain or compressed. */
  predicate Publishes(lz4: Lz4, p: Publish, s: Sent) {
    p.data.Some? && Fits(p.data.value) &&
    match s
    case ItchSent(specs) => p.kind == 1 && p.data.value == ItchEncode(ItchBodies(specs))
    case MtbtSent(specs) =>
      var d := MtbtEncode(MtbtPackets(specs));
      && p.kind == 2
      && if p.flags % 2 == 0 then p.data.value == d
         else lz4(p.data.value) == Some(d) && Fits(d) && p.uncompressed == |d|
    case TobSent(t) => p.kind == 3 && t.Valid() && p.data.value == TobBytes(t)
  }

  function Expected(s: Sent): seq<Message> {
    match s
    case ItchSent(specs) => Ticks(ItchBodies(specs))
    case MtbtSent(specs) => MtbtTicks(specs)
    case TobSent(t) => if t.Valid() then [McxTick(TobBytes(t))] else []
  }

  function AllExpected(sent: seq<Sent>): seq<Message> {
    if sent == [] then [] else AllExpected(sent[..|sent| - 1]) + Expected(sent[|sent| - 1])
  }

  lemma OneArrives(lz4: Lz4, p: Publish, s: Sent)
    requires Publishes(lz4, p, s)
    ensures Accepts(p) && Returns(lz4, FrameOf(p)) && FrameMessages(lz4, FrameOf(p)) == Expected(s)
  {
    match s
    case ItchSent(specs) => AppendedItchOrdersArrive(lz4, FrameOf(p), specs);
    case MtbtSent(specs) => AppendedMtbtOrdersArrive(lz4, FrameOf(p), specs);
    case TobSent(t) => TopOfBookIsRead(lz4, FrameOf(p), t);
  }

  /** Every accepted call is ingested to the end, and its messages are ms. */
  ghost predicate Arrives(lz4: Lz4, calls: seq<Publish>, ms: seq<Message>) {
    && Lockstep.AllReturn(lz4, calls)
    && (forall f :: f in Lockstep.AcceptedFrames(calls) ==> Returns(lz4, f))
    && Lockstep.AllMessages(lz4, Lockstep.AcceptedFrames(calls)) == ms
  }

  lemma OneMoreArrives(lz4: Lz4, calls: seq<Publish>, p: Publish, ms: seq<Message>, more: seq<Message>)
    requires Arrives(lz4, calls, ms) && Accepts(p) && Returns(lz4, FrameOf(p)) && FrameMessages(lz4, FrameOf(p)) == more
    ensures Arrives(lz4, calls + [p], ms + more)
  {
    FeedReader.AcceptedFramesAppend(calls, p);
    Lockstep.AllMessagesAppends(lz4, Lockstep.AcceptedFrames(calls), FrameOf(p));
  }

  lemma ExpectedAppend(sent: seq<Sent>, s: Sent)
    ensures AllExpected(sent + [s]) == AllExpected(sent) + Expected(s)
  {
    assert (sent + [s])[..|sent|] == sent;
  }

  ghost predicate AllPublish(lz4: Lz4, calls: seq<Publish>, sent: seq<Sent>) {
    |calls| == |sent| && forall i :: 0 <= i < |calls| ==> Publishes(lz4, calls[i], sent[i])
  }

  lemma NthArrives(lz4: Lz4, calls: seq<Publish>, sent: seq<Sent>, n: nat)
    requires AllPublish(lz4, calls, sent) && n < |calls|
    ensures Ingests(lz4, calls[n], Expected(sent[n]))
  {
    OneArrives(lz4, calls[n], sent[n]);
  }

  /** The call is accepted and ingested, and its messages are ms. */
  predicate Ingests(lz4: Lz4, p: Publish, ms: seq<Message>) {
    Accepts(p) && Returns(lz4, FrameOf(p)) && FrameMessages(lz4, FrameOf(p)) == ms
  }

  lemma OneMoreSent(lz4: Lz4, calls: seq<Publish>, p: Publish, sent: seq<Sent>, s: Sent, before: seq<Message>)
    returns (ms: seq<Message>)
    requires Arrives(lz4, calls, before) && before == AllExpected(sent) && Ingests(lz4, p, Expected(s))
    ensures ms == AllExpected(sent + [s]) && Arrives(lz4, calls + [p], ms)
  {
    OneMoreArrives(lz4, calls, p, before, Expected(s));
    ExpectedAppend(sent, s);
    ms := before + Expected(s);
  }

  lemma PrefixGrows<T>(xs: seq<T>, n: nat)
    requires n < |xs|
    ensures xs[..n + 1] == xs[..n] + [xs[n]]
  {
  }

  lemma {:induction false} FirstSent(lz4: Lz4, calls: seq<Publish>, sent: seq<Sent>, n: nat) returns (ms: seq<Message>)
    requires AllPublish(lz4, calls, sent) && n <= |calls|
    ensures ms == AllExpected(sent[..n]) && Arrives(lz4, calls[..n], ms)
  {
    if n == 0 {
      ms := [];
    } else {
      var m := n - 1;
      ms := FirstSent(lz4, calls, sent, m);
      NthArrives(lz4, calls, sent, m);
      ms := OneMoreSent(lz4, calls[..m], calls[m], sent[..m], sent[m], ms);
      PrefixGrows(calls, m);
      PrefixGrows(sent, m);
    }
  }

  /** MAIN RESULT 40. For any run of publish calls with ITCH orders, MTBT orders plain or compressed, and tops of
      book: every frame is accepted and ingested, and its messages, which the results on the reader put on the
      market queue, are exactly the orders and quotes sent, in order. */
  lemma WhatIsSentArrives(lz4: Lz4, calls: seq<Publish>, sent: seq<Sent>) returns (ms: seq<Message>)
    requires AllPublish(lz4, calls, sent)
    ensures ms == AllExpected(sent) && Arrives(lz4, calls, ms)
  {
    ms := FirstSent(lz4, calls, sent, |calls|);
    assert calls[..|calls|] == calls && sent[..|sent|] == sent;
  }
}
