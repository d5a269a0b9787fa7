/** What arrives on the market queue of a published frame, said in the bytes of its messages. */
module FrameContents {
  import opened Machine
  import opened Messages
  import opened Framing
  import opened Decoding

  lemma {:induction false} KeptAll(ms: seq<Message>, xs: seq<Option<Message>>)
    requires |ms| == |xs| && forall i :: 0 <= i < |xs| ==> xs[i] == Some(ms[i])
    ensures Kept(xs) == ms
  {
    if ms != [] {
      KeptAll(ms[..|ms| - 1], xs[..|xs| - 1]);
    }
  }

  /** How an MTBT publisher sends the bytes d: plain, or compressed with their length beside them. */
  predicate Sends(lz4: Lz4, f: Frame, d: Bytes) {
    && f.kind == KIND_MTBT && 0 < |f.data| <= FRAME_CAPACITY
    && if f.flags % 2 == 0 then f.data == d
       else lz4(f.data) == Some(d) && 0 < |d| <= FRAME_CAPACITY && f.uncompressed == |d|
  }

  /** A frame the reader rejects adds nothing: empty or over-long, of no known kind, or compressed and of a
      bad length, not to be decompressed, or decompressed to another length than it says. */
  lemma RejectedFramesAddNothing(lz4: Lz4, f: Frame)
    requires |f.data| == 0 || |f.data| > FRAME_CAPACITY || f.kind !in {KIND_ITCH, KIND_MTBT, KIND_MCX}
             || (f.kind == KIND_MTBT && f.flags % 2 == 1
                 && (f.uncompressed == 0 || f.uncompressed > FRAME_CAPACITY || lz4(f.data) == None
                     || |lz4(f.data).value| != f.uncompressed))
    ensures Returns(lz4, f) && FrameMessages(lz4, f) == []
  {
  }

  // ----- ITCH -----

  /** The add orders among a list of ITCH messages: 36 bytes, the first an 'A'. */
  function AddOrders(bodies: seq<Bytes>): seq<Message> {
    if bodies == [] then []
    else
      var b := bodies[|bodies| - 1];
      AddOrders(bodies[..|bodies| - 1]) + if |b| == 36 && b[0] == 65 then [ItchTick(b)] else []
  }

  lemma {:induction false} KeptAddOrders(bodies: seq<Bytes>, vs: seq<Option<Message>>)
    requires |vs| == |bodies| && forall i :: 0 <= i < |bodies| ==> vs[i] == DecodeItch(bodies[i])
    ensures Kept(vs) == AddOrders(bodies)
  {
    if bodies != [] {
      KeptAddOrders(bodies[..|bodies| - 1], vs[..|vs| - 1]);
    }
  }

  /** On any bytes: the add orders among the messages the splitter finds, and nothing else, in order. */
  lemma ItchFrameHolds(lz4: Lz4, f: Frame)
    requires f.kind == KIND_ITCH && 0 < |f.data| <= FRAME_CAPACITY
    ensures FrameMessages(lz4, f) == AddOrders(ItchSplit(f.data).bodies)
  {
    KeptAddOrders(ItchSplit(f.data).bodies, ItchVerdicts(f.data));
  }

  lemma EncodedFrameSplits(bodies: seq<Bytes>)
    requires forall b :: b in bodies ==> ItchWellFormed(b)
    ensures ItchSplit(ItchEncode(bodies)).bodies == bodies
  {
    ItchSplitInvertsEncode(bodies, []);
    assert ItchEncode(bodies) + [] == ItchEncode(bodies);
  }

  /** A frame built of any messages puts exactly the add orders among them on the queue, in order. */
  lemma BuiltItchFrameDecodes(lz4: Lz4, f: Frame, bodies: seq<Bytes>)
    requires forall b :: b in bodies ==> ItchWellFormed(b)
    requires f.kind == KIND_ITCH && f.data == ItchEncode(bodies) && 0 < |f.data| <= FRAME_CAPACITY
    ensures FrameMessages(lz4, f) == AddOrders(bodies)
  {
    EncodedFrameSplits(bodies);
    ItchFrameHolds(lz4, f);
  }

  function Ticks(bodies: seq<Bytes>): (ms: seq<Message>)
    ensures |ms| == |bodies| && forall i :: 0 <= i < |bodies| ==> ms[i] == ItchTick(bodies[i])
  {
    seq(|bodies|, i requires 0 <= i < |bodies| => ItchTick(bodies[i]))
  }

  lemma {:induction false} AllAddOrders(bodies: seq<Bytes>)
    requires forall i :: 0 <= i < |bodies| ==> |bodies[i]| == 36 && bodies[i][0] == 65
    ensures AddOrders(bodies) == Ticks(bodies)
  {
    if bodies != [] {
      AllAddOrders(bodies[..|bodies| - 1]);
    }
  }

  /** Orders appended to a frame that is published plain arrive on the market queue, in order. */
  lemma AppendedItchOrdersArrive(lz4: Lz4, f: Frame, specs: seq<ItchSpec>)
    requires f.kind == KIND_ITCH && f.data == ItchEncode(ItchBodies(specs)) && 0 < |f.data| <= FRAME_CAPACITY
    ensures FrameMessages(lz4, f) == Ticks(ItchBodies(specs))
  {
    BuiltItchFrameDecodes(lz4, f, ItchBodies(specs));
    AllAddOrders(ItchBodies(specs));
  }

  // ----- MTBT -----

  /** The order in a packet: 34 bytes with the type 'N', 'M' or 'X' behind the header. */
  function OrderIn(x: Bytes): Option<Message> {
    if |x| == 34 && (x[8] == 78 || x[8] == 77 || x[8] == 88) then Some(MtbtTick(x[8..34])) else None
  }

  function OrdersIn(packets: seq<Bytes>): seq<Message> {
    if packets == [] then []
    else
      var last := OrderIn(packets[|packets| - 1]);
      OrdersIn(packets[..|packets| - 1]) + if last.Some? then [last.value] else []
  }

  lemma {:induction false} KeptOrders(packets: seq<Bytes>, vs: seq<Option<Message>>)
    requires |vs| == |packets| && forall i :: 0 <= i < |packets| ==> vs[i] == OrderIn(packets[i])
    ensures Kept(vs) == OrdersIn(packets)
  {
    if packets != [] {
      KeptOrders(packets[..|packets| - 1], vs[..|vs| - 1]);
    }
  }

  lemma SliceOfSlice(x: Bytes, start: nat, len: nat, from: nat, to: nat)
    requires start + len <= |x| && from <= to <= len
    ensures x[start..start + len][from..to] == x[start + from..start + to]
  {
    var part := x[start..start + len];
    forall i | 0 <= i < to - from ensures part[from..to][i] == x[start + from..start + to][i] {
      assert part[from + i] == x[start + from + i];
    }
  }

  /** A packet that runs past the frame came of a negative length, which no order has. */
  lemma LengthOfPacket(frame: Bytes, p: Packet)
    requires |frame| < TWO_64 / 2 && NextPacket(frame, p.start) == Some(p)
    ensures p.start + MTBT_HEADER <= |frame|
    ensures if p.start + p.len <= |frame| then p.len == MsgLen(frame, p.start) else MsgLen(frame, p.start) < 0
  {
    var n := MsgLen(frame, p.start);
    if n >= 0 {
      ModUnique(n, TWO_64, 0, n);
      ModUnique(p.start + n, TWO_64, 0, p.start + n);
    } else {
      ModUnique(n, TWO_64, -1, n + TWO_64);
    }
  }

  /** Decoding a packet of the splitter looks at the packet's own bytes only. */
  lemma PacketDecodesAlone(frame: Bytes, p: Packet)
    requires |frame| < TWO_64 / 2 && NextPacket(frame, p.start) == Some(p)
    ensures DecodeMtbt(frame, p) == OrderIn(AsCall(frame, p).body)
  {
    LengthOfPacket(frame, p);
    if p.start + p.len <= |frame| && p.len == 34 {
      SliceOfSlice(frame, p.start, 34, 8, 34);
      assert frame[p.start..p.start + 34][8] == frame[p.start + 8];
    }
  }

  lemma {:induction false} EachIsNext(frame: Bytes, o: nat, n: nat)
    requires StopsIn(frame, o, n)
    ensures forall i :: 0 <= i < |Packets(frame, o, n)| ==>
              NextPacket(frame, Packets(frame, o, n)[i].start) == Some(Packets(frame, o, n)[i])
    decreases n
  {
    if NextPacket(frame, o).Some? {
      var p := NextPacket(frame, o).value;
      EachIsNext(frame, Past(p), n - 1);
      assert Packets(frame, o, n) == [p] + Packets(frame, Past(p), n - 1);
    }
  }

  /** On any bytes on which the splitter stops: the orders among the packets it hands over. */
  lemma MtbtBytesHold(d: Bytes)
    requires |d| < TWO_64 / 2 && StopsIn(d, 0, |d|)
    ensures Kept(MtbtVerdicts(d)) == OrdersIn(Bodies(AsCalls(d, Packets(d, 0, |d|))))
  {
    var ps := Packets(d, 0, |d|);
    var bodies := Bodies(AsCalls(d, ps));
    EachIsNext(d, 0, |d|);
    forall i | 0 <= i < |ps| ensures MtbtVerdicts(d)[i] == OrderIn(bodies[i]) {
      PacketDecodesAlone(d, ps[i]);
    }
    KeptOrders(bodies, MtbtVerdicts(d));
  }

  /** Bytes sent plain or compressed: what arrives are the orders in the bytes themselves, in order. */
  lemma SentBytesHold(lz4: Lz4, f: Frame, d: Bytes)
    requires Sends(lz4, f, d) && StopsIn(d, 0, |d|)
    ensures Returns(lz4, f)
    ensures FrameMessages(lz4, f) == OrdersIn(Bodies(AsCalls(d, Packets(d, 0, |d|))))
  {
    MtbtBytesHold(d);
  }

  lemma EncodedPacketsSplit(packets: seq<Bytes>)
    requires forall x :: x in packets ==> MtbtWellFormed(x)
    ensures StepsForward(MtbtEncode(packets), 0) && MtbtSplit(MtbtEncode(packets)).bodies == packets
  {
    MtbtSplitInvertsEncode(packets, []);
    assert MtbtEncode(packets) + [] == MtbtEncode(packets);
  }

  /** MAIN RESULT 32. Packets of any builder, sent plain or compressed, put exactly the orders among them on
      the queue, in order: the compressed frame is ingested decompressed. */
  lemma BuiltMtbtFrameDecodes(lz4: Lz4, f: Frame, packets: seq<Bytes>)
    requires forall x :: x in packets ==> MtbtWellFormed(x)
    requires Sends(lz4, f, MtbtEncode(packets))
    ensures Returns(lz4, f) && FrameMessages(lz4, f) == OrdersIn(packets)
  {
    EncodedPacketsSplit(packets);
    ForwardFrameSplits(MtbtEncode(packets));
    SentBytesHold(lz4, f, MtbtEncode(packets));
  }

  function MtbtTicks(specs: seq<MtbtSpec>): (ms: seq<Message>)
    ensures |ms| == |specs| && forall i :: 0 <= i < |specs| ==> ms[i] == MtbtTick(MtbtBody(specs[i]))
  {
    seq(|specs|, i requires 0 <= i < |specs| => MtbtTick(MtbtBody(specs[i])))
  }

  lemma PacketHoldsOrder(o: MtbtSpec, offset: nat)
    ensures MtbtWellFormed(MtbtPacket(o, offset))
    ensures OrderIn(MtbtPacket(o, offset)) == Some(MtbtTick(MtbtBody(o)))
  {
    MtbtPacketReadsBack(o, offset);
    var p := MtbtPacket(o, offset);
    assert p[8..34] == p[8..] && p[8..][0] == p[8];
  }

  lemma PacketAtHoldsOrder(specs: seq<MtbtSpec>, i: nat)
    requires i < |specs|
    ensures MtbtWellFormed(MtbtPackets(specs)[i])
    ensures OrderIn(MtbtPackets(specs)[i]) == Some(MtbtTicks(specs)[i])
  {
    PacketOf(specs, i);
    PacketHoldsOrder(specs[i], (MTBT_HEADER + MTBT_SIZE) * i);
  }

  lemma {:induction false} AllOrders(packets: seq<Bytes>, ms: seq<Message>)
    requires |ms| == |packets| && forall i :: 0 <= i < |packets| ==> OrderIn(packets[i]) == Some(ms[i])
    ensures OrdersIn(packets) == ms
  {
    if packets != [] {
      AllOrders(packets[..|packets| - 1], ms[..|ms| - 1]);
    }
  }

  /** Orders appended to a frame, sent plain or compressed, arrive on the market queue, in order. */
  lemma AppendedMtbtOrdersArrive(lz4: Lz4, f: Frame, specs: seq<MtbtSpec>)
    requires Sends(lz4, f, MtbtEncode(MtbtPackets(specs)))
    ensures Returns(lz4, f) && FrameMessages(lz4, f) == MtbtTicks(specs)
  {
    var ps, ms := MtbtPackets(specs), MtbtTicks(specs);
    forall i | 0 <= i < |ps| ensures MtbtWellFormed(ps[i]) && OrderIn(ps[i]) == Some(ms[i]) {
      PacketAtHoldsOrder(specs, i);
    }
    BuiltMtbtFrameDecodes(lz4, f, ps);
    AllOrders(ps, ms);
  }

  // ----- MCX -----

  /** A published top of book arrives; a frame of any other size holds nothing. */
  lemma TopOfBookArrives(lz4: Lz4, f: Frame)
    requires f.kind == KIND_MCX && 0 < |f.data| <= FRAME_CAPACITY
    ensures FrameMessages(lz4, f) == if |f.data| == 56 then [McxTick(f.data)] else []
  {
    KeptAll([McxTick(f.data)], [Some(McxTick(f.data))]);
  }
}
