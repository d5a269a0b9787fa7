/** From a published frame to the messages it puts on the market queue, and the frame builders of the
    demo program. */
module Decoding {
  import opened Machine
  import opened Messages
  import opened Framing

  const FRAME_CAPACITY: nat := 1500

  const KIND_ITCH: nat := 1
  const KIND_MTBT: nat := 2
  const KIND_MCX: nat := 3

  /** A published frame: kind, flags (bit 0: LZ4-compressed), payload, uncompressed length. */
  datatype Frame = Frame(kind: nat, flags: nat, data: Bytes, uncompressed: nat)

  /** The LZ4 decompressor, with the output capacity of the reader's scratch buffer. */
  type Lz4 = Bytes -> Option<Bytes>

  // ----- Decoding one message -----

  const ITCH_TYPE: nat := 65       // 'A'
  const MTBT_NEW: nat := 78        // 'N'
  const MTBT_MOD: nat := 77        // 'M'
  const MTBT_CANCEL: nat := 88     // 'X'

  function DecodeItch(body: Bytes): Option<Message> {
    if |body| == ITCH_SIZE && body[0] == ITCH_TYPE then Some(ItchTick(body)) else None
  }

  /** `decode_mtbt_order` on a packet of the splitter: the header must hold 34 exactly, which no
      wrapped length can be. */
  function DecodeMtbt(frame: Bytes, p: Packet): Option<Message> {
    if p.len < MTBT_HEADER + MTBT_SIZE || p.start + MTBT_HEADER + MTBT_SIZE > |frame| then None
    else if MsgLen(frame, p.start) != MTBT_HEADER + MTBT_SIZE then None
    else
      var body := frame[p.start + MTBT_HEADER..p.start + MTBT_HEADER + MTBT_SIZE];
      if body[0] == MTBT_NEW || body[0] == MTBT_MOD || body[0] == MTBT_CANCEL then Some(MtbtTick(body)) else None
  }

  function Kept(xs: seq<Option<Message>>): seq<Message> {
    if xs == [] then []
    else Kept(xs[..|xs| - 1]) + (if xs[|xs| - 1].Some? then [xs[|xs| - 1].value] else [])
  }

  lemma {:induction false} KeptAppends(xs: seq<Option<Message>>, ys: seq<Option<Message>>)
    ensures Kept(xs + ys) == Kept(xs) + Kept(ys)
  {
    if ys == [] {
      assert xs + ys == xs;
    } else {
      assert (xs + ys)[..|xs + ys| - 1] == xs + ys[..|ys| - 1];
      KeptAppends(xs, ys[..|ys| - 1]);
    }
  }

  // ----- Decoding a frame -----

  /** What decoding makes of every handler call, in order. */
  function ItchVerdicts(frame: Bytes): seq<Option<Message>> {
    var bodies := ItchSplit(frame).bodies;
    seq(|bodies|, i requires 0 <= i < |bodies| => DecodeItch(bodies[i]))
  }

  function MtbtVerdicts(frame: Bytes): seq<Option<Message>>
    requires StopsIn(frame, 0, |frame|)
  {
    var packets := Packets(frame, 0, |frame|);
    seq(|packets|, i requires 0 <= i < |packets| => DecodeMtbt(frame, packets[i]))
  }

  function McxVerdicts(frame: Bytes): seq<Option<Message>> {
    if |frame| == MCX_SIZE then [Some(McxTick(frame))] else []
  }

  /** The bytes the reader ingests, or None when it rejects the frame. */
  function Payload(lz4: Lz4, f: Frame): Option<Bytes> {
    if |f.data| == 0 || |f.data| > FRAME_CAPACITY then None
    else if f.kind == KIND_MTBT && f.flags % 2 == 1 then
      if f.uncompressed == 0 || f.uncompressed > FRAME_CAPACITY then None
      else match lz4(f.data)
        case None => None
        case Some(d) => if |d| == f.uncompressed then Some(d) else None
    else Some(f.data)
  }

  /** Ingestion of the frame returns: only an MTBT frame can keep the splitter going for ever. */
  predicate Returns(lz4: Lz4, f: Frame) {
    f.kind == KIND_MTBT && Payload(lz4, f).Some? ==>
      var d := Payload(lz4, f).value; StopsIn(d, 0, |d|)
  }

  /** The decoded messages of a frame, in order. */
  function FrameMessages(lz4: Lz4, f: Frame): seq<Message>
    requires Returns(lz4, f)
  {
    match Payload(lz4, f)
    case None => []
    case Some(d) =>
      if f.kind == KIND_ITCH then Kept(ItchVerdicts(d))
      else if f.kind == KIND_MTBT then Kept(MtbtVerdicts(d))
      else if f.kind == KIND_MCX then Kept(McxVerdicts(d))
      else []
  }

  // ----- The struct fields a strategy reads -----

  function ItchShares(body: Bytes): nat requires |body| == ITCH_SIZE { Le32(body, 20) }
  function ItchStock(body: Bytes): Bytes requires |body| == ITCH_SIZE { body[24..32] }
  function ItchPrice(body: Bytes): nat requires |body| == ITCH_SIZE { Le32(body, 32) }

  function MtbtToken(body: Bytes): int requires |body| == MTBT_SIZE { Int32(Le32(body, 13)) }
  function MtbtPrice(body: Bytes): int requires |body| == MTBT_SIZE { Int32(Le32(body, 18)) }
  function MtbtQuantity(body: Bytes): int requires |body| == MTBT_SIZE { Int32(Le32(body, 22)) }

  // ----- Building frames -----

  /** "AAPL" padded to eight characters. */
  const AAPL: Bytes := [65, 65, 80, 76, 32, 32, 32, 32]

  datatype ItchSpec = ItchSpec(stockLocate: nat, shares: nat, price: nat)
  datatype MtbtSpec = MtbtSpec(streamId: nat, token: int, quantity: int, price: int)

  function ToLe16(x: nat): (b: Bytes)
    ensures |b| == 2
  {
    [x % 256, (x / 256) % 256]
  }

  /** The struct `append_itch_add_order` fills in. */
  function ItchBody(o: ItchSpec): (b: Bytes)
    ensures |b| == ITCH_SIZE
  {
    [ITCH_TYPE] + ToLe16(o.stockLocate) + Repeat(0, 16) + [66] + ToLe32(o.shares) + AAPL + ToLe32(o.price)
  }

  /** The header and body `append_mtbt_order` fills in; the sequence number is the offset. */
  function MtbtPacket(o: MtbtSpec, offset: nat): (b: Bytes)
    ensures |b| == MTBT_HEADER + MTBT_SIZE
  {
    ToLe16(MTBT_HEADER + MTBT_SIZE) + ToLe16(o.streamId) + ToLe32(offset) + MtbtBody(o)
  }

  function MtbtBody(o: MtbtSpec): (b: Bytes)
    ensures |b| == MTBT_SIZE
  {
    [MTBT_NEW] + Repeat(0, 12) + ToLe32(o.token) + [66] + ToLe32(o.price) + ToLe32(o.quantity)
  }

  /** A field stays where it is when more is appended. */
  lemma FieldStays(x: Bytes, y: Bytes, from: nat, to: nat)
    requires from <= to <= |x|
    ensures (x + y)[from..to] == x[from..to]
  {
  }

  lemma InBack(x: Bytes, y: Bytes, from: nat, to: nat)
    requires from <= to <= |y|
    ensures (x + y)[|x| + from..|x| + to] == y[from..to]
  {
  }

  lemma LastField(x: Bytes, y: Bytes)
    ensures (x + y)[|x|..|x| + |y|] == y
  {
  }

  /** A built body decodes, and its fields read back. */
  lemma ItchBodyReadsBack(o: ItchSpec)
    ensures DecodeItch(ItchBody(o)) == Some(ItchTick(ItchBody(o)))
    ensures ItchShares(ItchBody(o)) == Word(o.shares) && ItchPrice(ItchBody(o)) == Word(o.price)
    ensures ItchStock(ItchBody(o)) == AAPL
  {
    var head := [ITCH_TYPE] + ToLe16(o.stockLocate) + Repeat(0, 16) + [66];
    var shares := head + ToLe32(o.shares);
    var stock := shares + AAPL;
    LastField(head, ToLe32(o.shares));
    FieldStays(shares, AAPL, 20, 24);
    FieldStays(stock, ToLe32(o.price), 20, 24);
    Le32RoundTrip(ItchBody(o), 20, o.shares);
    LastField(stock, ToLe32(o.price));
    Le32RoundTrip(ItchBody(o), 32, o.price);
    LastField(shares, AAPL);
    FieldStays(stock, ToLe32(o.price), 24, 32);
  }

  /** The other fields the demo's builders fill in: locate and side of an ITCH order; length, stream, sequence
      number and side of an MTBT one. */
  lemma OtherFieldsReadBack(i: ItchSpec, m: MtbtSpec, offset: nat)
    ensures Le16(ItchBody(i), 1) == i.stockLocate % 0x1_0000 && ItchBody(i)[19] == 66
    ensures var p := MtbtPacket(m, offset);
      Le16(p, 0) == 34 && Le16(p, 2) == m.streamId % 0x1_0000 && Le32(p, 4) == Word(offset) && p[8 + 17] == 66
  {
    var locate := ToLe16(i.stockLocate);
    assert ItchBody(i)[1] == locate[0] && ItchBody(i)[2] == locate[1];
    Digits16(i.stockLocate);
    StreamHeaderReadsBack(m, offset);
    assert MtbtPacket(m, offset)[8 + 17] == MtbtBody(m)[17] == 66;
  }

  lemma Digits16(x: nat)
    ensures x % 256 + 256 * ((x / 256) % 256) == x % 0x1_0000
  {
    ModUnique(x, 0x1_0000, x / 256 / 256, x % 256 + 256 * ((x / 256) % 256));
  }

  lemma StreamHeaderReadsBack(m: MtbtSpec, offset: nat)
    ensures var p := MtbtPacket(m, offset);
      Le16(p, 0) == 34 && Le16(p, 2) == m.streamId % 0x1_0000 && Le32(p, 4) == Word(offset)
  {
    var p := MtbtPacket(m, offset);
    var len, stream := ToLe16(MTBT_HEADER + MTBT_SIZE), ToLe16(m.streamId);
    assert p[0] == len[0] && p[1] == len[1] && p[2] == stream[0] && p[3] == stream[1];
    Digits16(m.streamId);
    LastField(len + stream, ToLe32(offset));
    FieldStays(len + stream + ToLe32(offset), MtbtBody(m), 4, 8);
    Le32RoundTrip(p, 4, offset);
  }

  lemma MtbtPacketReadsBack(o: MtbtSpec, offset: nat)
    ensures MtbtWellFormed(MtbtPacket(o, offset))
    ensures |MtbtBody(o)| == MTBT_SIZE && MtbtPacket(o, offset)[MTBT_HEADER..] == MtbtBody(o)
    ensures MtbtBody(o)[0] == MTBT_NEW
    ensures MtbtToken(MtbtBody(o)) == Int32(o.token)
    ensures MtbtPrice(MtbtBody(o)) == Int32(o.price) && MtbtQuantity(MtbtBody(o)) == Int32(o.quantity)
  {
    var header := ToLe16(MTBT_HEADER + MTBT_SIZE) + ToLe16(o.streamId) + ToLe32(offset);
    assert header[0] == 34 && header[1] == 0;
    HeaderInFront(header, MtbtBody(o));
    MtbtFieldsReadBack(o);
    WordTwice(o.token);
    WordTwice(o.price);
    WordTwice(o.quantity);
  }

  lemma HeaderInFront(header: Bytes, body: Bytes)
    requires |header| == MTBT_HEADER
    ensures (header + body)[MTBT_HEADER..] == body
    ensures MsgLen(header + body, 0) == MsgLen(header, 0)
  {
  }

  lemma MtbtFieldsReadBack(o: MtbtSpec)
    ensures Le32(MtbtBody(o), 13) == Word(o.token) && Le32(MtbtBody(o), 18) == Word(o.price)
    ensures Le32(MtbtBody(o), 22) == Word(o.quantity)
  {
    var body, head := MtbtBody(o), [MTBT_NEW] + Repeat(0, 12);
    var token := head + ToLe32(o.token);
    var side := token + [66];
    var price := side + ToLe32(o.price);
    LastField(head, ToLe32(o.token));
    FieldStays(token, [66], 13, 17);
    FieldStays(side, ToLe32(o.price), 13, 17);
    FieldStays(price, ToLe32(o.quantity), 13, 17);
    Le32RoundTrip(body, 13, o.token);
    LastField(side, ToLe32(o.price));
    FieldStays(price, ToLe32(o.quantity), 18, 22);
    Le32RoundTrip(body, 18, o.price);
    LastField(price, ToLe32(o.quantity));
    Le32RoundTrip(body, 22, o.quantity);
  }

  lemma LaidOut(before: Bytes, after: Bytes, offset: nat, body: Bytes)
    requires ItchWellFormed(body) && offset + PREFIX + |body| <= |before| == |after|
    requires after[..offset] == before[..offset]
    requires after[offset] == |body| / 256 && after[offset + 1] == |body| % 256
    requires after[offset + PREFIX..offset + PREFIX + |body|] == body
    ensures after[..offset + PREFIX + |body|] == before[..offset] + Prefixed(body)
  {
    var front, prefix, all := after[..offset], after[offset..offset + PREFIX], after[..offset + PREFIX + |body|];
    assert prefix == [|body| / 256, |body| % 256];
    assert all == front + (prefix + body);
  }

  /** `memcpy` into a frame. */
  method CopyInto(frame: array<Byte>, at: nat, data: Bytes)
    requires at + |data| <= frame.Length
    modifies frame
    ensures frame[..at] == old(frame[..at]) && frame[at..at + |data|] == data
    ensures frame[at + |data|..] == old(frame[at + |data|..])
  {
    forall i | 0 <= i < |data| {
      frame[at + i] := data[i];
    }
    assert forall i :: at + |data| <= i < frame.Length ==> frame[i] == old(frame[i]);
  }

  /** `append_itch_add_order`: the framed order lands at the offset, nothing else changes. */
  method AppendItchAddOrder(frame: array<Byte>, offset: nat, o: ItchSpec) returns (next: nat)
    requires offset + PREFIX + ITCH_SIZE <= frame.Length
    modifies frame
    ensures next == offset + PREFIX + ITCH_SIZE
    ensures frame[..next] == old(frame[..offset]) + Prefixed(ItchBody(o))
    ensures frame[next..] == old(frame[next..])
  {
    var body := ItchBody(o);
    next := offset;
    frame[next] := |body| / 256;
    next := next + 1;
    frame[next] := |body| % 256;
    next := next + 1;
    ghost var front := frame[..next];
    TailStays(frame[..], old(frame[..]), next, next + |body|);
    CopyInto(frame, next, body);
    next := next + |body|;
    assert front[..offset] == old(frame[..offset]);
    assert frame[..offset] == front[..offset];
    assert frame[offset] == front[offset] && frame[offset + 1] == front[offset + 1];
    LaidOut(old(frame[..]), frame[..], offset, body);
  }

  /** `append_mtbt_order`, likewise. */
  method AppendMtbtOrder(frame: array<Byte>, offset: nat, o: MtbtSpec) returns (next: nat)
    requires offset + MTBT_HEADER + MTBT_SIZE <= frame.Length
    modifies frame
    ensures next == offset + MTBT_HEADER + MTBT_SIZE
    ensures frame[..next] == old(frame[..offset]) + MtbtPacket(o, offset)
    ensures frame[next..] == old(frame[next..])
  {
    var packet := MtbtPacket(o, offset);
    CopyInto(frame, offset, packet);
    next := offset + |packet|;
    assert frame[..next] == frame[..offset] + frame[offset..next];
  }

  lemma {:induction false} ItchEncodeAppends(xs: seq<Bytes>, x: Bytes)
    requires (forall y :: y in xs ==> ItchWellFormed(y)) && ItchWellFormed(x)
    ensures forall y :: y in xs + [x] ==> ItchWellFormed(y)
    ensures ItchEncode(xs + [x]) == ItchEncode(xs) + Prefixed(x)
  {
    if xs != [] {
      assert xs[0] in xs;
      assert (xs + [x])[0] == xs[0] && (xs + [x])[1..] == xs[1..] + [x];
      ItchEncodeAppends(xs[1..], x);
      ConcatAssociates(Prefixed(xs[0]), ItchEncode(xs[1..]), Prefixed(x));
    }
  }

  lemma {:induction false} MtbtEncodeAppends(xs: seq<Bytes>, x: Bytes)
    ensures MtbtEncode(xs + [x]) == MtbtEncode(xs) + x
  {
    if xs == [] {
      assert [x] == [] + [x];
    } else {
      assert (xs + [x])[0] == xs[0] && (xs + [x])[1..] == xs[1..] + [x];
      MtbtEncodeAppends(xs[1..], x);
      ConcatAssociates(xs[0], MtbtEncode(xs[1..]), x);
    }
  }

  // ----- Building a frame order by order -----

  function ItchBodies(specs: seq<ItchSpec>): (bs: seq<Bytes>)
    ensures |bs| == |specs| && forall i :: 0 <= i < |specs| ==> bs[i] == ItchBody(specs[i])
    ensures forall b :: b in bs ==> ItchWellFormed(b)
  {
    if specs == [] then [] else ItchBodies(specs[..|specs| - 1]) + [ItchBody(specs[|specs| - 1])]
  }

  /** Every packet records the offset it was put at as its sequence number. */
  function MtbtPackets(specs: seq<MtbtSpec>): (ps: seq<Bytes>)
    ensures |ps| == |specs|
  {
    if specs == [] then []
    else
      var last := |specs| - 1;
      MtbtPackets(specs[..last]) + [MtbtPacket(specs[last], (MTBT_HEADER + MTBT_SIZE) * last)]
  }

  lemma {:induction false} PacketOf(specs: seq<MtbtSpec>, i: nat)
    requires i < |specs|
    ensures MtbtPackets(specs)[i] == MtbtPacket(specs[i], (MTBT_HEADER + MTBT_SIZE) * i)
  {
    if i < |specs| - 1 { PacketOf(specs[..|specs| - 1], i); }
  }

  lemma ItchBodiesAppend(specs: seq<ItchSpec>, o: ItchSpec)
    ensures ItchBodies(specs + [o]) == ItchBodies(specs) + [ItchBody(o)]
  {
    assert (specs + [o])[..|specs|] == specs;
  }

  lemma MtbtPacketsAppend(specs: seq<MtbtSpec>, o: MtbtSpec)
    ensures MtbtPackets(specs + [o]) == MtbtPackets(specs) + [MtbtPacket(o, (MTBT_HEADER + MTBT_SIZE) * |specs|)]
  {
    assert (specs + [o])[..|specs|] == specs;
  }

  lemma ItchFrameGrows(specs: seq<ItchSpec>, i: nat)
    requires i < |specs|
    ensures ItchEncode(ItchBodies(specs[..i + 1])) == ItchEncode(ItchBodies(specs[..i])) + Prefixed(ItchBody(specs[i]))
  {
    assert specs[..i + 1] == specs[..i] + [specs[i]];
    ItchBodiesAppend(specs[..i], specs[i]);
    ItchEncodeAppends(ItchBodies(specs[..i]), ItchBody(specs[i]));
  }

  lemma MtbtFrameGrows(specs: seq<MtbtSpec>, i: nat, offset: nat)
    requires i < |specs| && offset == (MTBT_HEADER + MTBT_SIZE) * i
    ensures MtbtEncode(MtbtPackets(specs[..i + 1]))
         == MtbtEncode(MtbtPackets(specs[..i])) + MtbtPacket(specs[i], offset)
  {
    assert specs[..i + 1] == specs[..i] + [specs[i]];
    MtbtPacketsAppend(specs[..i], specs[i]);
    MtbtEncodeAppends(MtbtPackets(specs[..i]), MtbtPacket(specs[i], offset));
  }

  lemma TailStays(xs: Bytes, ys: Bytes, from: nat, to: nat)
    requires from <= to <= |xs| == |ys| && xs[from..] == ys[from..]
    ensures xs[to..] == ys[to..]
  {
    assert xs[to..] == xs[from..][to - from..] && ys[to..] == ys[from..][to - from..];
  }

  /** Calling `append_itch_add_order` again and again, from offset zero: the frame is the encoding of the
      orders' bodies. */
  method BuildItchFrame(frame: array<Byte>, specs: seq<ItchSpec>) returns (len: nat)
    requires (PREFIX + ITCH_SIZE) * |specs| <= frame.Length
    modifies frame
    ensures len == (PREFIX + ITCH_SIZE) * |specs| && frame[..len] == ItchEncode(ItchBodies(specs))
    ensures frame[len..] == old(frame[len..])
  {
    len := 0;
    ghost var was, built: Bytes := frame[..], [];
    for i := 0 to |specs|
      invariant len == (PREFIX + ITCH_SIZE) * i && frame[..len] == built && frame[..][len..] == was[len..]
      invariant built == ItchEncode(ItchBodies(specs[..i]))
    {
      ItchFrameGrows(specs, i);
      TailStays(frame[..], was, len, len + PREFIX + ITCH_SIZE);
      built := built + Prefixed(ItchBody(specs[i]));
      len := AppendItchAddOrder(frame, len, specs[i]);
    }
    assert specs[..|specs|] == specs;
  }

  /** `append_mtbt_order` again and again, likewise. */
  method BuildMtbtFrame(frame: array<Byte>, specs: seq<MtbtSpec>) returns (len: nat)
    requires (MTBT_HEADER + MTBT_SIZE) * |specs| <= frame.Length
    modifies frame
    ensures len == (MTBT_HEADER + MTBT_SIZE) * |specs| && frame[..len] == MtbtEncode(MtbtPackets(specs))
    ensures frame[len..] == old(frame[len..])
  {
    len := 0;
    ghost var was, built: Bytes := frame[..], [];
    for i := 0 to |specs|
      invariant len == (MTBT_HEADER + MTBT_SIZE) * i && frame[..len] == built && frame[..][len..] == was[len..]
      invariant built == MtbtEncode(MtbtPackets(specs[..i]))
    {
      MtbtFrameGrows(specs, i, len);
      TailStays(frame[..], was, len, len + MTBT_HEADER + MTBT_SIZE);
      built := built + MtbtPacket(specs[i], len);
      len := AppendMtbtOrder(frame, len, specs[i]);
    }
    assert specs[..|specs|] == specs;
  }
}
