/** The SBE codec: an 8-byte message header, a fixed root block, and strings with an 8-bit length. The
    root blocks are byte strings of their fixed size. A null payload is an empty one; both are refused. */
module Sbe {
  import opened Machine
  import opened Messages
  import opened Decoding
  import opened TradingSteps

  const SBE_HEADER: nat := 8

  const BBO_BLOCK: nat := 98
  const BBO_TEMPLATE: nat := 20000
  const SYMBOL_CAP: nat := 16

  const FAST_BLOCK: nat := 60
  const FAST_TEMPLATE: nat := 21000
  const ID_CAP: nat := 32

  /** Both the market schema and the fast-order schema have id 1 and version 0. */
  const SCHEMA: nat := 1

  /** `BestObRpi` as it lies in memory. */
  datatype BestOb = BestOb(body: Bytes, symbolLen: nat, symbol: Bytes)
  {
    predicate Valid() { |body| == BBO_BLOCK && |symbol| == SYMBOL_CAP && symbolLen < 256 }
  }

  /** `FastOrderResp` as it lies in memory. */
  datatype FastResp = FastResp(body: Bytes, idLen: nat, id: Bytes, linkLen: nat, link: Bytes)
  {
    predicate Valid() { |body| == FAST_BLOCK && |id| == |link| == ID_CAP && idLen < 256 && linkLen < 256 }
  }

  // ----- The wire format -----

  function HeaderBytes(block: nat, template: nat, schema: nat, version: nat): (h: Bytes)
    ensures |h| == SBE_HEADER
  {
    ToLe16(block) + ToLe16(template) + ToLe16(schema) + ToLe16(version)
  }

  /** A string on the wire: its length, then its characters. */
  function VarString(str: Bytes, len: nat): (v: Bytes)
    requires len <= |str| && len < 256
    ensures |v| == 1 + len
  {
    [len] + str[..len]
  }

  /** The encoder reads `symbolLen` characters of a 16-character array. */
  function EncodeBestOb(m: BestOb): (w: Bytes)
    requires m.Valid() && m.symbolLen <= SYMBOL_CAP
    ensures |w| == SBE_HEADER + BBO_BLOCK + 1 + m.symbolLen
  {
    HeaderBytes(BBO_BLOCK, BBO_TEMPLATE, SCHEMA, 0) + m.body + VarString(m.symbol, m.symbolLen)
  }

  function EncodeFastResp(m: FastResp): (w: Bytes)
    requires m.Valid() && m.idLen <= ID_CAP && m.linkLen <= ID_CAP
    ensures |w| == SBE_HEADER + FAST_BLOCK + 2 + m.idLen + m.linkLen
  {
    HeaderBytes(FAST_BLOCK, FAST_TEMPLATE, SCHEMA, 0) + m.body + VarString(m.id, m.idLen) + VarString(m.link, m.linkLen)
  }

  /** The result of `read_var_string8`: on success the string is in the buffer with a terminator, the
      rest of the buffer is as it was. */
  datatype VarRead = VarRead(ok: bool, len: nat, buffer: Bytes, offset: nat)

  function ReadVar(data: Bytes, offset: nat, buffer: Bytes, len: nat): VarRead {
    if offset >= |data| then VarRead(false, len, buffer, offset)
    else
      var n := data[offset];
      if offset + 1 + n > |data| || n >= |buffer| then VarRead(false, len, buffer, offset + 1)
      else VarRead(true, n, data[offset + 1..offset + 1 + n] + [0] + buffer[n + 1..], offset + 1 + n)
  }

  /** Template and schema must match; a longer block is accepted. */
  predicate HeaderMatches(data: Bytes, block: nat, template: nat, schema: nat) {
    && |data| >= SBE_HEADER
    && Le16(data, 2) == template && Le16(data, 4) == schema && Le16(data, 0) >= block
  }

  function DecodeBestOb(data: Bytes, out: BestOb): (bool, BestOb)
    requires out.Valid()
  {
    if |data| < SBE_HEADER + BBO_BLOCK + 1 || !HeaderMatches(data, BBO_BLOCK, BBO_TEMPLATE, SCHEMA) then (false, out)
    else
      var body := data[SBE_HEADER..SBE_HEADER + BBO_BLOCK];
      var r := ReadVar(data, SBE_HEADER + BBO_BLOCK, out.symbol, out.symbolLen);
      (r.ok, BestOb(body, r.len, r.buffer))
  }

  function DecodeFastResp(data: Bytes, out: FastResp): (bool, FastResp)
    requires out.Valid()
  {
    if |data| < SBE_HEADER + FAST_BLOCK + 1 || !HeaderMatches(data, FAST_BLOCK, FAST_TEMPLATE, SCHEMA) then (false, out)
    else
      var body := data[SBE_HEADER..SBE_HEADER + FAST_BLOCK];
      var r := ReadVar(data, SBE_HEADER + FAST_BLOCK, out.id, out.idLen);
      if !r.ok then (false, FastResp(body, r.len, r.buffer, out.linkLen, out.link))
      else
        var s := ReadVar(data, r.offset, out.link, out.linkLen);
        (s.ok, FastResp(body, r.len, r.buffer, s.len, s.buffer))
  }

  // ----- Round trips -----

  /** The two structs agree on everything the wire carries: body, length and characters; and the
      characters are terminated. */
  predicate SameString(len: nat, str: Bytes, len': nat, str': Bytes) {
    len' == len < |str'| && len <= |str| && str'[..len] == str[..len] && str'[len] == 0
  }

  lemma HeaderReadsBack(block: nat, template: nat, schema: nat, version: nat, rest: Bytes)
    requires block < 0x1_0000 && template < 0x1_0000 && schema < 0x1_0000
    ensures HeaderMatches(HeaderBytes(block, template, schema, version) + rest, block, template, schema)
  {
    var d := HeaderBytes(block, template, schema, version) + rest;
    assert d[0] == block % 256 && d[1] == (block / 256) % 256;
    assert d[2] == template % 256 && d[3] == (template / 256) % 256;
    assert d[4] == schema % 256 && d[5] == (schema / 256) % 256;
  }

  /** Reading a string that was just written. */
  lemma VarReadsBack(before: Bytes, str: Bytes, n: nat, after: Bytes, buffer: Bytes, len: nat)
    requires n <= |str| && n < 256
    ensures var r := ReadVar(before + VarString(str, n) + after, |before|, buffer, len);
      && (r.ok <==> n < |buffer|)
      && (r.ok ==> SameString(n, str, r.len, r.buffer) && |r.buffer| == |buffer| && r.offset == |before| + 1 + n)
      && (r.ok ==> r.buffer[n + 1..] == buffer[n + 1..])
      && (!r.ok ==> r.len == len && r.buffer == buffer && r.offset == |before| + 1)
  {
    var d := before + VarString(str, n) + after;
    assert d[|before|] == n;
    assert d[|before| + 1..|before| + 1 + n] == str[..n];
  }

  /** MAIN RESULT 20. Decoding what was encoded restores body and symbol exactly when the symbol has at
      most 15 characters; a 16-character symbol is encoded but refused by the decoder. */
  lemma BestObRoundTrip(m: BestOb, out: BestOb)
    requires m.Valid() && out.Valid() && m.symbolLen <= SYMBOL_CAP
    ensures var (ok, r) := DecodeBestOb(EncodeBestOb(m), out);
      && (ok <==> m.symbolLen <= 15)
      && (ok ==> r.Valid() && r.body == m.body && SameString(m.symbolLen, m.symbol, r.symbolLen, r.symbol))
  {
    var w := EncodeBestOb(m);
    var head, tail := HeaderBytes(BBO_BLOCK, BBO_TEMPLATE, SCHEMA, 0), VarString(m.symbol, m.symbolLen);
    assert w == head + (m.body + tail);
    HeaderReadsBack(BBO_BLOCK, BBO_TEMPLATE, SCHEMA, 0, m.body + tail);
    assert w[SBE_HEADER..SBE_HEADER + BBO_BLOCK] == m.body;
    assert w == (head + m.body) + tail + [];
    VarReadsBack(head + m.body, m.symbol, m.symbolLen, [], out.symbol, out.symbolLen);
  }

  /** Encoding what was decoded gives the frame back, for every accepted frame of exact length whose
      header is the one the encoder writes. */
  lemma BestObWireRoundTrip(w: Bytes, out: BestOb)
    requires out.Valid() && DecodeBestOb(w, out).0
    requires w[..SBE_HEADER] == HeaderBytes(BBO_BLOCK, BBO_TEMPLATE, SCHEMA, 0)
    requires |w| == SBE_HEADER + BBO_BLOCK + 1 + w[SBE_HEADER + BBO_BLOCK]
    ensures var r := DecodeBestOb(w, out).1; r.Valid() && r.symbolLen <= SYMBOL_CAP && EncodeBestOb(r) == w
  {
    var r := DecodeBestOb(w, out).1;
    var n := w[SBE_HEADER + BBO_BLOCK];
    assert r.symbol[..n] == w[SBE_HEADER + BBO_BLOCK + 1..];
    assert w == w[..SBE_HEADER] + w[SBE_HEADER..SBE_HEADER + BBO_BLOCK] + ([n] + w[SBE_HEADER + BBO_BLOCK + 1..]);
  }

  /** MAIN RESULT 21. A fast-order response survives exactly when both ids have at most 31 characters. */
  lemma FastRespRoundTrip(m: FastResp, out: FastResp)
    requires m.Valid() && out.Valid() && m.idLen <= ID_CAP && m.linkLen <= ID_CAP
    ensures var (ok, r) := DecodeFastResp(EncodeFastResp(m), out);
      && (ok <==> m.idLen <= 31 && m.linkLen <= 31)
      && (ok ==> r.Valid() && r.body == m.body)
      && (ok ==> SameString(m.idLen, m.id, r.idLen, r.id) && SameString(m.linkLen, m.link, r.linkLen, r.link))
  {
    var w := EncodeFastResp(m);
    var head := HeaderBytes(FAST_BLOCK, FAST_TEMPLATE, SCHEMA, 0);
    var id, link := VarString(m.id, m.idLen), VarString(m.link, m.linkLen);
    assert w == head + (m.body + id + link);
    HeaderReadsBack(FAST_BLOCK, FAST_TEMPLATE, SCHEMA, 0, m.body + id + link);
    assert w[SBE_HEADER..SBE_HEADER + FAST_BLOCK] == m.body;
    VarReadsBack(head + m.body, m.id, m.idLen, link, out.id, out.idLen);
    assert w == (head + m.body + id) + link + [];
    VarReadsBack(head + m.body + id, m.link, m.linkLen, [], out.link, out.linkLen);
  }

  lemma ThreeCuts(w: Bytes, i: nat, j: nat, k: nat)
    requires i <= j <= k <= |w|
    ensures w == w[..i] + w[i..j] + w[j..k] + w[k..]
  {
  }

  lemma FastRespWireRoundTrip(w: Bytes, out: FastResp)
    requires out.Valid() && DecodeFastResp(w, out).0
    requires w[..SBE_HEADER] == HeaderBytes(FAST_BLOCK, FAST_TEMPLATE, SCHEMA, 0)
    requires var r := DecodeFastResp(w, out).1; |w| == SBE_HEADER + FAST_BLOCK + 2 + r.idLen + r.linkLen
    ensures var r := DecodeFastResp(w, out).1;
      r.Valid() && r.idLen <= ID_CAP && r.linkLen <= ID_CAP && EncodeFastResp(r) == w
  {
    var r, i := DecodeFastResp(w, out).1, SBE_HEADER + FAST_BLOCK;
    var j := i + 1 + r.idLen;
    assert w[i..j] == VarString(r.id, r.idLen);
    assert w[j..] == VarString(r.link, r.linkLen);
    ThreeCuts(w, SBE_HEADER, i, j);
  }

  // ----- The literal wire -----

  /** The bytes a frame begins with: block length, template, schema and version, low byte first. */
  lemma BestObBegins(m: BestOb)
    requires m.Valid() && m.symbolLen <= SYMBOL_CAP
    ensures EncodeBestOb(m)[..8] == [98, 0, 0x20, 0x4E, 1, 0, 0, 0]
    ensures |EncodeBestOb(m)| == 107 + m.symbolLen && EncodeBestOb(m)[8..106] == m.body
    ensures EncodeBestOb(m)[106] == m.symbolLen && EncodeBestOb(m)[107..] == m.symbol[..m.symbolLen]
  {
  }

  lemma FastRespBegins(m: FastResp)
    requires m.Valid() && m.idLen <= ID_CAP && m.linkLen <= ID_CAP
    ensures EncodeFastResp(m)[..8] == [60, 0, 0x08, 0x52, 1, 0, 0, 0]
    ensures |EncodeFastResp(m)| == 70 + m.idLen + m.linkLen && EncodeFastResp(m)[8..68] == m.body
    ensures EncodeFastResp(m)[68] == m.idLen && EncodeFastResp(m)[69..69 + m.idLen] == m.id[..m.idLen]
    ensures EncodeFastResp(m)[69 + m.idLen] == m.linkLen && EncodeFastResp(m)[70 + m.idLen..] == m.link[..m.linkLen]
  {
  }

  /** A header for at least this block, with this template and schema. */
  predicate HeaderSays(w: Bytes, block: nat, template: nat, schema: nat) {
    && |w| >= 8 && w[0] as nat + 256 * w[1] as nat >= block
    && w[2] as nat + 256 * w[3] as nat == template && w[4] as nat + 256 * w[5] as nat == schema
  }

  /** Exactly which bytes the decoders accept. */
  lemma BestObAccepted(w: Bytes, out: BestOb)
    requires out.Valid()
    ensures DecodeBestOb(w, out).0 <==>
              HeaderSays(w, 98, 20000, 1) && |w| >= 107 && w[106] < 16 && |w| >= 107 + w[106]
  {
  }

  lemma FastRespAccepted(w: Bytes, out: FastResp)
    requires out.Valid()
    ensures DecodeFastResp(w, out).0 <==>
              && HeaderSays(w, 60, 21000, 1) && |w| >= 69 && w[68] < 32 && |w| >= 70 + w[68]
              && w[69 + w[68]] < 32 && |w| >= 70 + w[68] + w[69 + w[68]]
  {
  }

  /** What a refused decode leaves behind: nothing when the header or the size is wrong; the block, but not
      the string that does not fit, when they are right. */
  lemma BestObRefused(w: Bytes, out: BestOb)
    requires out.Valid() && !DecodeBestOb(w, out).0
    ensures DecodeBestOb(w, out).1
         == if HeaderSays(w, 98, 20000, 1) && |w| >= 107 then BestOb(w[8..106], out.symbolLen, out.symbol) else out
  {
  }

  lemma FastRespRefused(w: Bytes, out: FastResp)
    requires out.Valid() && !DecodeFastResp(w, out).0
    ensures var r := DecodeFastResp(w, out).1;
      if !HeaderSays(w, 60, 21000, 1) || |w| < 69 then r == out
      else
        && r.body == w[8..68] && r.linkLen == out.linkLen && r.link == out.link
        && if w[68] >= 32 || |w| < 69 + w[68] then r.idLen == out.idLen && r.id == out.id
           else r.idLen == w[68] && |r.id| == 32 && r.id[..w[68]] == w[69..69 + w[68]] && r.id[w[68]] == 0
  {
  }

  // ----- Orders: one fixed block -----

  const ORDER_BLOCK: nat := 242
  const ORDER_TEMPLATE: nat := 5
  const ORDER_SCHEMA: nat := 2
  const ORDER_VERSION: nat := 2

  function EncodeCreateOrder(body: Bytes): (w: Bytes)
    requires |body| == ORDER_BLOCK
    ensures |w| == SBE_HEADER + ORDER_BLOCK
  {
    HeaderBytes(ORDER_BLOCK, ORDER_TEMPLATE, ORDER_SCHEMA, ORDER_VERSION) + body
  }

  function DecodeCreateOrder(data: Bytes, out: Bytes): (bool, Bytes) {
    if |data| < SBE_HEADER + ORDER_BLOCK then (false, out)
    else if !HeaderMatches(data, ORDER_BLOCK, ORDER_TEMPLATE, ORDER_SCHEMA) then (false, out)
    else (true, data[SBE_HEADER..SBE_HEADER + ORDER_BLOCK])
  }

  lemma CreateOrderBegins(body: Bytes)
    requires |body| == ORDER_BLOCK
    ensures EncodeCreateOrder(body)[..8] == [242, 0, 5, 0, 2, 0, 2, 0] && EncodeCreateOrder(body)[8..] == body
  {
  }

  lemma CreateOrderAccepted(w: Bytes, out: Bytes)
    ensures DecodeCreateOrder(w, out).0 <==> HeaderSays(w, 242, 5, 2) && |w| >= 250
  {
  }

  /** Every order survives, whatever follows it in the buffer. */
  lemma CreateOrderRoundTrip(body: Bytes, rest: Bytes, out: Bytes)
    requires |body| == ORDER_BLOCK
    ensures DecodeCreateOrder(EncodeCreateOrder(body) + rest, out) == (true, body)
  {
    var head := HeaderBytes(ORDER_BLOCK, ORDER_TEMPLATE, ORDER_SCHEMA, ORDER_VERSION);
    assert EncodeCreateOrder(body) + rest == head + (body + rest);
    HeaderReadsBack(ORDER_BLOCK, ORDER_TEMPLATE, ORDER_SCHEMA, ORDER_VERSION, body + rest);
    assert (head + (body + rest))[SBE_HEADER..SBE_HEADER + ORDER_BLOCK] == body;
  }

  // ----- The acknowledgements the gateway makes -----

  /** The block of an acknowledgement: category spot, side, status 1, exponents and reason zero; price and
      quantity left. */
  function AckFront(a: SbeAck): (b: Bytes)
    ensures |b| == 24
  {
    [1, a.side % 256, 1, 0, 0, 0, 0, 0] + ToLe64(a.price) + ToLe64(a.leavesQty)
  }

  /** Value left and two times, all zero; number and symbol. */
  function AckBack(a: SbeAck): (b: Bytes)
    ensures |b| == 36
  {
    Repeat(0, 24) + ToLe64(a.seqNo) + ToLe32(a.symbolId)
  }

  function AckStruct(a: SbeAck): (m: FastResp)
    requires |a.orderId| <= ID_CAP && |a.orderLinkId| <= ID_CAP
    ensures m.Valid()
  {
    FastResp(AckFront(a) + AckBack(a),
             |a.orderId|, Padded(a.orderId, ID_CAP), |a.orderLinkId|, Padded(a.orderLinkId, ID_CAP))
  }

  lemma AckFrontFields(a: SbeAck)
    requires a.side < 256
    ensures AckFront(a)[..8] == [1, a.side, 1, 0, 0, 0, 0, 0]
    ensures AckFront(a)[8..16] == ToLe64(a.price) && AckFront(a)[16..24] == ToLe64(a.leavesQty)
  {
    var head: Bytes := [1, a.side % 256, 1, 0, 0, 0, 0, 0];
    LastField(head, ToLe64(a.price));
    FieldStays(head + ToLe64(a.price), ToLe64(a.leavesQty), 8, 16);
    LastField(head + ToLe64(a.price), ToLe64(a.leavesQty));
  }

  lemma AckBackFields(a: SbeAck)
    ensures AckBack(a)[24..32] == ToLe64(a.seqNo) && AckBack(a)[32..36] == ToLe32(a.symbolId)
  {
    var head: Bytes := Repeat(0, 24);
    LastField(head, ToLe64(a.seqNo));
    FieldStays(head + ToLe64(a.seqNo), ToLe32(a.symbolId), 24, 32);
    LastField(head + ToLe64(a.seqNo), ToLe32(a.symbolId));
  }

  /** The fields of an acknowledgement at their places in the block: category, side, status, then price,
      quantity left, number and symbol. */
  lemma AckFields(a: SbeAck)
    requires |a.orderId| <= ID_CAP && |a.orderLinkId| <= ID_CAP
    requires FitsInt64(a.price) && FitsInt64(a.leavesQty) && FitsInt64(a.seqNo) && a.side < 256
    ensures var b := AckStruct(a).body;
      && b[..8] == [1, a.side, 1, 0, 0, 0, 0, 0]
      && Int64(Le64(b, 8)) == a.price && Int64(Le64(b, 16)) == a.leavesQty
      && Int64(Le64(b, 48)) == a.seqNo && Le32(b, 56) == Word(a.symbolId)
    ensures AckStruct(a).id[..AckStruct(a).idLen] == a.orderId
    ensures AckStruct(a).link[..AckStruct(a).linkLen] == a.orderLinkId
  {
    var b, x, y := AckStruct(a).body, AckFront(a), AckBack(a);
    AckFrontFields(a);
    AckBackFields(a);
    FieldStays(x, y, 0, 8);
    FieldStays(x, y, 8, 16);
    FieldStays(x, y, 16, 24);
    InBack(x, y, 24, 32);
    InBack(x, y, 32, 36);
    Le64RoundTrip(b, 8, a.price);
    Le64RoundTrip(b, 16, a.leavesQty);
    Le64RoundTrip(b, 48, a.seqNo);
    Le32RoundTrip(b, 56, a.symbolId);
  }

  /** The decoded struct is the acknowledgement's: body, order id and link id. */
  predicate CarriesAck(r: FastResp, ack: SbeAck)
    requires |ack.orderId| <= ID_CAP && |ack.orderLinkId| <= ID_CAP
  {
    var m := AckStruct(ack);
    && r.Valid() && r.body == m.body
    && SameString(m.idLen, m.id, r.idLen, r.id) && SameString(m.linkLen, m.link, r.linkLen, r.link)
  }

  /** Every acknowledgement of a request survives the wire, field by field and with the request's own link
      id, exactly when that has at most 31 characters: longer ones are cut to 32, which the decoder
      refuses. */
  lemma AckRoundTrip(g: Gateway, o: SbeOrder, out: FastResp)
    requires out.Valid()
    ensures var ack := Confirm(g, SbeRequest(o)).value.1.sbeAck;
      && |ack.orderId| <= ID_CAP && |ack.orderLinkId| <= ID_CAP
      && var (ok, r) := DecodeFastResp(EncodeFastResp(AckStruct(ack)), out);
         && (ok <==> |o.orderLinkId| <= 31)
         && (ok ==> CarriesAck(r, ack) && r.linkLen <= |r.link| && r.link[..r.linkLen] == o.orderLinkId)
  {
    var ack := Confirm(g, SbeRequest(o)).value.1.sbeAck;
    FastRespRoundTrip(AckStruct(ack), out);
  }

  /** So every acknowledgement of an order the SBE consumer makes survives: "lnk" and a 32-bit token in
      decimal have at most 13 characters. */
  lemma ConsumerAcksSurvive(g: Gateway, a: Account, c: Consumer, s: StrategySignal, out: FastResp)
    requires out.Valid() && s.orderToken < TWO_32
    ensures var o := MakeOrder(SbeFeed, a, c, s).sbe;
      var ack := Confirm(g, SbeRequest(o)).value.1.sbeAck;
      && |o.orderLinkId| <= 13 && |ack.orderId| <= ID_CAP && |ack.orderLinkId| <= ID_CAP
      && var (ok, r) := DecodeFastResp(EncodeFastResp(AckStruct(ack)), out);
         ok && CarriesAck(r, ack) && r.linkLen <= |r.link| && r.link[..r.linkLen] == LinkId(s.orderToken)
  {
    TokenLength(s.orderToken);
    AckRoundTrip(g, MakeOrder(SbeFeed, a, c, s).sbe, out);
  }
}
