/** The SBE encoders and decoders as the program runs them: writing into a caller's buffer at a moving
    offset, reading into the arrays of an out parameter. */
module SbeCodec {
  import opened Messages
  import opened Sbe

  /** Copies `src` into the buffer at `offset`. */
  method CopyInto(dst: array<Byte>, offset: nat, src: Bytes)
    requires offset + |src| <= dst.Length
    modifies dst
    ensures dst[..] == old(dst[..offset]) + src + old(dst[offset + |src|..])
  {
    forall i | 0 <= i < |src| {
      dst[offset + i] := src[i];
    }
    assert dst[offset..offset + |src|] == src;
  }

  /** `append_var_string8`: nothing happens when the string does not fit. */
  method AppendVarString8(dst: array<Byte>, cap: nat, offset: nat, str: Bytes, strLen: nat) returns (next: nat)
    requires cap <= dst.Length && strLen <= |str| && strLen < 256
    modifies dst
    ensures offset + 1 + strLen > cap ==> next == offset && dst[..] == old(dst[..])
    ensures offset + 1 + strLen <= cap ==>
              && next == offset + 1 + strLen
              && dst[..] == old(dst[..offset]) + VarString(str, strLen) + old(dst[next..])
  {
    if offset + 1 + strLen > cap {
      return offset;
    }
    next := offset;
    dst[next] := strLen;
    next := next + 1;
    if strLen > 0 {
      CopyInto(dst, next, str[..strLen]);
      next := next + strLen;
    }
    assert dst[offset..next] == VarString(str, strLen);
  }

  /** `encode_best_ob_rpi`: 0 when the buffer is too small, else the frame at its start. */
  method EncodeBestObRpi(m: BestOb, dst: array<Byte>, cap: nat) returns (n: nat)
    requires m.Valid() && m.symbolLen <= SYMBOL_CAP && cap <= dst.Length
    modifies dst
    ensures n == if cap < SBE_HEADER + BBO_BLOCK + 1 + m.symbolLen then 0 else |EncodeBestOb(m)|
    ensures n == 0 ==> dst[..] == old(dst[..])
    ensures n > 0 ==> n <= dst.Length && dst[..] == EncodeBestOb(m) + old(dst[n..])
  {
    if cap < SBE_HEADER + BBO_BLOCK + 1 + m.symbolLen {
      return 0;
    }
    ghost var was, front := dst[..], HeaderBytes(BBO_BLOCK, BBO_TEMPLATE, SCHEMA, 0);
    CopyInto(dst, 0, HeaderBytes(BBO_BLOCK, BBO_TEMPLATE, SCHEMA, 0));
    var offset := SBE_HEADER;
    assert dst[..] == front + was[offset..];
    CopyInto(dst, offset, m.body);
    offset, front := offset + BBO_BLOCK, front + m.body;
    assert dst[..] == front + was[offset..];
    n := AppendVarString8(dst, cap, offset, m.symbol, m.symbolLen);
    assert dst[..] == front + VarString(m.symbol, m.symbolLen) + was[n..];
  }

  /** `encode_create_order_req`. */
  method EncodeCreateOrderReq(body: Bytes, dst: array<Byte>, cap: nat) returns (n: nat)
    requires |body| == ORDER_BLOCK && cap <= dst.Length
    modifies dst
    ensures n == if cap < SBE_HEADER + ORDER_BLOCK then 0 else |EncodeCreateOrder(body)|
    ensures n == 0 ==> dst[..] == old(dst[..])
    ensures n > 0 ==> n <= dst.Length && dst[..] == EncodeCreateOrder(body) + old(dst[n..])
  {
    if cap < SBE_HEADER + ORDER_BLOCK {
      return 0;
    }
    ghost var was, front := dst[..], HeaderBytes(ORDER_BLOCK, ORDER_TEMPLATE, ORDER_SCHEMA, ORDER_VERSION);
    CopyInto(dst, 0, HeaderBytes(ORDER_BLOCK, ORDER_TEMPLATE, ORDER_SCHEMA, ORDER_VERSION));
    assert dst[..] == front + was[SBE_HEADER..];
    CopyInto(dst, SBE_HEADER, body);
    n := SBE_HEADER + ORDER_BLOCK;
    assert dst[..] == front + body + was[n..];
  }

  /** `encode_fast_order_resp`. */
  method EncodeFastOrderResp(m: FastResp, dst: array<Byte>, cap: nat) returns (n: nat)
    requires m.Valid() && m.idLen <= ID_CAP && m.linkLen <= ID_CAP && cap <= dst.Length
    modifies dst
    ensures n == if cap < SBE_HEADER + FAST_BLOCK + 2 + m.idLen + m.linkLen then 0 else |EncodeFastResp(m)|
    ensures n == 0 ==> dst[..] == old(dst[..])
    ensures n > 0 ==> n <= dst.Length && dst[..] == EncodeFastResp(m) + old(dst[n..])
  {
    if cap < SBE_HEADER + FAST_BLOCK + 2 + m.idLen + m.linkLen {
      return 0;
    }
    ghost var was, front := dst[..], HeaderBytes(FAST_BLOCK, FAST_TEMPLATE, SCHEMA, 0);
    CopyInto(dst, 0, HeaderBytes(FAST_BLOCK, FAST_TEMPLATE, SCHEMA, 0));
    var offset := SBE_HEADER;
    assert dst[..] == front + was[offset..];
    CopyInto(dst, offset, m.body);
    offset, front := offset + FAST_BLOCK, front + m.body;
    assert dst[..] == front + was[offset..];
    offset := AppendVarString8(dst, cap, offset, m.id, m.idLen);
    front := front + VarString(m.id, m.idLen);
    assert dst[..] == front + was[offset..];
    n := AppendVarString8(dst, cap, offset, m.link, m.linkLen);
    assert dst[..] == front + VarString(m.link, m.linkLen) + was[n..];
  }

  /** A string field of an out parameter: a character array and its length. */
  class Text {
    const chars: array<Byte>
    var len: nat

    constructor (cap: nat)
      ensures fresh(chars) && chars.Length == cap && len == 0
    {
      chars := new Byte[cap](_ => 0);
      len := 0;
    }

    /** Copies a string in and terminates it. */
    method Store(str: Bytes)
      requires |str| < chars.Length
      modifies this, chars
      ensures len == |str| && chars[..] == str + [0] + old(chars[|str| + 1..])
    {
      WithTerminator(str, chars[..]);
      len := |str|;
      if |str| > 0 {
        CopyInto(chars, 0, str);
      }
      assert chars[..] == str + old(chars[..])[|str|..];
      chars[|str|] := 0;
      assert chars[..] == (str + old(chars[..])[|str|..])[|str| := 0];
    }

    /** `read_var_string8`: on failure the text is untouched, though the offset may have moved past the
        length byte. */
    method Read(data: Bytes, offset: nat) returns (ok: bool, next: nat)
      modifies this, chars
      ensures VarRead(ok, len, chars[..], next) == ReadVar(data, offset, old(chars[..]), old(len))
    {
      next := offset;
      if next >= |data| {
        return false, next;
      }
      var strLen := data[next];
      next := next + 1;
      if next + strLen > |data| || strLen >= chars.Length {
        return false, next;
      }
      Store(data[next..next + strLen]);
      next := next + strLen;
      ok := true;
    }
  }

  lemma WithTerminator(str: Bytes, buffer: Bytes)
    requires |str| < |buffer|
    ensures (str + buffer[|str|..])[|str| := 0] == str + [0] + buffer[|str| + 1..]
  {
  }

  class FastOrderResp {
    var body: Bytes
    const orderId: Text
    const orderLinkId: Text

    ghost predicate Valid()
      reads this, orderId, orderLinkId
    {
      && orderId != orderLinkId && orderId.chars != orderLinkId.chars
      && |body| == FAST_BLOCK && orderId.chars.Length == orderLinkId.chars.Length == ID_CAP
      && orderId.len < 256 && orderLinkId.len < 256
    }

    ghost function Value(): (v: FastResp)
      requires Valid()
      reads this, orderId, orderId.chars, orderLinkId, orderLinkId.chars
      ensures v.Valid()
    {
      FastResp(body, orderId.len, orderId.chars[..], orderLinkId.len, orderLinkId.chars[..])
    }

    constructor ()
      ensures Valid() && fresh(orderId) && fresh(orderId.chars) && fresh(orderLinkId) && fresh(orderLinkId.chars)
    {
      body := Repeat(0, FAST_BLOCK);
      orderId := new Text(ID_CAP);
      orderLinkId := new Text(ID_CAP);
    }

    /** `decode_fast_order_resp` into this object. */
    method Decode(payload: Bytes) returns (ok: bool)
      requires Valid()
      modifies this, orderId, orderId.chars, orderLinkId, orderLinkId.chars
      ensures Valid()
      ensures (ok, Value()) == DecodeFastResp(payload, old(Value()))
    {
      if |payload| < SBE_HEADER + FAST_BLOCK + 1 {
        return false;
      }
      if Le16(payload, 2) != FAST_TEMPLATE || Le16(payload, 4) != SCHEMA || Le16(payload, 0) < FAST_BLOCK {
        return false;
      }
      var offset := SBE_HEADER;
      body := payload[offset..offset + FAST_BLOCK];
      offset := offset + FAST_BLOCK;
      ok, offset := orderId.Read(payload, offset);
      if !ok {
        return false;
      }
      ok, offset := orderLinkId.Read(payload, offset);
    }
  }

  class BestObRpi {
    var body: Bytes
    const symbol: Text

    ghost predicate Valid()
      reads this, symbol
    {
      |body| == BBO_BLOCK && symbol.chars.Length == SYMBOL_CAP && symbol.len < 256
    }

    ghost function Value(): (v: BestOb)
      requires Valid()
      reads this, symbol, symbol.chars
      ensures v.Valid()
    {
      BestOb(body, symbol.len, symbol.chars[..])
    }

    constructor ()
      ensures Valid() && fresh(symbol) && fresh(symbol.chars)
    {
      body := Repeat(0, BBO_BLOCK);
      symbol := new Text(SYMBOL_CAP);
    }

    /** `decode_best_ob_rpi` into this object. */
    method Decode(payload: Bytes) returns (ok: bool)
      requires Valid()
      modifies this, symbol, symbol.chars
      ensures Valid()
      ensures (ok, Value()) == DecodeBestOb(payload, old(Value()))
    {
      if |payload| < SBE_HEADER + BBO_BLOCK + 1 {
        return false;
      }
      if Le16(payload, 2) != BBO_TEMPLATE || Le16(payload, 4) != SCHEMA || Le16(payload, 0) < BBO_BLOCK {
        return false;
      }
      var offset := SBE_HEADER;
      body := payload[offset..offset + BBO_BLOCK];
      offset := offset + BBO_BLOCK;
      ok, offset := symbol.Read(payload, offset);
    }
  }
}
