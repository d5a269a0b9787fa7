/** Splitting a feed frame into messages, and building one. */
module Framing {
  import opened Machine
  import opened Counting
  import opened Messages

  /** What a splitter reports: handler calls that returned true, calls that returned false, and the
      offset it stopped at. */
  datatype Stats = Stats(saved: nat, skipped: nat, consumed: nat)

  /** One handler call: where its bytes start, and the bytes. */
  datatype Call = Call(start: nat, body: Bytes)

  /** How many calls the handler accepts. It may answer each call differently. */
  function Saves(handler: (nat, Call) -> bool, calls: seq<Call>): nat {
    if calls == [] then 0
    else
      var last := |calls| - 1;
      Saves(handler, calls[..last]) + if handler(last, calls[last]) then 1 else 0
  }

  lemma SavesAppends(handler: (nat, Call) -> bool, calls: seq<Call>, c: Call)
    ensures Saves(handler, calls + [c]) == Saves(handler, calls) + if handler(|calls|, c) then 1 else 0
  {
    assert (calls + [c])[..|calls|] == calls;
  }

  function Bodies(calls: seq<Call>): seq<Bytes> {
    seq(|calls|, i requires 0 <= i < |calls| => calls[i].body)
  }

  function Sum(calls: seq<Call>): nat {
    if calls == [] then 0 else Sum(calls[..|calls| - 1]) + |calls[|calls| - 1].body|
  }

  /** Where the last call ended. */
  function End(calls: seq<Call>): nat {
    if calls == [] then 0 else calls[|calls| - 1].start + |calls[|calls| - 1].body|
  }

  /** The calls hand over bytes of the frame, none is empty, and each begins `gap` bytes after the end
      of the one before it: they are disjoint and in order. */
  predicate InOrder(frame: Bytes, calls: seq<Call>, gap: nat) {
    calls == [] ||
    (var front, c := calls[..|calls| - 1], calls[|calls| - 1];
     && InOrder(frame, front, gap)
     && c.start == End(front) + gap && c.body != []
     && c.start + |c.body| <= |frame| && frame[c.start..c.start + |c.body|] == c.body)
  }

  lemma {:induction false} EndIsSum(frame: Bytes, calls: seq<Call>, gap: nat)
    requires InOrder(frame, calls, gap)
    ensures End(calls) == Sum(calls) + gap * |calls| <= |frame|
  {
    if calls != [] {
      EndIsSum(frame, calls[..|calls| - 1], gap);
      assert gap * |calls| == gap * (|calls| - 1) + gap;
    }
  }

  /** One more call. */
  lemma InOrderExtends(frame: Bytes, calls: seq<Call>, gap: nat, c: Call)
    requires InOrder(frame, calls, gap)
    requires c.start == End(calls) + gap && c.body != []
    requires c.start + |c.body| <= |frame| && frame[c.start..c.start + |c.body|] == c.body
    ensures InOrder(frame, calls + [c], gap)
    ensures End(calls + [c]) == c.start + |c.body|
    ensures Bodies(calls + [c]) == Bodies(calls) + [c.body]
  {
    assert (calls + [c])[..|calls|] == calls;
  }

  lemma ConcatAssociates<T>(a: seq<T>, b: seq<T>, c: seq<T>)
    ensures a + (b + c) == (a + b) + c
  {
  }

  // ===== ITCH: [big-endian 16-bit length][body] repeated =====

  const PREFIX: nat := 2

  function Be16(data: Bytes): (n: nat)
    requires |data| >= 2
    ensures n < 0x1_0000
  {
    256 * (data[0] as nat) + data[1] as nat
  }

  /** The bodies a frame holds, and the bytes the splitter consumes: a bad prefix (length zero or
      running past the end) stops it after the prefix itself. */
  datatype Split = Split(bodies: seq<Bytes>, consumed: nat)

  function ItchSplit(frame: Bytes): (s: Split)
    ensures s.consumed <= |frame|
    decreases |frame|
  {
    if |frame| < PREFIX then Split([], 0)
    else
      var n := Be16(frame);
      if n == 0 || PREFIX + n > |frame| then Split([], PREFIX)
      else
        var rest := ItchSplit(frame[PREFIX + n..]);
        Split([frame[PREFIX..PREFIX + n]] + rest.bodies, PREFIX + n + rest.consumed)
  }

  /** The splitter has made `calls` and stands at offset o. */
  ghost predicate ItchProgress(frame: Bytes, calls: seq<Call>, o: nat) {
    && InOrder(frame, calls, PREFIX) && End(calls) == o <= |frame|
    && ItchSplit(frame).bodies == Bodies(calls) + ItchSplit(frame[o..]).bodies
    && ItchSplit(frame).consumed == o + ItchSplit(frame[o..]).consumed
  }

  lemma ItchNext(frame: Bytes, o: nat, end: nat)
    requires o + PREFIX <= |frame| && o + PREFIX < end == o + PREFIX + Be16(frame[o..]) <= |frame|
    ensures ItchSplit(frame[o..]).bodies == [frame[o + PREFIX..end]] + ItchSplit(frame[end..]).bodies
    ensures ItchSplit(frame[o..]).consumed == end - o + ItchSplit(frame[end..]).consumed
  {
    var rest := frame[o..];
    assert rest[end - o..] == frame[end..];
    assert rest[PREFIX..end - o] == frame[o + PREFIX..end];
  }

  lemma ItchProgresses(frame: Bytes, calls: seq<Call>, o: nat, c: Call, end: nat)
    requires ItchProgress(frame, calls, o) && o + PREFIX <= |frame|
    requires o + PREFIX < end == o + PREFIX + Be16(frame[o..]) <= |frame|
    requires c == Call(o + PREFIX, frame[o + PREFIX..end])
    ensures ItchProgress(frame, calls + [c], end)
  {
    ItchNext(frame, o, end);
    InOrderExtends(frame, calls, PREFIX, c);
    ConcatAssociates(Bodies(calls), [c.body], ItchSplit(frame[end..]).bodies);
  }

  /** The splitter stops at offset o, after a prefix it cannot use or before one that is not there. */
  lemma ItchStops(frame: Bytes, calls: seq<Call>, o: nat, end: nat)
    requires ItchProgress(frame, calls, o)
    requires o + PREFIX <= |frame| ==> Be16(frame[o..]) == 0 || o + PREFIX + Be16(frame[o..]) > |frame|
    requires end == if o + PREFIX <= |frame| then o + PREFIX else o
    ensures Bodies(calls) == ItchSplit(frame).bodies && end == ItchSplit(frame).consumed
    ensures o == Sum(calls) + PREFIX * |calls|
  {
    EndIsSum(frame, calls, PREFIX);
    assert ItchSplit(frame[o..]).bodies == [];
    assert Bodies(calls) + [] == Bodies(calls);
  }

  /** `split_itch_frame` on any bytes: the handler sees exactly the bodies of `ItchSplit`, in order;
      the ranges are in the frame, disjoint and two bytes apart; every call is counted once; and the
      bytes consumed are those of the handled messages with their prefixes, plus two when the splitter
      stopped on a bad prefix. */
  method SplitItchFrame(frame: Bytes, handler: (nat, Call) -> bool) returns (stats: Stats, calls: seq<Call>)
    ensures InOrder(frame, calls, PREFIX)
    ensures Bodies(calls) == ItchSplit(frame).bodies
    ensures stats.consumed == ItchSplit(frame).consumed
    ensures var done := Sum(calls) + PREFIX * |calls|;
            stats.consumed == if done + PREFIX <= |frame| then done + PREFIX else done
    ensures stats.saved == Saves(handler, calls) && stats.saved + stats.skipped == |calls|
  {
    var offset, saved, skipped := 0, 0, 0;
    calls := [];
    ghost var at := 0;
    assert frame[0..] == frame;
    while offset + PREFIX <= |frame|
      invariant at == offset && ItchProgress(frame, calls, at)
      invariant saved == Saves(handler, calls) && saved + skipped == |calls|
      decreases |frame| - offset
    {
      var bodyLen := Be16(frame[offset..]);
      offset := offset + PREFIX;
      if bodyLen == 0 || offset + bodyLen > |frame| {
        break;
      }
      var call := Call(offset, frame[offset..offset + bodyLen]);
      if !handler(|calls|, call) {
        skipped := skipped + 1;
      } else {
        saved := saved + 1;
      }
      offset := offset + bodyLen;
      ItchProgresses(frame, calls, at, call, offset);
      SavesAppends(handler, calls, call);
      calls, at := calls + [call], offset;
    }
    ItchStops(frame, calls, at, offset);
    stats := Stats(saved, skipped, offset);
  }

  /** A message that fits a prefix. */
  predicate ItchWellFormed(x: Bytes) {
    0 < |x| < 0x1_0000
  }

  function Prefixed(x: Bytes): Bytes
    requires ItchWellFormed(x)
  {
    var prefix: Bytes := [|x| / 256, |x| % 256];
    prefix + x
  }

  function ItchEncode(xs: seq<Bytes>): Bytes
    requires forall x :: x in xs ==> ItchWellFormed(x)
  {
    if xs == [] then []
    else Prefixed(xs[0]) + ItchEncode(xs[1..])
  }

  lemma HeadMessage(x: Bytes, rest: Bytes)
    requires ItchWellFormed(x)
    ensures ItchSplit(Prefixed(x) + rest).bodies == [x] + ItchSplit(rest).bodies
    ensures ItchSplit(Prefixed(x) + rest).consumed == |Prefixed(x)| + ItchSplit(rest).consumed
  {
    var f := Prefixed(x) + rest;
    assert Be16(f) == |x|;
    assert f[PREFIX..PREFIX + |x|] == x && f[PREFIX + |x|..] == rest;
  }

  lemma ItchEncodeFirst(xs: seq<Bytes>, tail: Bytes)
    requires xs != [] && forall x :: x in xs ==> ItchWellFormed(x)
    ensures ItchEncode(xs) + tail == Prefixed(xs[0]) + (ItchEncode(xs[1..]) + tail)
    ensures |ItchEncode(xs)| == |Prefixed(xs[0])| + |ItchEncode(xs[1..])|
  {
    ConcatAssociates(Prefixed(xs[0]), ItchEncode(xs[1..]), tail);
  }

  lemma FirstMoved<T>(x: T, rest: seq<T>, tail: seq<T>, all: seq<T>)
    requires all != [] && all[0] == x && all[1..] == rest
    ensures [x] + (rest + tail) == all + tail
  {
    assert all == [x] + rest;
  }

  /** Splitting inverts framing, for any messages and whatever follows them. */
  lemma {:induction false} ItchSplitInvertsEncode(xs: seq<Bytes>, tail: Bytes)
    requires forall x :: x in xs ==> ItchWellFormed(x)
    ensures ItchSplit(ItchEncode(xs) + tail).bodies == xs + ItchSplit(tail).bodies
    ensures ItchSplit(ItchEncode(xs) + tail).consumed == |ItchEncode(xs)| + ItchSplit(tail).consumed
  {
    if xs == [] {
      assert ItchEncode(xs) + tail == tail;
    } else {
      var x, rest := xs[0], ItchEncode(xs[1..]) + tail;
      ItchEncodeFirst(xs, tail);
      HeadMessage(x, rest);
      ItchSplitInvertsEncode(xs[1..], tail);
      FirstMoved(x, xs[1..], ItchSplit(tail).bodies, xs);
    }
  }

  // ===== MTBT: packets that begin with an 8-byte header holding their signed 16-bit length =====

  /** One handler call. The length is the header's, sign-extended to an unsigned 64-bit size. */
  datatype Packet = Packet(start: nat, len: nat)

  function SizeT(x: int): (n: nat)
    ensures n < TWO_64
  {
    x % 0x1_0000_0000_0000_0000
  }

  function MsgLen(frame: Bytes, o: nat): int
    requires o + MTBT_HEADER <= |frame|
  {
    Int16(Le16(frame, o))
  }

  /** The packet the loop handles at offset o, or None where it stops. Offset and length are added
      modulo 2^64, so a negative length can pass the bounds test. */
  function NextPacket(frame: Bytes, o: nat): Option<Packet> {
    if o + MTBT_HEADER > |frame| then None
    else
      var len := SizeT(MsgLen(frame, o));
      if len < MTBT_HEADER || SizeT(o + len) > |frame| then None else Some(Packet(o, len))
  }

  function Past(p: Packet): nat {
    SizeT(p.start + p.len)
  }

  /** The loop, standing at offset o, stops after at most n more handler calls. */
  predicate StopsIn(frame: Bytes, o: nat, n: nat)
    decreases n
  {
    match NextPacket(frame, o)
    case None => true
    case Some(p) => n > 0 && StopsIn(frame, Past(p), n - 1)
  }

  function Packets(frame: Bytes, o: nat, n: nat): seq<Packet>
    requires StopsIn(frame, o, n)
    decreases n
  {
    match NextPacket(frame, o)
    case None => []
    case Some(p) => [p] + Packets(frame, Past(p), n - 1)
  }

  function Final(frame: Bytes, o: nat, n: nat): nat
    requires StopsIn(frame, o, n)
    decreases n
  {
    match NextPacket(frame, o)
    case None => o
    case Some(p) => Final(frame, Past(p), n - 1)
  }

  function PacketSaves(handler: (nat, Packet) -> bool, packets: seq<Packet>): nat {
    if packets == [] then 0
    else
      var last := |packets| - 1;
      PacketSaves(handler, packets[..last]) + if handler(last, packets[last]) then 1 else 0
  }

  /** `split_mtbt_frame` on any bytes on which it stops at all (see `StopsWithinLength`): the handler
      gets exactly the packets of `Packets`, and the final offset is reported as consumed. */
  method SplitMtbtFrame(frame: Bytes, handler: (nat, Packet) -> bool) returns (stats: Stats, packets: seq<Packet>)
    requires StopsIn(frame, 0, |frame|)
    ensures packets == Packets(frame, 0, |frame|)
    ensures stats.consumed == Final(frame, 0, |frame|)
    ensures stats.saved == PacketSaves(handler, packets) && stats.saved + stats.skipped == |packets|
  {
    var offset: nat, saved: nat, skipped: nat := 0, 0, 0;
    packets := [];
    ghost var left: nat := |frame|;
    while offset + MTBT_HEADER <= |frame|
      invariant StopsIn(frame, offset, left)
      invariant Packets(frame, 0, |frame|) == packets + Packets(frame, offset, left)
      invariant Final(frame, 0, |frame|) == Final(frame, offset, left)
      invariant saved == PacketSaves(handler, packets) && saved + skipped == |packets|
      decreases left
    {
      var packetLen := SizeT(MsgLen(frame, offset));
      if packetLen < MTBT_HEADER || SizeT(offset + packetLen) > |frame| {
        break;
      }
      var packet := Packet(offset, packetLen);
      assert NextPacket(frame, offset) == Some(packet);
      if !handler(|packets|, packet) {
        skipped := skipped + 1;
      } else {
        saved := saved + 1;
      }
      assert (packets + [packet])[..|packets|] == packets;
      ConcatAssociates(packets, [packet], Packets(frame, Past(packet), left - 1));
      packets := packets + [packet];
      offset, left := Past(packet), left - 1;
    }
    stats := Stats(saved, skipped, offset);
  }

  // ----- When the MTBT loop stops -----

  /** The offset after n handler calls, if the loop gets that far. */
  function OffsetAfter(frame: Bytes, n: nat): Option<nat> {
    if n == 0 then Some(0)
    else match OffsetAfter(frame, n - 1)
      case None => None
      case Some(o) => match NextPacket(frame, o) case None => None case Some(p) => Some(Past(p))
  }

  lemma {:induction false} StopsMeansOffsetsEnd(frame: Bytes, i: nat, n: nat)
    requires OffsetAfter(frame, i).Some?
    ensures StopsIn(frame, OffsetAfter(frame, i).value, n) <==> OffsetAfter(frame, i + n + 1).None?
    decreases n
  {
    var o := OffsetAfter(frame, i).value;
    if NextPacket(frame, o).None? {
      NeverResumes(frame, i + 1, i + n + 1);
    } else if n > 0 {
      StopsMeansOffsetsEnd(frame, i + 1, n - 1);
    }
  }

  lemma {:induction false} NeverResumes(frame: Bytes, i: nat, j: nat)
    requires OffsetAfter(frame, i).None? && i <= j
    ensures OffsetAfter(frame, j).None?
    decreases j
  {
    if i < j { NeverResumes(frame, i, j - 1); }
  }

  /** A loop that comes back to an offset goes round for ever. */
  lemma {:induction false} RepeatsForEver(frame: Bytes, i: nat, j: nat, k: nat)
    requires i < j && OffsetAfter(frame, i) == OffsetAfter(frame, j) && OffsetAfter(frame, i).Some?
    ensures OffsetAfter(frame, i + k).Some? && OffsetAfter(frame, i + k) == OffsetAfter(frame, j + k)
    decreases i + k
  {
    if i + k < j {
      if OffsetAfter(frame, i + k).None? {
        NeverResumes(frame, i + k, j);
      }
      SameFuture(frame, i, j, k);
    } else {
      RepeatsForEver(frame, i, j, i + k - j);
      SameFuture(frame, i, j, k);
    }
  }

  lemma {:induction false} SameFuture(frame: Bytes, i: nat, j: nat, k: nat)
    requires OffsetAfter(frame, i) == OffsetAfter(frame, j)
    ensures OffsetAfter(frame, i + k) == OffsetAfter(frame, j + k)
  {
    if k > 0 { SameFuture(frame, i, j, k - 1); }
  }

  /** A loop that is still going after as many calls as the frame has bytes goes on for ever. */
  lemma GoesOnForEver(frame: Bytes, n: nat)
    requires OffsetAfter(frame, |frame| + 1).Some?
    ensures OffsetAfter(frame, n + 1).Some?
  {
    var m := |frame|;
    forall k: nat | k <= m ensures OffsetAfter(frame, k).Some? && OffsetAfter(frame, k).value < m {
      OffsetIsInside(frame, k);
    }
    var offsets := seq(m + 1, k requires 0 <= k <= m => OffsetAfter(frame, k).value);
    var i, j := Pigeonhole(offsets, m);
    RepeatsForEver(frame, i, j, n + 1);
    if OffsetAfter(frame, n + 1).None? {
      NeverResumes(frame, n + 1, i + n + 1);
    }
  }

  lemma OffsetIsInside(frame: Bytes, k: nat)
    requires OffsetAfter(frame, |frame| + 1).Some? && k <= |frame|
    ensures OffsetAfter(frame, k).Some? && OffsetAfter(frame, k).value < |frame|
  {
    if OffsetAfter(frame, k).None? {
      NeverResumes(frame, k, |frame| + 1);
    }
    if OffsetAfter(frame, k + 1).None? {
      NeverResumes(frame, k + 1, |frame| + 1);
    }
  }

  /** The MTBT splitter terminates exactly when it terminates within |frame| handler calls: a check
      that can be made before the call. */
  lemma StopsWithinLength(frame: Bytes)
    ensures (exists n: nat :: StopsIn(frame, 0, n)) <==> StopsIn(frame, 0, |frame|)
  {
    StopsMeansOffsetsEnd(frame, 0, |frame|);
    forall n: nat | StopsIn(frame, 0, n) ensures StopsIn(frame, 0, |frame|) {
      StopsMeansOffsetsEnd(frame, 0, n);
      if OffsetAfter(frame, |frame| + 1).Some? {
        GoesOnForEver(frame, n);
      }
    }
  }

  // ----- Frames on which the splitter never steps back -----

  /** A header at offset o that holds -k sends the splitter k bytes back, and hands over a wrapped
      length, exactly when k is at most o; otherwise the bounds test rejects it. */
  predicate StepsBack(frame: Bytes, o: nat)
    requires o + MTBT_HEADER <= |frame|
  {
    -(o as int) <= MsgLen(frame, o) < 0
  }

  /** No header the splitter reaches from offset o on steps back. */
  predicate StepsForward(frame: Bytes, o: nat)
    requires o <= |frame|
    decreases |frame| - o
  {
    o + MTBT_HEADER <= |frame| ==>
      && !StepsBack(frame, o)
      && (MTBT_HEADER <= MsgLen(frame, o) <= |frame| - o ==> StepsForward(frame, o + MsgLen(frame, o)))
  }

  /** No header the splitter reaches from offset o on holds a negative length, wherever the frame stands. */
  predicate NonNegative(frame: Bytes, o: nat)
    requires o <= |frame|
    decreases |frame| - o
  {
    o + MTBT_HEADER <= |frame| ==>
      && MsgLen(frame, o) >= 0
      && (MTBT_HEADER <= MsgLen(frame, o) <= |frame| - o ==> NonNegative(frame, o + MsgLen(frame, o)))
  }

  lemma {:induction false} NonNegativeStepsForward(frame: Bytes, o: nat)
    requires o <= |frame| && NonNegative(frame, o)
    ensures StepsForward(frame, o)
    decreases |frame| - o
  {
    if o + MTBT_HEADER <= |frame| && MTBT_HEADER <= MsgLen(frame, o) <= |frame| - o {
      NonNegativeStepsForward(frame, o + MsgLen(frame, o));
    }
  }

  function MtbtSplit(frame: Bytes): (s: Split)
    ensures s.consumed <= |frame|
    decreases |frame|
  {
    if |frame| < MTBT_HEADER || MsgLen(frame, 0) < MTBT_HEADER || MsgLen(frame, 0) > |frame| then Split([], 0)
    else
      var n := MsgLen(frame, 0);
      var rest := MtbtSplit(frame[n..]);
      Split([frame[..n]] + rest.bodies, n + rest.consumed)
  }

  /** The plain split of what follows offset o. */
  function PlainFrom(frame: Bytes, o: nat): (s: Split)
    requires o <= |frame|
    ensures o + s.consumed <= |frame|
    decreases |frame| - o
  {
    if o + MTBT_HEADER > |frame| || MsgLen(frame, o) < MTBT_HEADER || MsgLen(frame, o) > |frame| - o then Split([], 0)
    else
      var n := MsgLen(frame, o);
      var rest := PlainFrom(frame, o + n);
      Split([frame[o..o + n]] + rest.bodies, n + rest.consumed)
  }

  lemma SplitOfRest(frame: Bytes, o: nat, n: nat)
    requires o + MTBT_HEADER <= |frame| && MTBT_HEADER <= n == MsgLen(frame, o) <= |frame| - o
    ensures MtbtSplit(frame[o..]).bodies == [frame[o..o + n]] + MtbtSplit(frame[o + n..]).bodies
    ensures MtbtSplit(frame[o..]).consumed == n + MtbtSplit(frame[o + n..]).consumed
  {
    HeaderOfRest(frame, o);
    assert frame[o..][n..] == frame[o + n..] && frame[o..][..n] == frame[o..o + n];
  }

  lemma {:induction false} PlainFromIsSplit(frame: Bytes, o: nat)
    requires o <= |frame|
    ensures PlainFrom(frame, o).bodies == MtbtSplit(frame[o..]).bodies
    ensures PlainFrom(frame, o).consumed == MtbtSplit(frame[o..]).consumed
    decreases |frame| - o
  {
    if o + MTBT_HEADER <= |frame| {
      HeaderOfRest(frame, o);
      if MTBT_HEADER <= MsgLen(frame, o) <= |frame| - o {
        SplitOfRest(frame, o, MsgLen(frame, o));
        PlainFromIsSplit(frame, o + MsgLen(frame, o));
      }
    }
  }

  lemma PlainFromStart(frame: Bytes)
    ensures PlainFrom(frame, 0) == MtbtSplit(frame)
  {
    PlainFromIsSplit(frame, 0);
    assert frame[0..] == frame;
  }

  /** The handler call a packet amounts to when its length is no wrapped one. */
  function AsCall(frame: Bytes, p: Packet): Call {
    if p.start + p.len <= |frame| then Call(p.start, frame[p.start..p.start + p.len]) else Call(p.start, [])
  }

  function AsCalls(frame: Bytes, packets: seq<Packet>): seq<Call> {
    seq(|packets|, i requires 0 <= i < |packets| => AsCall(frame, packets[i]))
  }

  /** On a frame without a step back the splitter stops, hands over exactly the packets of `MtbtSplit`,
      and consumes exactly those. */
  lemma ForwardFrameSplits(frame: Bytes)
    requires |frame| < TWO_64 / 2 && StepsForward(frame, 0)
    ensures StopsIn(frame, 0, |frame|)
    ensures Bodies(AsCalls(frame, Packets(frame, 0, |frame|))) == MtbtSplit(frame).bodies
    ensures Final(frame, 0, |frame|) == MtbtSplit(frame).consumed
  {
    PlainFromStart(frame);
    StopsForward(frame, 0, |frame|);
    var ps := BodiesForward(frame, 0, |frame|);
  }

  /** The packets of such a frame lie in it back to back. */
  lemma ForwardFrameInOrder(frame: Bytes)
    requires |frame| < TWO_64 / 2 && StepsForward(frame, 0) && StopsIn(frame, 0, |frame|)
    ensures InOrder(frame, AsCalls(frame, Packets(frame, 0, |frame|)), 0)
    ensures Final(frame, 0, |frame|) == Sum(AsCalls(frame, Packets(frame, 0, |frame|))) <= |frame|
  {
    var calls := AsCalls(frame, Packets(frame, 0, |frame|));
    assert [] + calls == calls;
    OrderFrom(frame, [], 0, |frame|);
    EndIsSum(frame, calls, 0);
  }

  lemma {:induction false} StopsForward(frame: Bytes, o: nat, n: nat)
    requires |frame| < TWO_64 / 2 && o <= |frame| && StepsForward(frame, o) && n >= |frame| - o
    ensures StopsIn(frame, o, n) && Final(frame, o, n) == o + PlainFrom(frame, o).consumed
    decreases n
  {
    var next := EndsOrGoesOn(frame, o);
    if Ends(frame, o) {
      NoMorePackets(frame, o, n);
    } else {
      StopsForward(frame, next, n - 1);
      OneMorePacket(frame, o, n, Packet(o, next - o), next);
    }
  }

  lemma {:induction false} BodiesForward(frame: Bytes, o: nat, n: nat) returns (ps: seq<Packet>)
    requires |frame| < TWO_64 / 2 && o <= |frame| && StepsForward(frame, o) && StopsIn(frame, o, n)
    ensures ps == Packets(frame, o, n) && Bodies(AsCalls(frame, ps)) == PlainFrom(frame, o).bodies
    decreases n
  {
    var next := EndsOrGoesOn(frame, o);
    if Ends(frame, o) {
      NoMorePackets(frame, o, n);
      ps := [];
    } else {
      var rest := BodiesForward(frame, next, n - 1);
      OneMorePacket(frame, o, n, Packet(o, next - o), next);
      PacketBodies(frame, Packet(o, next - o), rest);
      ps := [Packet(o, next - o)] + rest;
    }
  }

  lemma NoMorePackets(frame: Bytes, o: nat, n: nat)
    requires NextPacket(frame, o).None?
    ensures StopsIn(frame, o, n) && Packets(frame, o, n) == [] && Final(frame, o, n) == o
    ensures Bodies(AsCalls(frame, [])) == []
  {
  }

  /** One packet in front of the rest. */
  lemma OneMorePacket(frame: Bytes, o: nat, n: nat, p: Packet, next: nat)
    requires NextPacket(frame, o) == Some(p) && Past(p) == next && n > 0 && StopsIn(frame, next, n - 1)
    ensures StopsIn(frame, o, n) && Packets(frame, o, n) == [p] + Packets(frame, next, n - 1)
    ensures Final(frame, o, n) == Final(frame, next, n - 1)
  {
  }

  /** The same calls in order, after earlier calls that ended at offset o. */
  lemma {:induction false} OrderFrom(frame: Bytes, before: seq<Call>, o: nat, n: nat)
    requires |frame| < TWO_64 / 2 && o <= |frame| && StepsForward(frame, o) && StopsIn(frame, o, n)
    requires InOrder(frame, before, 0) && End(before) == o
    ensures InOrder(frame, before + AsCalls(frame, Packets(frame, o, n)), 0)
    ensures End(before + AsCalls(frame, Packets(frame, o, n))) == Final(frame, o, n)
    decreases n
  {
    PacketAt(frame, o);
    if NextPacket(frame, o).None? {
      NoMorePackets(frame, o, n);
      assert before + AsCalls(frame, []) == before;
    } else {
      var p := NextPacket(frame, o).value;
      var next, c := o + p.len, AsCall(frame, p);
      CallInOrder(frame, before, p);
      OneMoreCall(frame, before, o, n, p, next);
      OrderFrom(frame, before + [c], next, n - 1);
    }
  }

  lemma CallInOrder(frame: Bytes, before: seq<Call>, p: Packet)
    requires InOrder(frame, before, 0) && End(before) == p.start && 0 < p.len && p.start + p.len <= |frame|
    ensures InOrder(frame, before + [AsCall(frame, p)], 0)
    ensures End(before + [AsCall(frame, p)]) == p.start + p.len
  {
    InOrderExtends(frame, before, 0, AsCall(frame, p));
  }

  lemma OneMoreCall(frame: Bytes, before: seq<Call>, o: nat, n: nat, p: Packet, next: nat)
    requires StopsIn(frame, o, n) && NextPacket(frame, o) == Some(p) && Past(p) == next
    ensures n > 0 && StopsIn(frame, next, n - 1) && Final(frame, o, n) == Final(frame, next, n - 1)
    ensures before + AsCalls(frame, Packets(frame, o, n))
         == (before + [AsCall(frame, p)]) + AsCalls(frame, Packets(frame, next, n - 1))
  {
    var rest := Packets(frame, next, n - 1);
    PacketBodies(frame, p, rest);
    ConcatAssociates(before, [AsCall(frame, p)], AsCalls(frame, rest));
  }

  /** Without a step back nothing wraps: a negative length is as good as a short one. */
  lemma NothingWraps(frame: Bytes, o: nat)
    requires |frame| < TWO_64 / 2 && o + MTBT_HEADER <= |frame| && !StepsBack(frame, o)
    ensures var n := MsgLen(frame, o);
      NextPacket(frame, o) == if n < MTBT_HEADER || o + n > |frame| then None else Some(Packet(o, n))
  {
    var n := MsgLen(frame, o);
    if n >= 0 {
      ModUnique(n, TWO_64, 0, n);
      ModUnique(o + n, TWO_64, 0, o + n);
    } else {
      ModUnique(n, TWO_64, -1, n + TWO_64);
      ModUnique(o + n + TWO_64, TWO_64, 0, o + n + TWO_64);
    }
  }

  /** A step back hands over a packet that runs past the end of the frame. */
  lemma StepBackWraps(frame: Bytes, o: nat)
    requires |frame| < TWO_64 / 2 && o + MTBT_HEADER <= |frame| && StepsBack(frame, o)
    ensures NextPacket(frame, o) == Some(Packet(o, MsgLen(frame, o) + TWO_64))
    ensures o + (MsgLen(frame, o) + TWO_64) > |frame|
  {
    var n := MsgLen(frame, o);
    ModUnique(n, TWO_64, -1, n + TWO_64);
    ModUnique(o + n + TWO_64, TWO_64, 1, o + n);
  }

  lemma HeaderOfRest(frame: Bytes, o: nat)
    requires o + MTBT_HEADER <= |frame|
    ensures MsgLen(frame[o..], 0) == MsgLen(frame, o)
  {
    assert frame[o..][0] == frame[o] && frame[o..][1] == frame[o + 1];
  }

  /** The packet at offset o lies in the frame, and what follows it does not step back either. */
  lemma PacketAt(frame: Bytes, o: nat)
    requires |frame| < TWO_64 / 2 && o <= |frame| && StepsForward(frame, o)
    ensures NextPacket(frame, o).Some? ==>
              var p := NextPacket(frame, o).value;
              && p.start == o && MTBT_HEADER <= p.len == MsgLen(frame, o) && Past(p) == o + p.len <= |frame|
              && StepsForward(frame, o + p.len)
  {
    if NextPacket(frame, o).Some? {
      NothingWraps(frame, o);
      ModUnique(o + MsgLen(frame, o), TWO_64, 0, o + MsgLen(frame, o));
    }
  }

  /** What a header that does not step back means for the plain split of the rest. */
  lemma PlainHeader(frame: Bytes, o: nat)
    requires |frame| < TWO_64 / 2 && o <= |frame| && (o + MTBT_HEADER <= |frame| ==> !StepsBack(frame, o))
    ensures NextPacket(frame, o).None? ==> PlainFrom(frame, o) == Split([], 0)
    ensures NextPacket(frame, o).Some? ==>
              var p := NextPacket(frame, o).value;
              && p.start == o && MTBT_HEADER <= p.len == MsgLen(frame, o) && Past(p) == o + p.len <= |frame|
              && PlainFrom(frame, o).bodies == [frame[o..o + p.len]] + PlainFrom(frame, o + p.len).bodies
              && PlainFrom(frame, o).consumed == p.len + PlainFrom(frame, o + p.len).consumed
  {
    if o + MTBT_HEADER <= |frame| {
      NothingWraps(frame, o);
      if NextPacket(frame, o).Some? {
        ModUnique(o + MsgLen(frame, o), TWO_64, 0, o + MsgLen(frame, o));
      }
    }
  }

  lemma PacketBodies(frame: Bytes, p: Packet, rest: seq<Packet>)
    ensures AsCalls(frame, [p] + rest) == [AsCall(frame, p)] + AsCalls(frame, rest)
    ensures Bodies(AsCalls(frame, [p] + rest)) == [AsCall(frame, p).body] + Bodies(AsCalls(frame, rest))
  {
  }

  // ----- The exact condition -----

  predicate InBounds(frame: Bytes, packets: seq<Packet>) {
    forall p :: p in packets ==> p.start + p.len <= |frame|
  }

  lemma {:induction false} InBoundsExactly(frame: Bytes, o: nat, n: nat)
    requires |frame| < TWO_64 / 2 && o <= |frame| && StopsIn(frame, o, n)
    ensures StepsForward(frame, o) <==> InBounds(frame, Packets(frame, o, n))
    decreases n
  {
    if o + MTBT_HEADER <= |frame| {
      if StepsBack(frame, o) {
        StepBackWraps(frame, o);
        assert NextPacket(frame, o).value in Packets(frame, o, n);
      } else {
        NothingWraps(frame, o);
        if NextPacket(frame, o).Some? {
          var p := NextPacket(frame, o).value;
          var next := o + p.len;
          ModUnique(next, TWO_64, 0, next);
          InBoundsExactly(frame, next, n - 1);
          assert Packets(frame, o, n) == [p] + Packets(frame, next, n - 1);
        }
      }
    }
  }

  lemma {:induction false} NoEmptyCall(frame: Bytes, calls: seq<Call>, gap: nat)
    requires InOrder(frame, calls, gap)
    ensures forall i :: 0 <= i < |calls| ==> calls[i].body != []
  {
    if calls != [] { NoEmptyCall(frame, calls[..|calls| - 1], gap); }
  }

  lemma {:induction false} NoEmptyBody(frame: Bytes)
    ensures forall i :: 0 <= i < |MtbtSplit(frame).bodies| ==> MtbtSplit(frame).bodies[i] != []
    decreases |frame|
  {
    if MtbtSplit(frame).bodies != [] { NoEmptyBody(frame[MsgLen(frame, 0)..]); }
  }

  /** A packet out of bounds amounts to no call of the frame's bytes. */
  lemma OutOfBoundsIsEmpty(frame: Bytes, packets: seq<Packet>)
    requires !InBounds(frame, packets)
    ensures exists i :: 0 <= i < |packets| && AsCalls(frame, packets)[i].body == []
  {
    var p :| p in packets && p.start + p.len > |frame|;
    var i :| 0 <= i < |packets| && packets[i] == p;
    assert AsCalls(frame, packets)[i].body == [];
  }

  /** When the handler ranges are in bounds, in order, and those of the plain split: exactly when no
      reached header steps back, which can be checked before the call. Such a frame always stops. */
  lemma ForwardExactly(frame: Bytes)
    requires |frame| < TWO_64 / 2
    ensures StepsForward(frame, 0) ==> StopsIn(frame, 0, |frame|)
    ensures StopsIn(frame, 0, |frame|) ==>
              var packets := Packets(frame, 0, |frame|);
              && (StepsForward(frame, 0) <==> InBounds(frame, packets))
              && (StepsForward(frame, 0) <==> InOrder(frame, AsCalls(frame, packets), 0))
              && (StepsForward(frame, 0) <==> Bodies(AsCalls(frame, packets)) == MtbtSplit(frame).bodies)
  {
    if StepsForward(frame, 0) {
      ForwardFrameSplits(frame);
      ForwardFrameInOrder(frame);
      InBoundsExactly(frame, 0, |frame|);
    } else if StopsIn(frame, 0, |frame|) {
      SomeCallIsEmpty(frame);
    }
  }

  lemma SomeCallIsEmpty(frame: Bytes)
    requires |frame| < TWO_64 / 2 && StopsIn(frame, 0, |frame|) && !StepsForward(frame, 0)
    ensures var packets := Packets(frame, 0, |frame|);
      && !InBounds(frame, packets)
      && !InOrder(frame, AsCalls(frame, packets), 0)
      && Bodies(AsCalls(frame, packets)) != MtbtSplit(frame).bodies
  {
    var packets := Packets(frame, 0, |frame|);
    var calls := AsCalls(frame, packets);
    InBoundsExactly(frame, 0, |frame|);
    OutOfBoundsIsEmpty(frame, packets);
    var i :| 0 <= i < |packets| && calls[i].body == [];
    assert Bodies(calls)[i] == [];
    NoEmptyBody(frame);
    if InOrder(frame, calls, 0) { NoEmptyCall(frame, calls, 0); }
  }

  // ----- The calls before a step back -----

  /** The first n handler calls of the loop from offset o on, or all of them when it stops before. */
  function Calls(frame: Bytes, o: nat, n: nat): (ps: seq<Packet>)
    ensures |ps| <= n
    decreases n
  {
    if n == 0 || NextPacket(frame, o).None? then []
    else
      var p := NextPacket(frame, o).value;
      [p] + Calls(frame, Past(p), n - 1)
  }

  lemma {:induction false} CallsArePackets(frame: Bytes, o: nat, n: nat)
    requires StopsIn(frame, o, n)
    ensures Calls(frame, o, n) == Packets(frame, o, n)
    decreases n
  {
    if NextPacket(frame, o).Some? { CallsArePackets(frame, Past(NextPacket(frame, o).value), n - 1); }
  }

  /** Where the plain split stops, a header that does not step back stops the loop too. */
  lemma StepsForwardAt(frame: Bytes, o: nat)
    requires |frame| < TWO_64 / 2 && o + MTBT_HEADER <= |frame| && !StepsBack(frame, o)
    ensures StepsForward(frame, o) <==>
              NextPacket(frame, o).Some? ==> StepsForward(frame, o + MsgLen(frame, o))
  {
    NothingWraps(frame, o);
  }

  lemma HeadStepsBack(frame: Bytes, o: nat, n: nat)
    requires |frame| < TWO_64 / 2 && o + MTBT_HEADER <= |frame| && StepsBack(frame, o) && n > 0
    ensures PlainFrom(frame, o) == Split([], 0)
    ensures Calls(frame, o, 1) == [Packet(o, MsgLen(frame, o) + TWO_64)]
    ensures !InBounds(frame, Calls(frame, o, n))
  {
    StepBackWraps(frame, o);
    assert NextPacket(frame, o).value in Calls(frame, o, n);
  }

  /** The loop makes a call at offset o and goes on at offset `next`, and so does the plain split. */
  ghost predicate GoesOn(frame: Bytes, o: nat, p: Packet, next: nat) {
    && o < next <= |frame| && p == Packet(o, next - o)
    && NextPacket(frame, o) == Some(p) && Past(p) == next
    && (StepsForward(frame, o) <==> StepsForward(frame, next))
    && PlainFrom(frame, o).bodies == [frame[o..next]] + PlainFrom(frame, next).bodies
    && PlainFrom(frame, o).consumed == next - o + PlainFrom(frame, next).consumed
  }

  /** The loop and the plain split end at offset o. */
  ghost predicate Ends(frame: Bytes, o: nat) {
    o <= |frame| && NextPacket(frame, o).None? && StepsForward(frame, o) && PlainFrom(frame, o) == Split([], 0)
  }

  lemma EndsOrGoesOn(frame: Bytes, o: nat) returns (next: nat)
    requires |frame| < TWO_64 / 2 && o <= |frame| && (o + MTBT_HEADER <= |frame| ==> !StepsBack(frame, o))
    ensures Ends(frame, o) || GoesOn(frame, o, Packet(o, if next > o then next - o else 0), next)
  {
    next := o;
    PlainHeader(frame, o);
    if o + MTBT_HEADER <= |frame| {
      StepsForwardAt(frame, o);
      if NextPacket(frame, o).Some? { next := o + MsgLen(frame, o); }
    }
  }

  lemma NextCall(frame: Bytes, o: nat, n: nat, p: Packet, next: nat)
    requires NextPacket(frame, o) == Some(p) && Past(p) == next && n > 0
    ensures Calls(frame, o, n) == [p] + Calls(frame, next, n - 1)
  {
  }

  lemma InBoundsFirst(frame: Bytes, p: Packet, rest: seq<Packet>)
    requires p.start + p.len <= |frame|
    ensures InBounds(frame, [p] + rest) <==> InBounds(frame, rest)
  {
    assert forall q :: q in [p] + rest <==> q == p || q in rest;
  }

  /** The next call, if there is one, and how many packets of the plain split there are from here on. */
  lemma PacketsAhead(frame: Bytes, o: nat) returns (next: nat)
    requires |frame| < TWO_64 / 2 && o <= |frame| && (o + MTBT_HEADER <= |frame| ==> !StepsBack(frame, o))
    ensures o <= next <= |frame|
    ensures next == o ==> NextPacket(frame, o).None? && StepsForward(frame, o) && PlainFrom(frame, o).bodies == []
    ensures next > o ==>
              && NextPacket(frame, o) == Some(Packet(o, next - o)) && Past(Packet(o, next - o)) == next
              && (StepsForward(frame, o) <==> StepsForward(frame, next))
              && |PlainFrom(frame, o).bodies| == 1 + |PlainFrom(frame, next).bodies|
  {
    next := EndsOrGoesOn(frame, o);
    if Ends(frame, o) { next := o; }
  }

  /** The first call is in bounds; the others decide. */
  lemma OthersDecide(frame: Bytes, o: nat, n: nat, next: nat)
    requires o < next <= |frame| && n > 0
    requires NextPacket(frame, o) == Some(Packet(o, next - o)) && Past(Packet(o, next - o)) == next
    ensures InBounds(frame, Calls(frame, o, n)) <==> InBounds(frame, Calls(frame, next, n - 1))
  {
    var p := Packet(o, next - o);
    NextCall(frame, o, n, p, next);
    InBoundsFirst(frame, p, Calls(frame, next, n - 1));
  }

  lemma NoCalls(frame: Bytes, o: nat, n: nat)
    requires n == 0 || NextPacket(frame, o).None?
    ensures InBounds(frame, Calls(frame, o, n))
  {
  }

  lemma {:induction false} InBoundsUntil(frame: Bytes, o: nat, n: nat) returns (ok: bool, ahead: nat)
    requires |frame| < TWO_64 / 2 && o <= |frame|
    ensures ok == InBounds(frame, Calls(frame, o, n)) && ahead == |PlainFrom(frame, o).bodies|
    ensures ok <==> StepsForward(frame, o) || n <= ahead
    decreases n
  {
    if n == 0 {
      NoCalls(frame, o, n);
      ok, ahead := true, |PlainFrom(frame, o).bodies|;
    } else if o + MTBT_HEADER <= |frame| && StepsBack(frame, o) {
      HeadStepsBack(frame, o, n);
      ok, ahead := false, 0;
    } else {
      var next := PacketsAhead(frame, o);
      if next == o {
        NoCalls(frame, o, n);
        ok, ahead := true, 0;
      } else {
        OthersDecide(frame, o, n, next);
        ok, ahead := InBoundsUntil(frame, next, n - 1);
        ahead := 1 + ahead;
      }
    }
  }

  lemma StepBackBehind(frame: Bytes, o: nat, p: Packet, next: nat, k: nat, last: Packet)
    requires NextPacket(frame, o) == Some(p) && Past(p) == next
    requires Calls(frame, next, k + 1) == Calls(frame, next, k) + [last]
    ensures Calls(frame, o, k + 2) == Calls(frame, o, k + 1) + [last]
  {
    NextCall(frame, o, k + 2, p, next);
    NextCall(frame, o, k + 1, p, next);
    ConcatAssociates([p], Calls(frame, next, k), [last]);
  }

  /** The loop follows the plain split to the first header that steps back. */
  lemma {:induction false} StepBackFollows(frame: Bytes, o: nat) returns (k: nat, at: nat)
    requires |frame| < TWO_64 / 2 && o <= |frame| && !StepsForward(frame, o)
    ensures k == |PlainFrom(frame, o).bodies| && at == o + PlainFrom(frame, o).consumed
    ensures at + MTBT_HEADER <= |frame| && StepsBack(frame, at)
    ensures Calls(frame, o, k + 1) == Calls(frame, o, k) + [Packet(at, MsgLen(frame, at) + TWO_64)]
    decreases |frame| - o
  {
    if o + MTBT_HEADER <= |frame| && StepsBack(frame, o) {
      HeadStepsBack(frame, o, 1);
      k, at := 0, o;
    } else {
      var next := EndsOrGoesOn(frame, o);
      k, at := StepBackFollows(frame, next);
      StepBackBehind(frame, o, Packet(o, next - o), next, k, Packet(at, MsgLen(frame, at) + TWO_64));
      k := k + 1;
    }
  }

  /** A plain split with a body has its first packet at the offset. */
  lemma FirstBody(frame: Bytes, o: nat) returns (next: nat)
    requires |frame| < TWO_64 / 2 && o <= |frame| && PlainFrom(frame, o).bodies != []
    ensures o < next && GoesOn(frame, o, Packet(o, next - o), next)
  {
    next := EndsOrGoesOn(frame, o);
  }

  lemma FirstOfPrefix<T>(x: T, rest: seq<T>, n: nat)
    requires 0 < n <= |rest| + 1
    ensures ([x] + rest)[..n] == [x] + rest[..n - 1]
  {
  }

  lemma {:induction false} BodiesUntil(frame: Bytes, o: nat, n: nat) returns (calls: seq<Packet>)
    requires |frame| < TWO_64 / 2 && o <= |frame| && n <= |PlainFrom(frame, o).bodies|
    ensures calls == Calls(frame, o, n) && Bodies(AsCalls(frame, calls)) == PlainFrom(frame, o).bodies[..n]
    decreases n
  {
    if n == 0 {
      calls := [];
    } else {
      var next := FirstBody(frame, o);
      var p := Packet(o, next - o);
      var rest := BodiesUntil(frame, next, n - 1);
      NextCall(frame, o, n, p, next);
      PacketBodies(frame, p, rest);
      FirstOfPrefix(frame[o..next], PlainFrom(frame, next).bodies, n);
      calls := [p] + rest;
    }
  }

  /** Each call starts where the one before it ended, modulo 2^64, and is no shorter than a header. */
  predicate Chained(ps: seq<Packet>, o: nat) {
    && (ps != [] ==> ps[0].start == o)
    && (forall i :: 0 <= i < |ps| ==> ps[i].len >= MTBT_HEADER)
    && (forall i :: 0 < i < |ps| ==> ps[i].start == Past(ps[i - 1]))
  }

  lemma ChainGrows(p: Packet, rest: seq<Packet>, o: nat)
    requires p.start == o && p.len >= MTBT_HEADER && Chained(rest, Past(p))
    ensures Chained([p] + rest, o)
  {
  }

  lemma {:induction false} CallsChained(frame: Bytes, o: nat, n: nat)
    ensures Chained(Calls(frame, o, n), o)
    decreases n
  {
    if n > 0 && NextPacket(frame, o).Some? {
      var p := NextPacket(frame, o).value;
      CallsChained(frame, Past(p), n - 1);
      ChainGrows(p, Calls(frame, Past(p), n - 1), o);
    }
  }

  lemma PastIsEnd(frame: Bytes, p: Packet)
    requires |frame| < TWO_64 / 2 && p.start + p.len <= |frame|
    ensures Past(p) == p.start + p.len
  {
    ModUnique(p.start + p.len, TWO_64, 0, p.start + p.len);
  }

  lemma OneMoreInOrder(frame: Bytes, calls: seq<Call>, p: Packet) returns (more: seq<Call>)
    requires |frame| < TWO_64 / 2 && p.len > 0 && p.start + p.len <= |frame|
    requires InOrder(frame, calls, 0) && End(calls) == p.start
    ensures more == calls + [AsCall(frame, p)] && InOrder(frame, more, 0) && End(more) == Past(p)
  {
    more := calls + [AsCall(frame, p)];
    CallInOrder(frame, calls, p);
    PastIsEnd(frame, p);
  }

  lemma LastOfCalls(frame: Bytes, ps: seq<Packet>)
    requires ps != []
    ensures AsCalls(frame, ps) == AsCalls(frame, ps[..|ps| - 1]) + [AsCall(frame, ps[|ps| - 1])]
  {
  }

  /** Chained calls that are all in bounds are in order. */
  lemma {:induction false} ChainedInOrder(frame: Bytes, ps: seq<Packet>) returns (calls: seq<Call>)
    requires |frame| < TWO_64 / 2 && Chained(ps, 0) && InBounds(frame, ps)
    ensures calls == AsCalls(frame, ps) && InOrder(frame, calls, 0)
    ensures End(calls) == if ps == [] then 0 else Past(ps[|ps| - 1])
  {
    if ps == [] {
      calls := [];
    } else {
      var last := |ps| - 1;
      calls := ChainedInOrder(frame, ps[..last]);
      assert ps[last] in ps && ps[last].start == End(calls);
      LastOfCalls(frame, ps);
      calls := OneMoreInOrder(frame, calls, ps[last]);
    }
  }

  /** What the loop has done after n handler calls, on every frame, also one on which it never stops: the
      calls are in bounds exactly as long as no header has stepped back. */
  lemma CallsInBoundsExactly(frame: Bytes, n: nat)
    requires |frame| < TWO_64 / 2
    ensures InBounds(frame, Calls(frame, 0, n)) <==> StepsForward(frame, 0) || n <= |MtbtSplit(frame).bodies|
    ensures StopsIn(frame, 0, n) ==> Calls(frame, 0, n) == Packets(frame, 0, n)
  {
    if StopsIn(frame, 0, n) { CallsArePackets(frame, 0, n); }
    PlainFromStart(frame);
    var ok, ahead := InBoundsUntil(frame, 0, n);
  }

  /** Up to there they are, in order, those of the plain split. */
  lemma CallsFollowSplit(frame: Bytes, n: nat)
    requires |frame| < TWO_64 / 2 && n <= |MtbtSplit(frame).bodies|
    ensures Bodies(AsCalls(frame, Calls(frame, 0, n))) == MtbtSplit(frame).bodies[..n]
    ensures InOrder(frame, AsCalls(frame, Calls(frame, 0, n)), 0)
  {
    PlainFromStart(frame);
    var ps := BodiesUntil(frame, 0, n);
    CallsInBoundsExactly(frame, n);
    CallsChained(frame, 0, n);
    var calls := ChainedInOrder(frame, Calls(frame, 0, n));
  }

  /** And the first call out of bounds is that of the header at which the plain split ends. */
  lemma FirstStepBack(frame: Bytes)
    requires |frame| < TWO_64 / 2 && !StepsForward(frame, 0)
    ensures var k, at := |MtbtSplit(frame).bodies|, MtbtSplit(frame).consumed;
      && at + MTBT_HEADER <= |frame| && StepsBack(frame, at)
      && Calls(frame, 0, k + 1) == Calls(frame, 0, k) + [Packet(at, MsgLen(frame, at) + TWO_64)]
  {
    PlainFromStart(frame);
    var k, at := StepBackFollows(frame, 0);
  }

  /** A packet whose header holds its own length. */
  predicate MtbtWellFormed(x: Bytes) {
    |x| >= MTBT_HEADER && MsgLen(x, 0) == |x|
  }

  function MtbtEncode(xs: seq<Bytes>): Bytes {
    if xs == [] then [] else xs[0] + MtbtEncode(xs[1..])
  }

  lemma WalksOverOne(before: Bytes, x: Bytes, rest: Bytes)
    requires MtbtWellFormed(x)
    ensures StepsForward(before + (x + rest), |before|) <==> StepsForward(before + (x + rest), |before| + |x|)
  {
    var f := before + (x + rest);
    assert f[|before|] == x[0] && f[|before| + 1] == x[1];
    assert MsgLen(f, |before|) == |x|;
  }

  /** The splitter walks over well-formed packets, whatever stands before and after them. */
  lemma {:induction false} WalksOver(before: Bytes, xs: seq<Bytes>, tail: Bytes)
    requires forall x :: x in xs ==> MtbtWellFormed(x)
    ensures var f := before + (MtbtEncode(xs) + tail);
      StepsForward(f, |before|) <==> StepsForward(f, |before| + |MtbtEncode(xs)|)
    decreases |xs|
  {
    if xs != [] {
      var x, rest := xs[0], MtbtEncode(xs[1..]) + tail;
      ConcatAssociates(x, MtbtEncode(xs[1..]), tail);
      ConcatAssociates(before, x, rest);
      WalksOverOne(before, x, rest);
      WalksOver(before + x, xs[1..], tail);
    }
  }

  lemma WalksOverAll(xs: seq<Bytes>, tail: Bytes)
    requires forall x :: x in xs ==> MtbtWellFormed(x)
    ensures StepsForward(MtbtEncode(xs) + tail, 0) <==> StepsForward(MtbtEncode(xs) + tail, |MtbtEncode(xs)|)
  {
    WalksOver([], xs, tail);
    assert [] + (MtbtEncode(xs) + tail) == MtbtEncode(xs) + tail;
  }

  lemma MtbtEncodeFirst(xs: seq<Bytes>, tail: Bytes)
    requires xs != []
    ensures MtbtEncode(xs) + tail == xs[0] + (MtbtEncode(xs[1..]) + tail)
    ensures |MtbtEncode(xs)| == |xs[0]| + |MtbtEncode(xs[1..])|
  {
    ConcatAssociates(xs[0], MtbtEncode(xs[1..]), tail);
  }

  lemma {:induction false} PacketsThenTail(xs: seq<Bytes>, tail: Bytes)
    requires forall x :: x in xs ==> MtbtWellFormed(x)
    ensures NonNegative(MtbtEncode(xs) + tail, 0) <==> NonNegative(tail, 0)
    ensures MtbtSplit(MtbtEncode(xs) + tail).bodies == xs + MtbtSplit(tail).bodies
    ensures MtbtSplit(MtbtEncode(xs) + tail).consumed == |MtbtEncode(xs)| + MtbtSplit(tail).consumed
  {
    if xs == [] {
      assert MtbtEncode(xs) + tail == tail;
    } else {
      var x, rest := xs[0], MtbtEncode(xs[1..]) + tail;
      MtbtEncodeFirst(xs, tail);
      HeadPacket(x, rest);
      PacketsThenTail(xs[1..], tail);
      FirstMoved(x, xs[1..], MtbtSplit(tail).bodies, xs);
    }
  }

  /** Splitting inverts framing, for any packets and whatever follows them. */
  lemma MtbtSplitInvertsEncode(xs: seq<Bytes>, tail: Bytes)
    requires forall x :: x in xs ==> MtbtWellFormed(x)
    ensures NonNegative(MtbtEncode(xs) + tail, 0) <==> NonNegative(tail, 0)
    ensures StepsForward(MtbtEncode(xs) + tail, 0) <==> StepsForward(MtbtEncode(xs) + tail, |MtbtEncode(xs)|)
    ensures MtbtSplit(MtbtEncode(xs) + tail).bodies == xs + MtbtSplit(tail).bodies
    ensures MtbtSplit(MtbtEncode(xs) + tail).consumed == |MtbtEncode(xs)| + MtbtSplit(tail).consumed
  {
    WalksOverAll(xs, tail);
    PacketsThenTail(xs, tail);
  }

  /** The loop itself on framed packets and any tail: it hands over the packets and then what the tail
      splits into, exactly when no header reached in the tail steps back. */
  lemma SplitterInvertsEncode(xs: seq<Bytes>, tail: Bytes)
    requires (forall x :: x in xs ==> MtbtWellFormed(x)) && |MtbtEncode(xs) + tail| < TWO_64 / 2
    ensures var f := MtbtEncode(xs) + tail;
      && (StepsForward(f, |MtbtEncode(xs)|) ==> StopsIn(f, 0, |f|))
      && (StopsIn(f, 0, |f|) ==>
            (StepsForward(f, |MtbtEncode(xs)|)
             <==> Bodies(AsCalls(f, Packets(f, 0, |f|))) == xs + MtbtSplit(tail).bodies))
  {
    MtbtSplitInvertsEncode(xs, tail);
    ForwardExactly(MtbtEncode(xs) + tail);
  }

  /** What comes in front of a frame does not change the headers in it. */
  lemma {:induction false} NonNegativeShifts(x: Bytes, rest: Bytes, o: nat)
    requires o <= |rest|
    ensures NonNegative(x + rest, |x| + o) <==> NonNegative(rest, o)
    decreases |rest| - o
  {
    var f := x + rest;
    if o + MTBT_HEADER <= |rest| {
      assert f[|x| + o] == rest[o] && f[|x| + o + 1] == rest[o + 1];
      var n := MsgLen(rest, o);
      assert MsgLen(f, |x| + o) == n;
      if MTBT_HEADER <= n <= |rest| - o { NonNegativeShifts(x, rest, o + n); }
    }
  }

  lemma HeadPacket(x: Bytes, rest: Bytes)
    requires MtbtWellFormed(x)
    ensures NonNegative(x + rest, 0) <==> NonNegative(rest, 0)
    ensures MtbtSplit(x + rest).bodies == [x] + MtbtSplit(rest).bodies
    ensures MtbtSplit(x + rest).consumed == |x| + MtbtSplit(rest).consumed
  {
    var f := x + rest;
    assert MsgLen(f, 0) == MsgLen(x, 0) by {
      assert f[0] == x[0] && f[1] == x[1];
    }
    assert f[|x|..] == rest && f[..|x|] == x;
    NonNegativeShifts(x, rest, 0);
  }

  /** Without the restriction the property is false: a header holding -8 sends the splitter eight
      bytes back, and on these sixteen bytes it goes round for ever. */
  lemma NegativeLengthLoops(frame: Bytes)
    requires frame == [8, 0, 0, 0, 0, 0, 0, 0, 0xF8, 0xFF, 0, 0, 0, 0, 0, 0]
    ensures NextPacket(frame, 0) == Some(Packet(0, 8)) && NextPacket(frame, 8) == Some(Packet(8, TWO_64 - 8))
    ensures forall n: nat :: !StopsIn(frame, 0, n)
  {
    assert MsgLen(frame, 0) == 8 && MsgLen(frame, 8) == -8;
    assert SizeT(-8) == TWO_64 - 8;
    assert Past(Packet(0, 8)) == 8 && Past(Packet(8, TWO_64 - 8)) == 0;
    forall n: nat ensures !StopsIn(frame, 0, n) {
      GoesRound(frame, n);
    }
  }

  lemma {:induction false} GoesRound(frame: Bytes, n: nat)
    requires NextPacket(frame, 0).Some? && Past(NextPacket(frame, 0).value) == 8
    requires NextPacket(frame, 8).Some? && Past(NextPacket(frame, 8).value) == 0
    ensures !StopsIn(frame, 0, n) && !StopsIn(frame, 8, n)
  {
    if n > 0 { GoesRound(frame, n - 1); }
  }
}
