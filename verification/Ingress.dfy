/** Ingestion: a frame is split, each message is decoded, put in a pool slot and pushed on the market
    queue. The splitters' loops appear here a second time, with the real handler in place of the
    abstract one of `Framing`: the source instantiates one template twice. */
module Ingress {
  import opened Machine
  import opened Counting
  import opened Messages
  import opened Framing
  import opened Decoding
  import opened Ring
  import opened Pool

  /** A queue of slots of this pool. */
  ghost predicate Linked(pool: TaggedPool, queue: Mpmc)
    reads pool.messages, pool.acquired, queue, queue.ring
  {
    pool.Valid() && queue.Valid() && queue.IsFifo() && Owns(pool, queue.contents)
  }

  /** What a pool and a queue of its slots hold at some moment. */
  datatype Holding = Holding(messages: seq<Message>, acquired: seq<bool>, queued: seq<Message>, room: int)

  ghost function Now(pool: TaggedPool, queue: Mpmc): Holding
    requires Linked(pool, queue)
    reads pool.messages, pool.acquired, queue, queue.ring
  {
    Holding(pool.messages[..], pool.acquired[..], View(pool.messages[..], queue.contents),
            queue.Capacity() - |queue.contents|)
  }

  function Free(h: Holding): nat {
    Tally(h.acquired, FREE)
  }

  /** Slots that were in use stay in use and keep their messages, whoever holds them. */
  predicate Undisturbed(before: Holding, after: Holding) {
    && |after.messages| == |after.acquired| == |before.messages| == |before.acquired|
    && forall i :: 0 <= i < |before.acquired| && before.acquired[i] ==>
         after.acquired[i] && after.messages[i] == before.messages[i]
  }

  /** The messages are queued, each in a slot that was free; nobody else's slot is touched. */
  predicate Added(before: Holding, after: Holding, ms: seq<Message>) {
    && Undisturbed(before, after)
    && after.queued == before.queued + ms
    && Free(after) == Free(before) - |ms|
    && after.room == before.room - |ms|
  }

  /** The messages that find a slot when n are free. */
  function Take(ms: seq<Message>, n: nat): seq<Message> {
    if |ms| <= n then ms else ms[..n]
  }

  lemma TakeOneMore(vs: seq<Option<Message>>, v: Option<Message>, n: nat)
    ensures var more := v.Some? && |Take(Kept(vs), n)| < n;
            Take(Kept(vs + [v]), n) == Take(Kept(vs), n) + if more then [v.value] else []
  {
    assert (vs + [v])[..|vs|] == vs;
  }

  lemma AddedTransitive(a: Holding, b: Holding, c: Holding, ms: seq<Message>, ns: seq<Message>)
    requires Added(a, b, ms) && Added(b, c, ns)
    ensures Added(a, c, ms + ns)
  {
  }

  /** The body of every handler: a message that decoded gets a slot, if one is free, and is pushed. */
  method Offer(m: Option<Message>, pool: TaggedPool, queue: Mpmc) returns (ok: bool)
    requires Linked(pool, queue)
    requires m.Some? && Free(Now(pool, queue)) > 0 ==> Now(pool, queue).room > 0
    modifies pool.messages, pool.acquired, queue, queue.ring
    ensures Linked(pool, queue)
    ensures ok <==> m.Some? && Free(old(Now(pool, queue))) > 0
    ensures Added(old(Now(pool, queue)), Now(pool, queue), if ok then [m.value] else [])
  {
    if m.None? {
      return false;
    }
    var slot := pool.AcquireFilled(m.value);
    if slot.None? {
      return false;
    }
    ghost var before := queue.contents;
    ViewIgnores(old(pool.messages[..]), before, slot.value, m.value);
    FifoRoom(queue.State(), before);
    var _ := queue.Push(slot);
    ViewAppends(pool.messages[..], before, slot.value);
    return true;
  }

  /** The queue has room for every message a slot can be found for. */
  predicate RoomFor(h: Holding, ms: seq<Message>) {
    |Take(ms, Free(h))| <= h.room
  }

  predicate Room(h: Holding, vs: seq<Option<Message>>) {
    RoomFor(h, Kept(vs))
  }

  /** What ingestion has done after the handler was called on messages that decoded to vs. */
  predicate Ingested(before: Holding, after: Holding, vs: seq<Option<Message>>, saved: nat) {
    && Added(before, after, Take(Kept(vs), Free(before)))
    && saved == |Take(Kept(vs), Free(before))|
  }

  lemma NothingIngested(h: Holding, vs: seq<Option<Message>>)
    requires |h.messages| == |h.acquired| && vs == []
    ensures Ingested(h, h, vs, 0)
  {
  }

  /** One handler call in the middle of a frame. */
  method Handle(v: Option<Message>, pool: TaggedPool, queue: Mpmc, ghost before: Holding,
                ghost vs: seq<Option<Message>>, ghost saved: nat) returns (ok: bool)
    requires Linked(pool, queue)
    requires Ingested(before, Now(pool, queue), vs, saved) && Room(before, vs + [v])
    modifies pool.messages, pool.acquired, queue, queue.ring
    ensures Linked(pool, queue)
    ensures Ingested(before, Now(pool, queue), vs + [v], saved + if ok then 1 else 0)
  {
    TakeOneMore(vs, v, Free(before));
    ghost var middle := Now(pool, queue);
    ok := Offer(v, pool, queue);
    AddedTransitive(before, middle, Now(pool, queue), Take(Kept(vs), Free(before)), if ok then [v.value] else []);
  }

  // ----- ITCH -----

  function ItchDecoded(calls: seq<Call>): seq<Option<Message>> {
    seq(|calls|, i requires 0 <= i < |calls| => DecodeItch(calls[i].body))
  }

  lemma ItchDecodedAppends(calls: seq<Call>, c: Call)
    ensures ItchDecoded(calls + [c]) == ItchDecoded(calls) + [DecodeItch(c.body)]
  {
  }

  /** The messages decoded so far are the first ones of the frame. */
  lemma ItchDecodedPrefix(frame: Bytes, calls: seq<Call>, o: nat)
    requires ItchProgress(frame, calls, o)
    ensures ItchDecoded(calls) <= ItchVerdicts(frame)
    ensures ItchSplit(frame[o..]).bodies == [] ==> ItchDecoded(calls) == ItchVerdicts(frame)
  {
    forall i | 0 <= i < |calls| ensures ItchVerdicts(frame)[i] == ItchDecoded(calls)[i] {
      assert ItchSplit(frame).bodies[i] == Bodies(calls)[i];
    }
    assert |ItchVerdicts(frame)| == |calls| + |ItchSplit(frame[o..]).bodies|;
  }

  lemma PrefixHasRoom(h: Holding, xs: seq<Option<Message>>, ys: seq<Option<Message>>)
    requires xs <= ys && Room(h, ys)
    ensures Room(h, xs)
  {
    assert ys == xs + ys[|xs|..];
    KeptAppends(xs, ys[|xs|..]);
  }

  /** The next handler call of the splitter, and room for its message. */
  lemma ItchCall(frame: Bytes, calls: seq<Call>, o: nat, end: nat, h: Holding) returns (c: Call)
    requires ItchProgress(frame, calls, o) && o + PREFIX <= |frame| && Room(h, ItchVerdicts(frame))
    requires o + PREFIX < end == o + PREFIX + Be16(frame[o..]) <= |frame|
    ensures c.body == frame[o + PREFIX..end] && ItchProgress(frame, calls + [c], end)
    ensures ItchDecoded(calls + [c]) == ItchDecoded(calls) + [DecodeItch(c.body)]
    ensures Room(h, ItchDecoded(calls) + [DecodeItch(c.body)])
  {
    c := Call(o + PREFIX, frame[o + PREFIX..end]);
    ItchProgresses(frame, calls, o, c, end);
    ItchDecodedAppends(calls, c);
    ItchDecodedPrefix(frame, calls + [c], end);
    PrefixHasRoom(h, ItchDecoded(calls) + [DecodeItch(c.body)], ItchVerdicts(frame));
  }

  /** The splitter stands at offset o after the handler was called on `calls`. */
  ghost predicate ItchMidway(frame: Bytes, calls: seq<Call>, o: nat, before: Holding,
                             pool: TaggedPool, queue: Mpmc, saved: nat)
    reads pool.messages, pool.acquired, queue, queue.ring
  {
    && ItchProgress(frame, calls, o) && Room(before, ItchVerdicts(frame))
    && Linked(pool, queue) && Ingested(before, Now(pool, queue), ItchDecoded(calls), saved)
  }

  /** One pass of the splitter's loop that reaches the handler. */
  method HandleItch(frame: Bytes, offset: nat, end: nat, pool: TaggedPool, queue: Mpmc,
                    ghost before: Holding, ghost calls: seq<Call>, ghost saved: nat)
    returns (ok: bool, ghost more: seq<Call>)
    requires ItchMidway(frame, calls, offset, before, pool, queue, saved) && offset + PREFIX <= |frame|
    requires offset + PREFIX < end == offset + PREFIX + Be16(frame[offset..]) <= |frame|
    modifies pool.messages, pool.acquired, queue, queue.ring
    ensures ItchMidway(frame, more, end, before, pool, queue, saved + if ok then 1 else 0)
    ensures |more| == |calls| + 1
  {
    ghost var call := ItchCall(frame, calls, offset, end, before);
    ok := Handle(DecodeItch(frame[offset + PREFIX..end]), pool, queue, before, ItchDecoded(calls), saved);
    more := calls + [call];
  }

  /** Where the splitter stops, the whole frame has been decoded. */
  lemma ItchDone(frame: Bytes, calls: seq<Call>, o: nat)
    requires ItchProgress(frame, calls, o)
    requires o + PREFIX <= |frame| ==>
               Be16(frame[o..]) == 0 || o + PREFIX + Be16(frame[o..]) > |frame|
    ensures ItchDecoded(calls) == ItchVerdicts(frame) && |ItchVerdicts(frame)| == |calls|
    ensures ItchSplit(frame).consumed == if o + PREFIX <= |frame| then o + PREFIX else o
  {
    assert ItchSplit(frame[o..]).bodies == [];
    ItchDecodedPrefix(frame, calls, o);
  }

  /** `ingest_itch_frame`: the messages of the frame that decode are queued in order, until the pool
      is exhausted; the others are counted as skipped and take no slot. */
  method IngestItchFrame(frame: Bytes, pool: TaggedPool, queue: Mpmc) returns (stats: Stats)
    requires Linked(pool, queue) && Room(Now(pool, queue), ItchVerdicts(frame))
    modifies pool.messages, pool.acquired, queue, queue.ring
    ensures Linked(pool, queue)
    ensures Ingested(old(Now(pool, queue)), Now(pool, queue), ItchVerdicts(frame), stats.saved)
    ensures stats.saved + stats.skipped == |ItchVerdicts(frame)|
    ensures stats.consumed == ItchSplit(frame).consumed
  {
    var offset, saved: nat, skipped: nat := 0, 0, 0;
    ghost var before, calls: seq<Call>, at := Now(pool, queue), [], 0;
    assert frame[0..] == frame;
    NothingIngested(before, ItchDecoded(calls));
    while offset + PREFIX <= |frame|
      invariant at == offset && ItchMidway(frame, calls, at, before, pool, queue, saved)
      invariant saved + skipped == |calls|
      decreases |frame| - offset
    {
      var bodyLen := Be16(frame[offset..]);
      offset := offset + PREFIX;
      if bodyLen == 0 || offset + bodyLen > |frame| {
        break;
      }
      var ok;
      ok, calls := HandleItch(frame, offset - PREFIX, offset + bodyLen, pool, queue, before, calls, saved);
      if ok { saved := saved + 1; } else { skipped := skipped + 1; }
      offset := offset + bodyLen;
      at := offset;
    }
    ItchDone(frame, calls, at);
    stats := Stats(saved, skipped, offset);
  }

  // ----- MTBT -----

  function MtbtDecoded(frame: Bytes, packets: seq<Packet>): seq<Option<Message>> {
    seq(|packets|, i requires 0 <= i < |packets| => DecodeMtbt(frame, packets[i]))
  }

  ghost predicate MtbtProgress(frame: Bytes, packets: seq<Packet>, o: nat, left: nat) {
    && StopsIn(frame, 0, |frame|) && StopsIn(frame, o, left)
    && Packets(frame, 0, |frame|) == packets + Packets(frame, o, left)
    && Final(frame, 0, |frame|) == Final(frame, o, left)
  }

  lemma MtbtCall(frame: Bytes, packets: seq<Packet>, o: nat, left: nat, p: Packet, h: Holding)
    requires MtbtProgress(frame, packets, o, left) && NextPacket(frame, o) == Some(p)
    requires Room(h, MtbtVerdicts(frame))
    ensures left > 0 && MtbtProgress(frame, packets + [p], Past(p), left - 1)
    ensures MtbtDecoded(frame, packets + [p]) == MtbtDecoded(frame, packets) + [DecodeMtbt(frame, p)]
    ensures Room(h, MtbtDecoded(frame, packets) + [DecodeMtbt(frame, p)])
  {
    ConcatAssociates(packets, [p], Packets(frame, Past(p), left - 1));
    assert MtbtDecoded(frame, packets + [p]) == MtbtDecoded(frame, packets) + [DecodeMtbt(frame, p)];
    PrefixHasRoom(h, MtbtDecoded(frame, packets + [p]), MtbtVerdicts(frame));
  }

  lemma MtbtDone(frame: Bytes, packets: seq<Packet>, o: nat, left: nat)
    requires MtbtProgress(frame, packets, o, left) && NextPacket(frame, o).None?
    ensures MtbtDecoded(frame, packets) == MtbtVerdicts(frame) && |MtbtVerdicts(frame)| == |packets|
    ensures Final(frame, 0, |frame|) == o
  {
    assert packets + [] == packets;
  }

  ghost predicate MtbtMidway(frame: Bytes, packets: seq<Packet>, o: nat, left: nat, before: Holding,
                             pool: TaggedPool, queue: Mpmc, saved: nat)
    reads pool.messages, pool.acquired, queue, queue.ring
  {
    && MtbtProgress(frame, packets, o, left) && Room(before, MtbtVerdicts(frame))
    && Linked(pool, queue) && Ingested(before, Now(pool, queue), MtbtDecoded(frame, packets), saved)
  }

  method HandleMtbt(frame: Bytes, p: Packet, pool: TaggedPool, queue: Mpmc, ghost before: Holding,
                    ghost packets: seq<Packet>, ghost left: nat, ghost saved: nat) returns (ok: bool)
    requires MtbtMidway(frame, packets, p.start, left, before, pool, queue, saved)
    requires NextPacket(frame, p.start) == Some(p)
    modifies pool.messages, pool.acquired, queue, queue.ring
    ensures left > 0
    ensures MtbtMidway(frame, packets + [p], Past(p), left - 1, before, pool, queue, saved + if ok then 1 else 0)
  {
    MtbtCall(frame, packets, p.start, left, p, before);
    ok := Handle(DecodeMtbt(frame, p), pool, queue, before, MtbtDecoded(frame, packets), saved);
  }

  /** `ingest_mtbt_frame`, on any bytes on which the splitter stops at all. */
  method IngestMtbtFrame(frame: Bytes, pool: TaggedPool, queue: Mpmc) returns (stats: Stats)
    requires StopsIn(frame, 0, |frame|)
    requires Linked(pool, queue) && Room(Now(pool, queue), MtbtVerdicts(frame))
    modifies pool.messages, pool.acquired, queue, queue.ring
    ensures Linked(pool, queue)
    ensures Ingested(old(Now(pool, queue)), Now(pool, queue), MtbtVerdicts(frame), stats.saved)
    ensures stats.saved + stats.skipped == |MtbtVerdicts(frame)|
    ensures stats.consumed == Final(frame, 0, |frame|)
  {
    var offset: nat, saved: nat, skipped: nat := 0, 0, 0;
    ghost var before, packets: seq<Packet>, left: nat := Now(pool, queue), [], |frame|;
    NothingIngested(before, MtbtDecoded(frame, packets));
    while offset + MTBT_HEADER <= |frame|
      invariant MtbtMidway(frame, packets, offset, left, before, pool, queue, saved)
      invariant saved + skipped == |packets|
      decreases left
    {
      var next := NextPacket(frame, offset);
      if next.None? {
        break;
      }
      var packet := next.value;
      var ok := HandleMtbt(frame, packet, pool, queue, before, packets, left, saved);
      if ok { saved := saved + 1; } else { skipped := skipped + 1; }
      packets, left := packets + [packet], left - 1;
      offset := Past(packet);
    }
    MtbtDone(frame, packets, offset, left);
    stats := Stats(saved, skipped, offset);
  }

  // ----- MCX -----

  /** `ingest_mcx_tob_frame`: a frame of exactly one message; it reports nothing when it takes none. */
  method IngestMcxTobFrame(frame: Bytes, pool: TaggedPool, queue: Mpmc) returns (stats: Stats)
    requires Linked(pool, queue) && Room(Now(pool, queue), McxVerdicts(frame))
    modifies pool.messages, pool.acquired, queue, queue.ring
    ensures Linked(pool, queue)
    ensures Ingested(old(Now(pool, queue)), Now(pool, queue), McxVerdicts(frame), stats.saved)
    ensures stats == if stats.saved == 1 then Stats(1, 0, |frame|) else Stats(0, 0, 0)
  {
    ghost var before := Now(pool, queue);
    if |frame| != MCX_SIZE {
      return Stats(0, 0, 0);
    }
    assert [] + [Some(McxTick(frame))] == McxVerdicts(frame);
    var ok := Handle(Some(McxTick(frame)), pool, queue, before, [], 0);
    stats := if ok then Stats(1, 0, |frame|) else Stats(0, 0, 0);
  }
}
