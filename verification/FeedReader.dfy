/** The inlet and the reader as objects: `publish` as one call, and one pass of the reader's loop, each
    running alone. `Inlet` and `Lockstep` are about the same two running at once, a word at a time. */
module FeedReader {
  import opened Machine
  import opened Messages
  import opened Framing
  import opened Decoding
  import opened Ring
  import opened Pool
  import opened Ingress
  import Inlet
  import Lockstep

  class FrameSlot {
    var magic: nat
    var payloadLen: nat
    var kind: nat
    var flags: nat
    var uncompressedLen: nat
    var reserved: nat
    const payload: array<Byte>

    ghost predicate Valid() { payload.Length == FRAME_CAPACITY }

    constructor ()
      ensures Valid() && fresh(payload) && payloadLen == 0
    {
      magic, payloadLen, kind, flags, uncompressedLen, reserved := Inlet.MAGIC, 0, 0, 0, 0, 0;
      payload := new Byte[FRAME_CAPACITY](_ => 0);
    }

    /** The slot as the words the protocol model writes and reads. */
    ghost function Words(): seq<nat>
      reads this, payload
    {
      [magic, kind, flags, payloadLen, uncompressedLen, reserved] + Inlet.Plain(payload[..])
    }

    /** The frame a reader finds in the slot; None when the header is no frame's. */
    function Held(): Option<Frame>
      requires Valid()
      reads this, payload
    {
      if magic != Inlet.MAGIC || payloadLen == 0 || payloadLen > FRAME_CAPACITY then None
      else Some(Frame(kind, flags, payload[..payloadLen], uncompressedLen))
    }
  }

  class SharedInlet {
    var sequence: nat
    var processed: nat
    var published: nat
    const slot0: FrameSlot
    const slot1: FrameSlot

    ghost predicate Valid() {
      slot0.Valid() && slot1.Valid() && slot0 != slot1 && slot0.payload != slot1.payload
    }

    constructor ()
      ensures Valid() && sequence == processed == published == 0
      ensures fresh(slot0) && fresh(slot1) && fresh(slot0.payload) && fresh(slot1.payload)
    {
      sequence, processed, published := 0, 0, 0;
      slot0 := new FrameSlot();
      slot1 := new FrameSlot();
    }

    function Slot(index: nat): FrameSlot
    {
      if index % 2 == 0 then slot0 else slot1
    }

    /** `published_slot`. */
    function PublishedSlot(): FrameSlot
      reads this
    {
      Slot(published)
    }

    /** `publish`: refused data changes nothing. Otherwise the slot not named by `published` gets the
        frame, word for word as the protocol model has it, and then becomes the published one; the
        slot named until now keeps every word, so that a reader still in it sees no change. */
    method Publish(p: Inlet.Publish)
      requires Valid()
      modifies this, slot0, slot1, slot0.payload, slot1.payload
      ensures processed == old(processed)
      ensures !Inlet.Accepts(p) ==>
                && sequence == old(sequence) && published == old(published)
                && slot0.Words() == old(slot0.Words()) && slot1.Words() == old(slot1.Words())
      ensures Inlet.Accepts(p) ==>
                && sequence == old(sequence) + 1 && published == 1 - old(published) % 2
                && Inlet.Words(Inlet.FrameOf(p)) <= PublishedSlot().Words()
                && old(PublishedSlot()) != PublishedSlot()
                && old(PublishedSlot()).Words() == old(PublishedSlot().Words())
      ensures Inlet.Accepts(p) && p.data.value != [] ==> PublishedSlot().Held() == Some(Inlet.FrameOf(p))
      ensures Inlet.Accepts(p) && p.data.value == [] ==> PublishedSlot().Held() == None
    {
      if p.data.None? || |p.data.value| > FRAME_CAPACITY {
        return;
      }
      var current := published % 2;
      var write := 1 - current;
      var slot, data := Slot(write), p.data.value;
      slot.magic := Inlet.MAGIC;
      slot.kind := p.kind;
      slot.flags := p.flags;
      slot.payloadLen := |data|;
      slot.uncompressedLen := p.uncompressed;
      slot.reserved := 0;
      forall i | 0 <= i < |data| {
        slot.payload[i] := data[i];
      }
      assert slot.payload[..|data|] == data;
      published := write;
      sequence := sequence + 1;
    }
  }

  /** The messages a slot stands for. */
  function SlotMessages(lz4: Lz4, held: Option<Frame>): seq<Message>
    requires held.Some? ==> Returns(lz4, held.value)
  {
    if held.None? then [] else FrameMessages(lz4, held.value)
  }

  class Reader {
    const inlet: SharedInlet
    const pool: TaggedPool
    const queue: Mpmc
    var lastSequence: nat

    /** `start` takes the current sequence number as seen. */
    constructor (i: SharedInlet, p: TaggedPool, q: Mpmc)
      ensures inlet == i && pool == p && queue == q && lastSequence == i.sequence
    {
      inlet, pool, queue, lastSequence := i, p, q, i.sequence;
    }

    /** The payload to ingest, decompressed if need be, or None on the branches that reject the frame. */
    method Load(slot: FrameSlot, lz4: Lz4) returns (payload: Option<Bytes>)
      requires slot.Valid()
      ensures payload == match slot.Held() case None => None case Some(f) => Payload(lz4, f)
      ensures slot.magic != 0x48465449 || slot.payloadLen == 0 || slot.payloadLen > 1500 ==> payload == None
      ensures slot.magic == 0x48465449 && 0 < slot.payloadLen <= 1500 ==>
                var data := slot.payload[..slot.payloadLen];
                if slot.kind == 2 && slot.flags % 2 == 1 then
                  payload == if 0 < slot.uncompressedLen <= 1500 && lz4(data).Some?
                                && |lz4(data).value| == slot.uncompressedLen then lz4(data) else None
                else payload == Some(data)
    {
      if slot.magic != Inlet.MAGIC {
        return None;
      }
      if slot.payloadLen == 0 || slot.payloadLen > FRAME_CAPACITY {
        return None;
      }
      var frameData := slot.payload[..slot.payloadLen];
      if slot.kind == KIND_MTBT && slot.flags % 2 == 1 {
        var expected := slot.uncompressedLen;
        if expected == 0 || expected > FRAME_CAPACITY {
          return None;
        }
        var decoded := lz4(frameData);
        if decoded.None? || |decoded.value| != expected {
          return None;
        }
        frameData := decoded.value;
      }
      return Some(frameData);
    }

    /** One pass of `run`. With nothing new it changes nothing. Otherwise, on every branch, the sequence
        number seen is acknowledged, and the market queue has received exactly the messages of the
        published frame for which there was a slot, in order; a rejected frame adds nothing. */
    method RunOnce(lz4: Lz4)
      requires inlet.Valid() && Linked(pool, queue)
      requires inlet.sequence != lastSequence ==>
                 var held := inlet.PublishedSlot().Held();
                 && (held.Some? ==> Returns(lz4, held.value))
                 && RoomFor(Now(pool, queue), SlotMessages(lz4, held))
      modifies this, inlet, pool.messages, pool.acquired, queue, queue.ring
      ensures Linked(pool, queue)
      ensures inlet.sequence == old(inlet.sequence) && inlet.published == old(inlet.published)
      ensures old(inlet.sequence == lastSequence) ==>
                && Now(pool, queue) == old(Now(pool, queue))
                && inlet.processed == old(inlet.processed) && lastSequence == old(lastSequence)
      ensures old(inlet.sequence != lastSequence) ==>
                var slot := old(inlet.PublishedSlot());
                old(slot.magic) != 0x48465449 || old(slot.payloadLen) == 0 || old(slot.payloadLen) > 1500 ==>
                  Now(pool, queue) == old(Now(pool, queue))
      ensures old(inlet.sequence != lastSequence) ==>
                && lastSequence == inlet.processed == inlet.sequence
                && Added(old(Now(pool, queue)), Now(pool, queue),
                         Take(SlotMessages(lz4, old(inlet.PublishedSlot().Held())), Free(old(Now(pool, queue)))))
    {
      var sequence := inlet.sequence;
      if sequence == lastSequence {
        return;
      }
      var slot := inlet.PublishedSlot();
      var payload := Load(slot, lz4);
      if payload.Some? {
        Ingest(slot.kind, payload.value);
      }
      lastSequence := sequence;
      inlet.processed := sequence;
    }

    /** What each feed's frames decode to; a frame of no known kind decodes to nothing. */
    ghost function Decoded(kind: nat, data: Bytes): seq<Message>
      requires kind == KIND_MTBT ==> StopsIn(data, 0, |data|)
    {
      if kind == KIND_ITCH then Kept(ItchVerdicts(data))
      else if kind == KIND_MTBT then Kept(MtbtVerdicts(data))
      else if kind == KIND_MCX then Kept(McxVerdicts(data))
      else []
    }

    method Ingest(kind: nat, data: Bytes)
      requires kind == KIND_MTBT ==> StopsIn(data, 0, |data|)
      requires Linked(pool, queue) && RoomFor(Now(pool, queue), Decoded(kind, data))
      modifies pool.messages, pool.acquired, queue, queue.ring
      ensures Linked(pool, queue)
      ensures Added(old(Now(pool, queue)), Now(pool, queue), Take(Decoded(kind, data), Free(old(Now(pool, queue)))))
    {
      if kind == KIND_ITCH {
        var _ := IngestItchFrame(data, pool, queue);
      } else if kind == KIND_MTBT {
        var _ := IngestMtbtFrame(data, pool, queue);
      } else if kind == KIND_MCX {
        var _ := IngestMcxTobFrame(data, pool, queue);
      }
    }
  }

  // ----- Publishing and reading in turn -----

  lemma TakeInTwo(ms: seq<Message>, ns: seq<Message>, n: nat)
    ensures |Take(ms, n)| <= n
    ensures Take(ms + ns, n) == Take(ms, n) + Take(ns, n - |Take(ms, n)|)
  {
  }

  lemma AcceptedFramesAppend(calls: seq<Inlet.Publish>, p: Inlet.Publish)
    ensures Lockstep.AcceptedFrames(calls + [p])
         == Lockstep.AcceptedFrames(calls) + if Inlet.Accepts(p) then [Inlet.FrameOf(p)] else []
  {
    if calls == [] {
      assert [] + [p] == [p];
    } else {
      assert (calls + [p])[0] == calls[0] && (calls + [p])[1..] == calls[1..] + [p];
      AcceptedFramesAppend(calls[1..], p);
    }
  }

  lemma AcceptedFramesReturn(lz4: Lz4, calls: seq<Inlet.Publish>)
    requires Lockstep.AllReturn(lz4, calls)
    ensures forall f :: f in Lockstep.AcceptedFrames(calls) ==> Returns(lz4, f)
  {
    if calls != [] { AcceptedFramesReturn(lz4, calls[1..]); }
  }

  /** The messages of the frames that the calls publish. */
  ghost function Sent(lz4: Lz4, calls: seq<Inlet.Publish>): seq<Message>
    requires Lockstep.AllReturn(lz4, calls)
  {
    AcceptedFramesReturn(lz4, calls);
    Lockstep.AllMessages(lz4, Lockstep.AcceptedFrames(calls))
  }

  lemma SentAppends(lz4: Lz4, calls: seq<Inlet.Publish>, i: nat)
    requires Lockstep.AllReturn(lz4, calls) && i < |calls|
    ensures Lockstep.AllReturn(lz4, calls[..i]) && Lockstep.AllReturn(lz4, calls[..i + 1])
    ensures Inlet.Accepts(calls[i]) ==>
              Sent(lz4, calls[..i + 1]) == Sent(lz4, calls[..i]) + FrameMessages(lz4, Inlet.FrameOf(calls[i]))
    ensures !Inlet.Accepts(calls[i]) ==> Sent(lz4, calls[..i + 1]) == Sent(lz4, calls[..i])
    ensures |Lockstep.AcceptedFrames(calls[..i + 1])|
         == |Lockstep.AcceptedFrames(calls[..i])| + if Inlet.Accepts(calls[i]) then 1 else 0
  {
    assert calls[..i + 1] == calls[..i] + [calls[i]];
    AcceptedFramesAppend(calls[..i], calls[i]);
    AcceptedFramesReturn(lz4, calls[..i]);
    AcceptedFramesReturn(lz4, calls[..i + 1]);
    if Inlet.Accepts(calls[i]) {
      Lockstep.AllMessagesAppends(lz4, Lockstep.AcceptedFrames(calls[..i]), Inlet.FrameOf(calls[i]));
    } else {
      assert Lockstep.AcceptedFrames(calls[..i + 1]) == Lockstep.AcceptedFrames(calls[..i]);
    }
  }

  lemma {:induction false} SentPrefix(lz4: Lz4, calls: seq<Inlet.Publish>, i: nat)
    requires Lockstep.AllReturn(lz4, calls) && i <= |calls|
    ensures Lockstep.AllReturn(lz4, calls[..i]) && Sent(lz4, calls[..i]) <= Sent(lz4, calls)
    decreases |calls| - i
  {
    if i == |calls| {
      assert calls[..i] == calls;
    } else {
      SentAppends(lz4, calls, i);
      SentPrefix(lz4, calls, i + 1);
      assert Sent(lz4, calls[..i]) <= Sent(lz4, calls[..i + 1]);
    }
  }

  /** What a published frame holds is what was accepted; an empty one holds nothing and decodes to nothing. */
  lemma HeldMessages(lz4: Lz4, p: Inlet.Publish, held: Option<Frame>)
    requires Inlet.Accepts(p) && Returns(lz4, Inlet.FrameOf(p))
    requires held == if p.data.value == [] then None else Some(Inlet.FrameOf(p))
    ensures SlotMessages(lz4, held) == FrameMessages(lz4, Inlet.FrameOf(p))
  {
  }

  /** What a reader has done after the calls: every accepted frame is acknowledged, and the market queue has
      gained the messages there were slots for. */
  ghost predicate Delivered(r: Reader, lz4: Lz4, calls: seq<Inlet.Publish>, before: Holding, first: nat)
    reads r, r.inlet, r.pool.messages, r.pool.acquired, r.queue, r.queue.ring
  {
    && Lockstep.AllReturn(lz4, calls) && Linked(r.pool, r.queue)
    && r.inlet.sequence == r.lastSequence == first + |Lockstep.AcceptedFrames(calls)|
    && Added(before, Now(r.pool, r.queue), Take(Sent(lz4, calls), Free(before)))
  }

  /** There is room for what the next frame adds. */
  lemma RoomForNext(before: Holding, now: Holding, sent: seq<Message>, next: seq<Message>, all: seq<Message>)
    requires Added(before, now, Take(sent, Free(before))) && sent + next <= all && RoomFor(before, all)
    ensures RoomFor(now, next)
    ensures Free(now) == Free(before) - |Take(sent, Free(before))|
  {
    TakeInTwo(sent, next, Free(before));
    TakeInTwo(sent + next, all[|sent + next|..], Free(before));
    assert all == (sent + next) + all[|sent + next|..];
  }

  lemma NextIsAdded(before: Holding, middle: Holding, now: Holding, sent: seq<Message>, next: seq<Message>)
    requires Added(before, middle, Take(sent, Free(before))) && Added(middle, now, Take(next, Free(middle)))
    ensures Added(before, now, Take(sent + next, Free(before)))
  {
    TakeInTwo(sent, next, Free(before));
    AddedTransitive(before, middle, now, Take(sent, Free(before)), Take(next, Free(middle)));
  }

  /** Publishing one frame and reading it, whatever came before. */
  method PublishOne(r: Reader, lz4: Lz4, p: Inlet.Publish)
    requires r.inlet.Valid() && Linked(r.pool, r.queue) && r.inlet.sequence == r.lastSequence
    requires Inlet.Accepts(p) ==>
               && Returns(lz4, Inlet.FrameOf(p))
               && RoomFor(Now(r.pool, r.queue), FrameMessages(lz4, Inlet.FrameOf(p)))
    modifies r, r.inlet, r.inlet.slot0, r.inlet.slot1, r.inlet.slot0.payload, r.inlet.slot1.payload
    modifies r.pool.messages, r.pool.acquired, r.queue, r.queue.ring
    ensures Linked(r.pool, r.queue) && r.inlet.sequence == r.lastSequence
    ensures r.inlet.sequence == old(r.inlet.sequence) + if Inlet.Accepts(p) then 1 else 0
    ensures r.inlet.processed == if Inlet.Accepts(p) then r.inlet.sequence else old(r.inlet.processed)
    ensures Inlet.Accepts(p) ==>
              Added(old(Now(r.pool, r.queue)), Now(r.pool, r.queue),
                    Take(FrameMessages(lz4, Inlet.FrameOf(p)), Free(old(Now(r.pool, r.queue)))))
    ensures !Inlet.Accepts(p) ==> Now(r.pool, r.queue) == old(Now(r.pool, r.queue))
  {
    r.inlet.Publish(p);
    if Inlet.Accepts(p) {
      HeldMessages(lz4, p, r.inlet.PublishedSlot().Held());
    }
    r.RunOnce(lz4);
  }

  /** One call of `publish_and_wait`: publish, and the pass of the reader the writer waits for. */
  method PublishAndRead(r: Reader, lz4: Lz4, calls: seq<Inlet.Publish>, i: nat, ghost before: Holding, ghost first: nat)
    requires i < |calls| && Lockstep.AllReturn(lz4, calls)
    requires r.inlet.Valid() && Delivered(r, lz4, calls[..i], before, first)
    requires RoomFor(before, Sent(lz4, calls))
    modifies r, r.inlet, r.inlet.slot0, r.inlet.slot1, r.inlet.slot0.payload, r.inlet.slot1.payload
    modifies r.pool.messages, r.pool.acquired, r.queue, r.queue.ring
    ensures Delivered(r, lz4, calls[..i + 1], before, first)
    ensures Inlet.Accepts(calls[i]) ==> r.inlet.processed == r.inlet.sequence
    ensures !Inlet.Accepts(calls[i]) ==> r.inlet.processed == old(r.inlet.processed)
  {
    var p := calls[i];
    ghost var middle, sent := Now(r.pool, r.queue), Sent(lz4, calls[..i]);
    SentAppends(lz4, calls, i);
    SentPrefix(lz4, calls, i + 1);
    if Inlet.Accepts(p) {
      RoomForNext(before, middle, sent, FrameMessages(lz4, Inlet.FrameOf(p)), Sent(lz4, calls));
    }
    PublishOne(r, lz4, p);
    if Inlet.Accepts(p) {
      NextIsAdded(before, middle, Now(r.pool, r.queue), sent, FrameMessages(lz4, Inlet.FrameOf(p)));
    }
  }

  /** A whole run of publish-and-wait calls with a real pool and queue: the market queue gains exactly the
      decoded messages of the accepted frames for which there were slots, in order; the pool loses exactly
      as many slots; and every accepted frame is acknowledged. */
  method PublishAll(r: Reader, lz4: Lz4, calls: seq<Inlet.Publish>)
    requires r.inlet.Valid() && Linked(r.pool, r.queue) && r.inlet.sequence == r.lastSequence
    requires Lockstep.AllReturn(lz4, calls) && RoomFor(Now(r.pool, r.queue), Sent(lz4, calls))
    modifies r, r.inlet, r.inlet.slot0, r.inlet.slot1, r.inlet.slot0.payload, r.inlet.slot1.payload
    modifies r.pool.messages, r.pool.acquired, r.queue, r.queue.ring
    ensures Delivered(r, lz4, calls, old(Now(r.pool, r.queue)), old(r.inlet.sequence))
    ensures Lockstep.AcceptedFrames(calls) != [] ==> r.inlet.processed == r.inlet.sequence
  {
    ghost var before, first := Now(r.pool, r.queue), r.inlet.sequence;
    assert calls[..0] == [];
    for i := 0 to |calls|
      invariant Delivered(r, lz4, calls[..i], before, first)
      invariant Lockstep.AcceptedFrames(calls[..i]) != [] ==> r.inlet.processed == r.inlet.sequence
    {
      SentAppends(lz4, calls, i);
      PublishAndRead(r, lz4, calls, i, before, first);
    }
    assert calls[..|calls|] == calls;
  }
}
