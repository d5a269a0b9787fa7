/** The double-buffered inlet: one writer publishes frames through two plain slots, one reader polls a
    sequence number, reads the slot the published index names, and acknowledges. Every word of a slot
    is written and read in a step of its own. */
module Inlet {
  import opened Machine
  import opened Messages
  import opened Decoding

  const MAGIC: nat := 0x48465449
  /** magic, kind, flags, payload_len, uncompressed_len, reserved; the payload follows. */
  const HEADER: nat := 6

  /** A call of `publish`; the data pointer may be null. */
  datatype Publish = Publish(data: Option<Bytes>, kind: nat, flags: nat, uncompressed: nat)

  datatype Writer =
    | Calling                                     // between two calls
    | Writing(f: Frame, target: nat, w: nat)      // about to write word w of the inactive slot
    | Publishing(f: Frame, target: nat)           // about to store `published`
    | Counting                                    // about to bump `sequence`
    | Awaiting                                    // about to load the sequence to wait for
    | Waiting(n: nat)                             // spinning until `processed` reaches n

  /** `mark` is the number of frames published when the index was loaded; the program does not
      depend on it. */
  datatype Reader =
    | Polling                                                       // about to load `sequence`
    | Choosing(q: nat)                                              // about to load `published`
    | Copying(q: nat, source: nat, copy: seq<nat>, mark: nat)       // about to read the next word
    | Ingesting(q: nat, g: Frame)                                   // about to split and decode
    | Acking(q: nat, g: Frame)                                      // about to store `processed`

  datatype State = State(
    waits: bool,                 // the writer waits for the reader after each call
    todo: seq<Publish>,
    sequence: nat, processed: nat, published: nat,
    slots: seq<seq<nat>>,
    writer: Writer, reader: Reader,
    last: nat,                   // the reader's last_sequence_
    frames: seq<Frame>,          // history: published frames, in order
    handled: seq<Frame>,         // history: frames the reader acknowledged, as it read them
    market: seq<Message>)        // history: messages put on the market queue

  datatype Actor = TheWriter | TheReader

  function Words(f: Frame): (ws: seq<nat>)
    ensures |ws| == HEADER + |f.data|
  {
    [MAGIC, f.kind, f.flags, |f.data|, f.uncompressed, 0] + Plain(f.data)
  }

  function Plain(data: Bytes): (p: seq<nat>)
    ensures |p| == |data| && forall i :: 0 <= i < |data| ==> p[i] == data[i]
  {
    seq(|data|, i requires 0 <= i < |data| => data[i] as nat)
  }

  function AsBytes(ws: seq<nat>): Bytes {
    seq(|ws|, i requires 0 <= i < |ws| => (ws[i] % 256) as Byte)
  }

  /** `publish` refuses null data and data longer than a frame. */
  predicate Accepts(p: Publish) {
    p.data.Some? && |p.data.value| <= FRAME_CAPACITY
  }

  function FrameOf(p: Publish): Frame
    requires Accepts(p)
  {
    Frame(p.kind, p.flags, p.data.value, p.uncompressed)
  }

  // ----- The program -----

  function WriterStep(s: State): State {
    match s.writer
    case Calling =>
      if s.todo == [] then s
      else
        var p, rest := s.todo[0], s.todo[1..];
        if Accepts(p) then
          s.(todo := rest, writer := Writing(FrameOf(p), 1 - s.published % 2, 0))
        else s.(todo := rest, writer := if s.waits then Awaiting else Calling)
    case Writing(f, target, w) =>
      if w < |Words(f)| && target < |s.slots| && w < |s.slots[target]| then
        s.(slots := s.slots[target := s.slots[target][w := Words(f)[w]]], writer := Writing(f, target, w + 1))
      else s.(writer := Publishing(f, target))
    case Publishing(f, target) =>
      s.(published := target, frames := s.frames + [f], writer := Counting)
    case Counting =>
      s.(sequence := s.sequence + 1, writer := if s.waits then Awaiting else Calling)
    case Awaiting => s.(writer := Waiting(s.sequence))
    case Waiting(n) => if s.processed < n then s else s.(writer := Calling)
  }

  /** The header has been read and says whether the payload is worth reading. */
  predicate Rejected(copy: seq<nat>) {
    |copy| >= HEADER && (copy[0] != MAGIC || copy[3] == 0 || copy[3] > FRAME_CAPACITY)
  }

  predicate Complete(copy: seq<nat>) {
    |copy| >= HEADER && (Rejected(copy) || |copy| >= HEADER + copy[3])
  }

  function FrameRead(copy: seq<nat>): Frame
    requires |copy| >= HEADER
  {
    Frame(copy[1], copy[2], AsBytes(copy[HEADER..]), copy[4])
  }

  function ReaderStep(s: State, lz4: Lz4): State {
    match s.reader
    case Polling => if s.sequence == s.last then s else s.(reader := Choosing(s.sequence))
    case Choosing(q) => s.(reader := Copying(q, s.published % 2, [], |s.frames|))
    case Copying(q, source, copy, mark) =>
      if Complete(copy) then
        s.(reader := if Rejected(copy) then Acking(q, FrameRead(copy)) else Ingesting(q, FrameRead(copy)))
      else if source < |s.slots| && |copy| < |s.slots[source]| then
        s.(reader := Copying(q, source, copy + [s.slots[source][|copy|]], mark))
      else s
    case Ingesting(q, g) =>
      if Returns(lz4, g) then s.(market := s.market + FrameMessages(lz4, g), reader := Acking(q, g)) else s
    case Acking(q, g) => s.(last := q, processed := q, handled := s.handled + [g], reader := Polling)
  }

  function Apply(s: State, a: Actor, lz4: Lz4): State {
    if a == TheWriter then WriterStep(s) else ReaderStep(s, lz4)
  }

  function Exec(s: State, acts: seq<Actor>, lz4: Lz4): State
    decreases |acts|
  {
    if acts == [] then s else Exec(Apply(s, acts[0], lz4), acts[1..], lz4)
  }

  /** A header that is no frame's is acknowledged and not ingested; any other is ingested when the payload it
      announces has been read. */
  lemma HeaderDecides(s: State, lz4: Lz4)
    requires s.reader.Copying? && |s.reader.copy| >= 6
    ensures var copy, t := s.reader.copy, ReaderStep(s, lz4);
      && t.market == s.market && t.processed == s.processed
      && if copy[0] != 0x48465449 || copy[3] == 0 || copy[3] > 1500 then t.reader.Acking?
         else if |copy| >= 6 + copy[3] then t.reader.Ingesting?
         else t.reader.Copying?
  {
  }

  // ----- What holds with and without waiting -----

  /** The slot begins with the words of the frame. */
  predicate Holds(s: State, slot: nat, f: Frame) {
    slot < |s.slots| && |Words(f)| <= |s.slots[slot]| && s.slots[slot][..|Words(f)|] == Words(f)
  }

  /** Publishes that have begun to write. */
  function Begun(s: State): nat {
    |s.frames| + if s.writer.Writing? || s.writer.Publishing? then 1 else 0
  }

  ghost predicate Shape(s: State) {
    && |s.slots| == 2 && s.published < 2
    && (forall i :: 0 <= i < 2 ==> |s.slots[i]| == HEADER + FRAME_CAPACITY)
    && (forall f :: f in s.frames ==> |f.data| <= FRAME_CAPACITY)
    && (s.writer.Writing? || s.writer.Publishing? ==>
          |s.writer.f.data| <= FRAME_CAPACITY && s.writer.target == 1 - s.published)
    && (s.writer.Writing? ==>
          && s.writer.w <= |Words(s.writer.f)|
          && s.slots[s.writer.target][..s.writer.w] == Words(s.writer.f)[..s.writer.w])
    && (s.writer.Publishing? ==> Holds(s, s.writer.target, s.writer.f))
    && (s.frames != [] ==> Holds(s, s.published, s.frames[|s.frames| - 1]))
  }

  /** While at most one publish overlaps the read, the slot under it holds the frame that was published
      last when the index was loaded, and what has been copied is a prefix of that frame. */
  ghost predicate Untorn(s: State) {
    s.reader.Copying? ==>
      var Copying(_, source, copy, mark) := s.reader;
      && mark <= |s.frames| && source < 2
      && (source == s.published <==> (|s.frames| - mark) % 2 == 0)
      && (mark > 0 && Begun(s) <= mark + 1 ==>
            && Holds(s, source, s.frames[mark - 1])
            && |copy| <= |Words(s.frames[mark - 1])|
            && copy == Words(s.frames[mark - 1])[..|copy|])
  }

  lemma WriterKeepsShape(s: State)
    requires Shape(s)
    ensures Shape(WriterStep(s))
  {
    if s.writer.Writing? {
      WordKeepsShape(s);
    } else {
      assert WriterStep(s).slots == s.slots;
    }
  }

  lemma WordKeepsShape(s: State)
    requires Shape(s) && s.writer.Writing?
    ensures Shape(WriterStep(s))
  {
    var Writing(f, target, w) := s.writer;
    if w < |Words(f)| {
      OneMoreWord(s.slots[target], Words(f), w);
      assert WriterStep(s).slots[s.published] == s.slots[s.published];
    } else {
      assert Words(f)[..w] == Words(f);
    }
  }

  lemma OneMoreWord(slot: seq<nat>, words: seq<nat>, w: nat)
    requires w < |words| <= |slot| && slot[..w] == words[..w]
    ensures slot[w := words[w]][..w + 1] == words[..w + 1]
  {
  }

  lemma WriterKeepsUntorn(s: State)
    requires Shape(s) && Untorn(s)
    ensures Untorn(WriterStep(s))
  {
    if s.reader.Copying? {
      if s.writer.Writing? {
        SlotUnderReadIsLeftAlone(s);
      } else if s.writer.Publishing? {
        PublishKeepsUntorn(s);
      } else {
        IdleWriterKeepsUntorn(s);
      }
    } else {
      assert WriterStep(s).reader == s.reader;
    }
  }

  lemma IdleWriterKeepsUntorn(s: State)
    requires Untorn(s) && s.reader.Copying? && !s.writer.Writing? && !s.writer.Publishing?
    ensures Untorn(WriterStep(s))
  {
    IdleWriterLeaves(s);
  }

  lemma IdleWriterLeaves(s: State)
    requires !s.writer.Writing? && !s.writer.Publishing?
    ensures var t := WriterStep(s);
      && t.slots == s.slots && t.frames == s.frames && t.published == s.published && t.reader == s.reader
      && Begun(t) >= Begun(s)
  {
  }

  lemma PublishKeepsUntorn(s: State)
    requires Shape(s) && Untorn(s) && s.reader.Copying? && s.writer.Publishing?
    ensures Untorn(WriterStep(s))
  {
    var s' := WriterStep(s);
    assert s'.slots == s.slots && s'.frames == s.frames + [s.writer.f] && s'.published == 1 - s.published;
  }

  lemma SlotUnderReadIsLeftAlone(s: State)
    requires Shape(s) && Untorn(s) && s.reader.Copying? && s.writer.Writing?
    ensures Untorn(WriterStep(s))
  {
    var s', mark := WriterStep(s), s.reader.mark;
    if mark > 0 && Begun(s) <= mark + 1 {
      assert |s.frames| == mark && s.reader.source == s.published;
      assert s'.slots[s.published] == s.slots[s.published];
    }
  }

  /** Copying a prefix of the words of a frame. */
  lemma FramePrefix(f: Frame, copy: seq<nat>)
    requires |f.data| <= FRAME_CAPACITY && |copy| <= |Words(f)| && copy == Words(f)[..|copy|]
    ensures |copy| >= HEADER ==> copy[0] == MAGIC && copy[3] == |f.data|
    ensures Complete(copy) ==> |copy| == |Words(f)| || Rejected(copy)
    ensures Complete(copy) ==> FrameRead(copy) == f
    ensures Rejected(copy) <==> |copy| >= HEADER && f.data == []
  {
    if |copy| >= HEADER {
      assert copy[0] == Words(f)[0] && copy[1] == Words(f)[1] && copy[2] == Words(f)[2]
        && copy[3] == Words(f)[3] && copy[4] == Words(f)[4];
      if |copy| == |Words(f)| {
        assert AsBytes(copy[HEADER..]) == f.data;
      }
    }
  }

  lemma ReaderKeepsShape(s: State, lz4: Lz4)
    requires Shape(s)
    ensures Shape(ReaderStep(s, lz4))
  {
    var s' := ReaderStep(s, lz4);
    assert s'.slots == s.slots && s'.published == s.published && s'.frames == s.frames && s'.writer == s.writer;
  }

  lemma ReaderKeepsUntorn(s: State, lz4: Lz4)
    requires Shape(s) && Untorn(s)
    ensures Untorn(ReaderStep(s, lz4))
  {
    if s.reader.Copying? {
      CopyKeepsUntorn(s, lz4);
    } else if s.reader.Choosing? {
      assert s.published % 2 == s.published;
    }
  }

  lemma CopyKeepsUntorn(s: State, lz4: Lz4)
    requires Shape(s) && Untorn(s) && s.reader.Copying?
    ensures Untorn(ReaderStep(s, lz4))
  {
    if Complete(s.reader.copy) {
      assert !ReaderStep(s, lz4).reader.Copying?;
    } else if s.reader.mark > 0 && Begun(s) <= s.reader.mark + 1 {
      WordKeepsUntorn(s, lz4);
    } else {
      LateWordKeepsUntorn(s, lz4);
    }
  }

  lemma WordKeepsUntorn(s: State, lz4: Lz4)
    requires Shape(s) && Untorn(s) && s.reader.Copying? && !Complete(s.reader.copy)
    requires s.reader.mark > 0 && Begun(s) <= s.reader.mark + 1
    ensures Untorn(ReaderStep(s, lz4))
  {
    WordIsCopied(s, lz4, s.frames[s.reader.mark - 1]);
  }

  /** After a second publish has begun nothing is claimed about the copy. */
  lemma LateWordKeepsUntorn(s: State, lz4: Lz4)
    requires Untorn(s) && s.reader.Copying? && !Complete(s.reader.copy)
    requires s.reader.mark == 0 || Begun(s) > s.reader.mark + 1
    ensures Untorn(ReaderStep(s, lz4))
  {
    var t := ReaderStep(s, lz4);
    assert t.frames == s.frames && t.writer == s.writer && t.published == s.published && t.slots == s.slots;
    assert t.reader.Copying? && t.reader.mark == s.reader.mark && t.reader.source == s.reader.source;
  }

  /** One more word of the frame that was published last when the index was loaded. */
  lemma WordIsCopied(s: State, lz4: Lz4, f: Frame)
    requires Shape(s) && s.reader.Copying? && !Complete(s.reader.copy) && |f.data| <= FRAME_CAPACITY
    requires Holds(s, s.reader.source, f)
    requires |s.reader.copy| <= |Words(f)| && s.reader.copy == Words(f)[..|s.reader.copy|]
    ensures var Copying(q, source, copy, mark) := s.reader;
      && |copy| < |Words(f)|
      && ReaderStep(s, lz4) == s.(reader := Copying(q, source, Words(f)[..|copy| + 1], mark))
  {
    var Copying(q, source, copy, mark) := s.reader;
    NotComplete(f, copy);
    OneMoreCopied(s.slots[source], Words(f), copy);
  }

  lemma OneMoreCopied(slot: seq<nat>, words: seq<nat>, copy: seq<nat>)
    requires |copy| < |words| <= |slot| && slot[..|words|] == words && copy == words[..|copy|]
    ensures copy + [slot[|copy|]] == words[..|copy| + 1]
  {
    assert slot[|copy|] == slot[..|words|][|copy|];
  }

  lemma NotComplete(f: Frame, copy: seq<nat>)
    requires |f.data| <= FRAME_CAPACITY && |copy| <= |Words(f)| && copy == Words(f)[..|copy|]
    requires !Complete(copy)
    ensures |copy| < |Words(f)|
  {
    FramePrefix(f, copy);
  }

  /** A start state: nothing half-written, the reader idle, everything published so far acknowledged. */
  ghost predicate Start(s: State) {
    && Shape(s) && s.writer.Calling? && s.reader.Polling?
    && s.sequence == s.processed == s.last
    && s.frames == [] && s.handled == [] && s.market == []
  }

  /** The sequence number counts the published frames, and a reader at work has at least one to read. */
  ghost predicate Counted(s: State, base: nat) {
    && base <= s.last <= s.sequence <= base + |s.frames|
    && (s.writer.Counting? ==> s.sequence < base + |s.frames|)
    && (match s.reader
        case Polling => true
        case Choosing(q) => base < q <= s.sequence
        case Copying(q, _, _, mark) => base < q <= s.sequence && 0 < mark
        case Ingesting(q, _) => base < q <= s.sequence
        case Acking(q, _) => base < q <= s.sequence)
  }

  lemma StepKeepsCounted(s: State, a: Actor, base: nat, lz4: Lz4)
    requires Counted(s, base)
    ensures Counted(Apply(s, a, lz4), base)
  {
  }

  lemma {:induction false} RunKeepsUntorn(s: State, acts: seq<Actor>, base: nat, lz4: Lz4)
    requires Shape(s) && Untorn(s) && Counted(s, base)
    ensures Shape(Exec(s, acts, lz4)) && Untorn(Exec(s, acts, lz4)) && Counted(Exec(s, acts, lz4), base)
    decreases |acts|
  {
    if acts != [] {
      if acts[0] == TheWriter {
        WriterKeepsShape(s);
        WriterKeepsUntorn(s);
      } else {
        ReaderKeepsShape(s, lz4);
        ReaderKeepsUntorn(s, lz4);
      }
      StepKeepsCounted(s, acts[0], base, lz4);
      RunKeepsUntorn(Apply(s, acts[0], lz4), acts[1..], base, lz4);
    }
  }

  /** MAIN RESULT 8. In every run, waiting or not: a read that is complete and that at most one publish
      overlapped has read exactly one published frame, the newest one when the index was loaded. And a
      publish that writes the slot being read is never the first to overlap the read: it is an
      even-numbered one. */
  lemma ReadsAreUntorn(s: State, acts: seq<Actor>, lz4: Lz4)
    requires Start(s) && Exec(s, acts, lz4).reader.Copying?
    ensures var e := Exec(s, acts, lz4);
      && 0 < e.reader.mark <= |e.frames|
      && (Complete(e.reader.copy) && Begun(e) <= e.reader.mark + 1 ==>
            FrameRead(e.reader.copy) == e.frames[e.reader.mark - 1])
      && (e.writer.Writing? ==> (e.writer.target == e.reader.source <==> (Begun(e) - e.reader.mark) % 2 == 0))
  {
    RunKeepsUntorn(s, acts, s.sequence, lz4);
    var e := Exec(s, acts, lz4);
    if Complete(e.reader.copy) && Begun(e) <= e.reader.mark + 1 {
      FramePrefix(e.frames[e.reader.mark - 1], e.reader.copy);
    }
  }
}
