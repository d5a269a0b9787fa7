/** The inlet when the writer waits for the reader after each call, as the hub and the demo do. */
module Lockstep {
  import opened Messages
  import opened Framing
  import opened Decoding
  import opened Inlet

  /** The messages of a list of frames, in order. */
  function AllMessages(lz4: Lz4, fs: seq<Frame>): seq<Message>
    requires forall f :: f in fs ==> Returns(lz4, f)
  {
    if fs == [] then [] else AllMessages(lz4, fs[..|fs| - 1]) + FrameMessages(lz4, fs[|fs| - 1])
  }

  lemma AllMessagesAppends(lz4: Lz4, fs: seq<Frame>, f: Frame)
    requires (forall g :: g in fs ==> Returns(lz4, g)) && Returns(lz4, f)
    ensures forall g :: g in fs + [f] ==> Returns(lz4, g)
    ensures AllMessages(lz4, fs + [f]) == AllMessages(lz4, fs) + FrameMessages(lz4, f)
  {
    assert (fs + [f])[..|fs|] == fs;
  }

  /** Ingestion of every accepted call returns. */
  predicate AllReturn(lz4: Lz4, calls: seq<Publish>) {
    forall p :: p in calls && Accepts(p) ==> Returns(lz4, FrameOf(p))
  }

  function AcceptedFrames(calls: seq<Publish>): seq<Frame> {
    if calls == [] then []
    else (if Accepts(calls[0]) then [FrameOf(calls[0])] else []) + AcceptedFrames(calls[1..])
  }

  /** The frame the writer is in the middle of, not published yet. */
  function InFlight(s: State): seq<Frame> {
    if s.writer.Writing? || s.writer.Publishing? then [s.writer.f] else []
  }

  /** The writer touches a slot, or is about to, only while the reader is idle. */
  predicate WriterBusy(s: State) {
    s.writer.Calling? || s.writer.Writing? || s.writer.Publishing? || s.writer.Counting?
  }

  /** The reader has seen the newest sequence number and not acknowledged it. */
  predicate ReaderBusy(s: State) {
    !s.reader.Polling?
  }

  /** The reader works on the newest frame, and has read part or all of it correctly. */
  ghost predicate OnNewest(s: State, lz4: Lz4) {
    |s.frames| == |s.handled| + 1 &&
    var f := s.frames[|s.handled|];
    match s.reader
    case Polling => true
    case Choosing(q) => q == s.sequence
    case Copying(q, source, copy, mark) =>
      q == s.sequence && source == s.published && |copy| <= |Words(f)| && copy == Words(f)[..|copy|]
    case Ingesting(q, g) => q == s.sequence && g == f
    case Acking(q, g) => q == s.sequence && g == f
  }

  ghost predicate Synced(s: State, base: nat, lz4: Lz4) {
    && Shape(s) && s.waits
    && s.last == s.processed == base + |s.handled|
    && (forall f :: f in s.frames ==> Returns(lz4, f))
    && (forall f :: f in InFlight(s) ==> Returns(lz4, f))
    && AllReturn(lz4, s.todo)
    && |s.handled| <= |s.frames| && s.handled == s.frames[..|s.handled|]
    && (forall f :: f in s.handled ==> Returns(lz4, f))
    && (!s.reader.Acking? ==> s.market == AllMessages(lz4, s.handled))
    && (s.reader.Acking? ==>
          && Returns(lz4, s.reader.g)
          && s.market == AllMessages(lz4, s.handled) + FrameMessages(lz4, s.reader.g))
    && (match s.writer
        case Counting => s.sequence == s.processed && s.reader.Polling? && |s.frames| == |s.handled| + 1
        case Awaiting => s.sequence == base + |s.frames|
        case Waiting(n) => n == s.sequence == base + |s.frames|
        case _ => s.sequence == s.processed && s.reader.Polling? && |s.frames| == |s.handled|)
    && (!WriterBusy(s) ==> (s.reader.Polling? && |s.frames| == |s.handled|) || OnNewest(s, lz4))
  }

  lemma WriterKeepsSynced(s: State, base: nat, lz4: Lz4)
    requires Synced(s, base, lz4)
    ensures Synced(WriterStep(s), base, lz4)
  {
    WriterKeepsShape(s);
    if s.writer.Calling? && s.todo != [] {
      assert s.todo[0] in s.todo;
    }
  }

  lemma ReaderKeepsSynced(s: State, base: nat, lz4: Lz4)
    requires Synced(s, base, lz4)
    ensures Synced(ReaderStep(s, lz4), base, lz4)
  {
    ReaderKeepsShape(s, lz4);
    match s.reader
    case Polling => PollKeepsSynced(s, base, lz4);
    case Choosing(_) => ChoiceKeepsSynced(s, base, lz4);
    case Copying(_, _, _, _) => CopyKeepsSynced(s, base, lz4);
    case Ingesting(_, _) => IngestKeepsSynced(s, base, lz4);
    case Acking(_, _) => AckKeepsSynced(s, base, lz4);
  }

  lemma PollKeepsSynced(s: State, base: nat, lz4: Lz4)
    requires Synced(s, base, lz4) && s.reader.Polling? && Shape(ReaderStep(s, lz4))
    ensures Synced(ReaderStep(s, lz4), base, lz4)
  {
  }

  lemma ChoiceKeepsSynced(s: State, base: nat, lz4: Lz4)
    requires Synced(s, base, lz4) && s.reader.Choosing? && Shape(ReaderStep(s, lz4))
    ensures Synced(ReaderStep(s, lz4), base, lz4)
  {
    assert s.published % 2 == s.published;
  }

  lemma IngestKeepsSynced(s: State, base: nat, lz4: Lz4)
    requires Synced(s, base, lz4) && s.reader.Ingesting? && Shape(ReaderStep(s, lz4))
    ensures Synced(ReaderStep(s, lz4), base, lz4)
  {
    assert s.reader.g == s.frames[|s.handled|];
  }

  lemma CopyKeepsSynced(s: State, base: nat, lz4: Lz4)
    requires Synced(s, base, lz4) && s.reader.Copying? && Shape(ReaderStep(s, lz4))
    ensures Synced(ReaderStep(s, lz4), base, lz4)
  {
    var f, copy := s.frames[|s.handled|], s.reader.copy;
    FramePrefix(f, copy);
    if Complete(copy) {
      if Rejected(copy) { assert FrameMessages(lz4, f) == []; }
    } else {
      NotComplete(f, copy);
      OneMoreCopied(s.slots[s.reader.source], Words(f), copy);
    }
  }

  lemma AckKeepsSynced(s: State, base: nat, lz4: Lz4)
    requires Synced(s, base, lz4) && s.reader.Acking? && Shape(ReaderStep(s, lz4))
    ensures Synced(ReaderStep(s, lz4), base, lz4)
  {
    AllMessagesAppends(lz4, s.handled, s.reader.g);
    assert s.frames[..|s.handled| + 1] == s.handled + [s.reader.g];
  }

  lemma {:induction false} RunKeepsSynced(s: State, acts: seq<Actor>, base: nat, lz4: Lz4)
    requires Synced(s, base, lz4)
    ensures Synced(Exec(s, acts, lz4), base, lz4)
    decreases |acts|
  {
    if acts != [] {
      if acts[0] == TheWriter { WriterKeepsSynced(s, base, lz4); } else { ReaderKeepsSynced(s, base, lz4); }
      RunKeepsSynced(Apply(s, acts[0], lz4), acts[1..], base, lz4);
    }
  }

  lemma StartIsSynced(s: State, lz4: Lz4)
    requires Start(s) && s.waits && AllReturn(lz4, s.todo)
    ensures Synced(s, s.sequence, lz4)
  {
  }

  /** MAIN RESULT 9. In every run in which the writer waits, slot writes and slot reads never overlap,
      and the reader is never more than one frame behind. */
  lemma WritesAndReadsNeverOverlap(s: State, acts: seq<Actor>, lz4: Lz4)
    requires Start(s) && s.waits && AllReturn(lz4, s.todo)
    ensures var e := Exec(s, acts, lz4);
      && !(WriterBusy(e) && ReaderBusy(e))
      && e.processed <= e.sequence <= e.processed + 1
  {
    StartIsSynced(s, lz4);
    RunKeepsSynced(s, acts, s.sequence, lz4);
  }

  /** What has been published, is being written and is still to be called, together. */
  function Accounted(s: State): seq<Frame> {
    s.frames + InFlight(s) + AcceptedFrames(s.todo)
  }

  lemma ReaderKeepsAccount(s: State, lz4: Lz4)
    ensures Accounted(ReaderStep(s, lz4)) == Accounted(s)
  {
    var t := ReaderStep(s, lz4);
    assert t.frames == s.frames && t.writer == s.writer && t.todo == s.todo;
  }

  lemma CallKeepsAccount(s: State)
    requires s.writer.Calling? && s.todo != []
    ensures Accounted(WriterStep(s)) == Accounted(s)
  {
    var p, rest := s.todo[0], AcceptedFrames(s.todo[1..]);
    if Accepts(p) {
      assert AcceptedFrames(s.todo) == [FrameOf(p)] + rest;
      ConcatAssociates(s.frames, [FrameOf(p)], rest);
      assert s.frames + [] == s.frames;
    } else {
      assert AcceptedFrames(s.todo) == rest;
    }
  }

  lemma WriterKeepsAccount(s: State)
    requires s.writer.Calling? ==> s.todo == []
    ensures Accounted(WriterStep(s)) == Accounted(s)
  {
    var t := WriterStep(s);
    assert t.todo == s.todo;
    if s.writer.Publishing? {
      assert (s.frames + [s.writer.f]) + [] == s.frames + [s.writer.f];
    } else {
      assert t.frames == s.frames && InFlight(t) == InFlight(s);
    }
  }

  lemma StepKeepsAccount(s: State, a: Actor, lz4: Lz4)
    ensures Accounted(Apply(s, a, lz4)) == Accounted(s)
  {
    if a == TheReader {
      ReaderKeepsAccount(s, lz4);
    } else if s.writer.Calling? && s.todo != [] {
      CallKeepsAccount(s);
    } else {
      WriterKeepsAccount(s);
    }
  }

  lemma {:induction false} RunKeepsAccount(s: State, acts: seq<Actor>, lz4: Lz4)
    ensures Accounted(Exec(s, acts, lz4)) == Accounted(s)
    decreases |acts|
  {
    if acts != [] {
      StepKeepsAccount(s, acts[0], lz4);
      RunKeepsAccount(Apply(s, acts[0], lz4), acts[1..], lz4);
    }
  }

  /** MAIN RESULT 10. In every run in which the writer waits, the frames published are the accepted
      calls made so far, in order; the reader has handled a prefix of them, each frame once, in order
      and untorn, and `processed` counts them; and the market queue has received exactly the decoded
      messages of the handled frames, in order: rejected frames and bad messages contribute nothing.
      Once the writer is back from its last call the reader has handled every accepted call. */
  lemma ReaderRefinesPublishedLog(s: State, acts: seq<Actor>, lz4: Lz4)
    requires Start(s) && s.waits && AllReturn(lz4, s.todo)
    ensures var e := Exec(s, acts, lz4);
      && e.frames <= AcceptedFrames(s.todo)
      && e.handled <= e.frames && e.processed == s.processed + |e.handled|
      && (forall f :: f in e.handled ==> Returns(lz4, f))
      && (!e.reader.Acking? ==> e.market == AllMessages(lz4, e.handled))
      && (e.writer.Calling? && e.todo == [] ==>
            e.handled == AcceptedFrames(s.todo) && e.market == AllMessages(lz4, e.handled))
  {
    var e := Exec(s, acts, lz4);
    StartIsSynced(s, lz4);
    RunKeepsSynced(s, acts, s.sequence, lz4);
    RunKeepsAccount(s, acts, lz4);
    assert Accounted(s) == AcceptedFrames(s.todo);
    ConcatAssociates(e.frames, InFlight(e), AcceptedFrames(e.todo));
    if e.writer.Calling? && e.todo == [] {
      assert e.frames + [] + [] == e.frames;
    }
  }

  // ----- The wait ends -----

  /** A bound on the steps the reader still needs to acknowledge the newest frame. */
  function Remaining(s: State): nat {
    match s.reader
    case Polling => HEADER + FRAME_CAPACITY + 5
    case Choosing(_) => HEADER + FRAME_CAPACITY + 4
    case Copying(_, _, copy, _) =>
      3 + (if |copy| < HEADER + FRAME_CAPACITY then HEADER + FRAME_CAPACITY - |copy| else 0)
    case Ingesting(_, _) => 2
    case Acking(_, _) => 1
  }

  function ReaderSteps(acts: seq<Actor>): nat {
    if acts == [] then 0 else (if acts[0] == TheReader then 1 else 0) + ReaderSteps(acts[1..])
  }

  lemma ReaderProgresses(s: State, base: nat, lz4: Lz4)
    requires Synced(s, base, lz4) && s.writer.Waiting? && s.processed < s.writer.n
    ensures var s' := ReaderStep(s, lz4);
      s'.processed == s.writer.n || (s'.processed == s.processed && Remaining(s') < Remaining(s))
    ensures ReaderStep(s, lz4).writer == s.writer
  {
    if s.reader.Copying? {
      var f := s.frames[|s.handled|];
      FramePrefix(f, s.reader.copy);
      if !Complete(s.reader.copy) { NotComplete(f, s.reader.copy); }
    }
  }

  lemma StepNeverFalls(s: State, a: Actor, base: nat, lz4: Lz4)
    requires Synced(s, base, lz4)
    ensures s.processed <= Apply(s, a, lz4).processed
  {
  }

  lemma {:induction false} ProcessedNeverFalls(s: State, acts: seq<Actor>, base: nat, lz4: Lz4)
    requires Synced(s, base, lz4)
    ensures s.processed <= Exec(s, acts, lz4).processed
    decreases |acts|
  {
    if acts != [] {
      StepNeverFalls(s, acts[0], base, lz4);
      if acts[0] == TheWriter { WriterKeepsSynced(s, base, lz4); } else { ReaderKeepsSynced(s, base, lz4); }
      ProcessedNeverFalls(Apply(s, acts[0], lz4), acts[1..], base, lz4);
    }
  }

  /** MAIN RESULT 11. The wait ends on every branch of the reader: from any state in which the writer
      spins, every schedule that gives the reader at least `Remaining` steps (1511 at most) brings
      `processed` to the awaited number, however often the writer spins in between. */
  lemma {:induction false} WaitEnds(s: State, acts: seq<Actor>, base: nat, lz4: Lz4)
    requires Synced(s, base, lz4) && s.writer.Waiting?
    requires ReaderSteps(acts) >= Remaining(s)
    ensures Exec(s, acts, lz4).processed >= s.writer.n
    ensures Remaining(s) <= 1511
    decreases |acts|
  {
    if s.processed >= s.writer.n {
      ProcessedNeverFalls(s, acts, base, lz4);
    } else if acts[0] == TheWriter {
      WaitEnds(s, acts[1..], base, lz4);
    } else {
      ReaderProgresses(s, base, lz4);
      ReaderKeepsSynced(s, base, lz4);
      var s' := ReaderStep(s, lz4);
      if s'.processed >= s.writer.n {
        ProcessedNeverFalls(s', acts[1..], base, lz4);
      } else {
        WaitEnds(s', acts[1..], base, lz4);
      }
    }
  }
}
