/** Without waiting the reader may skip frames, but never the newest for good. */
module LatestFrame {
  import opened Decoding
  import opened Inlet

  /** m is the number of frames published when the reader last chose a slot. What it has read since is the
      newest of them, unless a second publish has begun; and what it acknowledges is no newer. */
  ghost predicate Latest(s: State, base: nat, m: nat) {
    && m <= |s.frames|
    && s.sequence + (if s.writer.Counting? then 1 else 0) == base + |s.frames|
    && match s.reader
       case Polling => s.last <= base + m && LastHandled(s, m)
       case Choosing(q) => s.last <= base + m && LastHandled(s, m)
       case Copying(q, _, _, mark) => mark == m && q <= base + m
       case Ingesting(q, g) => q <= base + m && m > 0 && (Begun(s) <= m + 1 ==> g == s.frames[m - 1])
       case Acking(q, g) => q <= base + m && m > 0 && (Begun(s) <= m + 1 ==> g == s.frames[m - 1])
  }

  ghost predicate LastHandled(s: State, m: nat) {
    0 < m <= |s.frames| && Begun(s) <= m + 1 ==>
      s.handled != [] && s.handled[|s.handled| - 1] == s.frames[m - 1]
  }

  /** The writer only adds frames, and the reader does not move meanwhile. */
  lemma WriterAdds(s: State)
    ensures var t := WriterStep(s);
      && s.frames <= t.frames && Begun(s) <= Begun(t)
      && t.reader == s.reader && t.last == s.last && t.handled == s.handled
      && t.sequence + (if t.writer.Counting? then 1 else 0) - |t.frames|
         == s.sequence + (if s.writer.Counting? then 1 else 0) - |s.frames|
  {
  }

  lemma WriterKeepsLatest(s: State, base: nat, m: nat)
    requires Latest(s, base, m)
    ensures Latest(WriterStep(s), base, m)
  {
    WriterAdds(s);
  }

  lemma CopyEnds(s: State, base: nat, m: nat, lz4: Lz4)
    requires Shape(s) && Untorn(s) && Counted(s, base) && Latest(s, base, m)
    requires s.reader.Copying? && Complete(s.reader.copy)
    ensures Latest(ReaderStep(s, lz4), base, m)
  {
    if Begun(s) <= m + 1 {
      FramePrefix(s.frames[m - 1], s.reader.copy);
    }
  }

  lemma ReaderKeepsLatest(s: State, base: nat, m: nat, lz4: Lz4) returns (m': nat)
    requires Shape(s) && Untorn(s) && Counted(s, base) && Latest(s, base, m)
    ensures Latest(ReaderStep(s, lz4), base, m')
  {
    m' := if s.reader.Choosing? then |s.frames| else m;
    if s.reader.Copying? && Complete(s.reader.copy) {
      CopyEnds(s, base, m, lz4);
    }
  }

  lemma {:induction false} RunKeepsLatest(s: State, acts: seq<Actor>, base: nat, m: nat, lz4: Lz4)
    returns (e: State, last: nat)
    requires Shape(s) && Untorn(s) && Counted(s, base) && Latest(s, base, m)
    ensures e == Exec(s, acts, lz4) && Latest(e, base, last)
    decreases |acts|
  {
    if acts == [] {
      e, last := s, m;
    } else {
      var next := m;
      StepKeepsCounted(s, acts[0], base, lz4);
      if acts[0] == TheWriter {
        WriterKeepsShape(s);
        WriterKeepsUntorn(s);
        WriterKeepsLatest(s, base, m);
      } else {
        ReaderKeepsShape(s, lz4);
        ReaderKeepsUntorn(s, lz4);
        next := ReaderKeepsLatest(s, base, m, lz4);
      }
      e, last := RunKeepsLatest(Apply(s, acts[0], lz4), acts[1..], base, next, lz4);
    }
  }

  /** MAIN RESULT 39. In every run, waiting or not, whatever was skipped or torn before: when the reader is idle
      and has acknowledged the current sequence number, and the writer is not between its two stores, then the
      last frame handled is the newest published, exactly as it was published. */
  lemma NewestFrameIsHandled(s: State, acts: seq<Actor>, lz4: Lz4) returns (e: State)
    requires Start(s)
    ensures e == Exec(s, acts, lz4)
    ensures e.reader.Polling? && e.last == e.sequence && !e.writer.Counting? && e.frames != [] ==>
              e.handled != [] && e.handled[|e.handled| - 1] == e.frames[|e.frames| - 1]
  {
    var m: nat;
    e, m := RunKeepsLatest(s, acts, s.sequence, 0, lz4);
  }
}
