/** Without waiting, two publishes during one read can tear it. */
module TornRead {
  import opened Decoding
  import opened Inlet

  function Steps(a: Actor, n: nat): (acts: seq<Actor>)
    ensures |acts| == n
  {
    if n == 0 then [] else Steps(a, n - 1) + [a]
  }

  lemma {:induction false} ExecInTwoParts(s: State, xs: seq<Actor>, ys: seq<Actor>, lz4: Lz4)
    ensures Exec(s, xs + ys, lz4) == Exec(Exec(s, xs, lz4), ys, lz4)
    decreases |xs|
  {
    if xs == [] {
      assert xs + ys == ys;
    } else {
      assert (xs + ys)[0] == xs[0] && (xs + ys)[1..] == xs[1..] + ys;
      ExecInTwoParts(Apply(s, xs[0], lz4), xs[1..], ys, lz4);
    }
  }

  lemma OneStep(s: State, a: Actor, t: State, lz4: Lz4)
    requires t == Apply(s, a, lz4)
    ensures Exec(s, [a], lz4) == t
  {
    assert [a][1..] == [] && Exec(t, [], lz4) == t;
  }

  lemma NextStep(s: State, acts: seq<Actor>, a: Actor, lz4: Lz4)
    ensures Exec(s, acts + [a], lz4) == Apply(Exec(s, acts, lz4), a, lz4)
  {
    ExecInTwoParts(s, acts, [a], lz4);
    OneStep(Exec(s, acts, lz4), a, Apply(Exec(s, acts, lz4), a, lz4), lz4);
  }

  // ----- One publish running alone -----

  /** The slot after the first n words of a frame have been written over it. */
  function Overwritten(slot: seq<nat>, f: Frame, n: nat): seq<nat>
    requires n <= |Words(f)| <= |slot|
  {
    Words(f)[..n] + slot[n..]
  }

  /** The state in which the writer is about to write word n of the frame. */
  function AtWord(s: State, f: Frame, target: nat, n: nat): State
    requires target < |s.slots| && n <= |Words(f)| <= |s.slots[target]|
  {
    s.(slots := s.slots[target := Overwritten(s.slots[target], f, n)], writer := Writing(f, target, n))
  }

  lemma OneWord(s: State, f: Frame, target: nat, n: nat)
    requires target < |s.slots| && n < |Words(f)| <= |s.slots[target]|
    ensures WriterStep(AtWord(s, f, target, n)) == AtWord(s, f, target, n + 1)
  {
    var slot := s.slots[target];
    assert Overwritten(slot, f, n)[n := Words(f)[n]] == Overwritten(slot, f, n + 1);
  }

  lemma {:induction false} WritesWords(s: State, f: Frame, target: nat, n: nat, lz4: Lz4)
    requires target < |s.slots| && n <= |Words(f)| <= |s.slots[target]| && s.writer == Writing(f, target, 0)
    ensures Exec(s, Steps(TheWriter, n), lz4) == AtWord(s, f, target, n)
  {
    if n == 0 {
      assert Overwritten(s.slots[target], f, 0) == s.slots[target];
    } else {
      WritesWords(s, f, target, n - 1, lz4);
      NextStep(s, Steps(TheWriter, n - 1), TheWriter, lz4);
      OneWord(s, f, target, n - 1);
    }
  }

  /** The writer between two calls, with a frame of the given call next. */
  predicate AboutToPublish(s: State) {
    && s.writer.Calling? && !s.waits && s.todo != [] && Accepts(s.todo[0])
    && |s.slots| == 2 && s.published < 2 && forall i :: 0 <= i < 2 ==> |s.slots[i]| == HEADER + FRAME_CAPACITY
  }

  /** The state in which all words of the next frame are written and nothing is published yet. */
  function Laid(s: State): State
    requires AboutToPublish(s)
  {
    var f := FrameOf(s.todo[0]);
    AtWord(s.(todo := s.todo[1..]), f, 1 - s.published, |Words(f)|)
  }

  /** The state after the whole call. */
  function Released(s: State): State
    requires AboutToPublish(s)
  {
    var f := FrameOf(s.todo[0]);
    Laid(s).(writer := Calling, published := 1 - s.published, frames := s.frames + [f], sequence := s.sequence + 1)
  }

  lemma LaysWords(s: State, lz4: Lz4) returns (acts: seq<Actor>)
    requires AboutToPublish(s)
    ensures Exec(s, acts, lz4) == Laid(s)
  {
    var f := FrameOf(s.todo[0]);
    var t := s.(todo := s.todo[1..], writer := Writing(f, 1 - s.published, 0));
    OneStep(s, TheWriter, t, lz4);
    WritesWords(t, f, 1 - s.published, |Words(f)|, lz4);
    acts := [TheWriter] + Steps(TheWriter, |Words(f)|);
    ExecInTwoParts(s, [TheWriter], Steps(TheWriter, |Words(f)|), lz4);
  }

  lemma Publishes(s: State, lz4: Lz4) returns (acts: seq<Actor>)
    requires AboutToPublish(s)
    ensures Exec(s, acts, lz4) == Released(s)
  {
    var laid := LaysWords(s, lz4);
    var one, two := laid + [TheWriter], laid + [TheWriter] + [TheWriter];
    acts := two + [TheWriter];
    NextStep(s, laid, TheWriter, lz4);
    NextStep(s, one, TheWriter, lz4);
    NextStep(s, two, TheWriter, lz4);
  }

  // ----- The reader copying alone -----

  /** The copy with m more words of the slot. */
  function More(copy: seq<nat>, slot: seq<nat>, m: nat): seq<nat>
    requires |copy| + m <= |slot|
  {
    copy + slot[|copy|..|copy| + m]
  }

  /** Nothing the reader has copied after fewer than n more words makes it stop. */
  ghost predicate KeepsCopying(copy: seq<nat>, slot: seq<nat>, n: nat) {
    |copy| + n <= |slot| && forall m: nat :: m < n ==> !Complete(More(copy, slot, m))
  }

  lemma {:induction false} CopiesWords(s: State, q: nat, source: nat, copy: seq<nat>, mark: nat, n: nat, lz4: Lz4)
    requires s.reader == Copying(q, source, copy, mark) && source < |s.slots|
    requires KeepsCopying(copy, s.slots[source], n)
    ensures Exec(s, Steps(TheReader, n), lz4)
         == s.(reader := Copying(q, source, More(copy, s.slots[source], n), mark))
  {
    var slot := s.slots[source];
    if n == 0 {
      assert More(copy, slot, 0) == copy;
    } else {
      CopiesWords(s, q, source, copy, mark, n - 1, lz4);
      NextStep(s, Steps(TheReader, n - 1), TheReader, lz4);
      var so := More(copy, slot, n - 1);
      assert so + [slot[|so|]] == More(copy, slot, n);
    }
  }

  /** The reader finds a new sequence number and chooses the published slot. */
  lemma Chooses(s: State, before: State, first: seq<Actor>, lz4: Lz4) returns (acts: seq<Actor>)
    requires Exec(before, first, lz4) == s && s.reader.Polling? && s.sequence != s.last && s.published < 2
    ensures Exec(before, acts, lz4) == s.(reader := Copying(s.sequence, s.published, [], |s.frames|))
  {
    var one := first + [TheReader];
    acts := one + [TheReader];
    NextStep(before, first, TheReader, lz4);
    NextStep(before, one, TheReader, lz4);
  }

  // ----- The torn read -----

  /** The writer has published one frame; the reader has copied its header and nothing else yet. */
  lemma HeaderIsCopied(s: State, lz4: Lz4) returns (acts: seq<Actor>)
    requires Start(s) && AboutToPublish(s)
    ensures var f, t := FrameOf(s.todo[0]), Released(s);
      Exec(s, acts, lz4) == t.(reader := Copying(t.sequence, t.published, Words(f)[..HEADER], 1))
  {
    var f, t := FrameOf(s.todo[0]), Released(s);
    var first := Publishes(s, lz4);
    var u := t.(reader := Copying(t.sequence, t.published, [], 1));
    var second := Chooses(t, s, first, lz4);
    assert More([], t.slots[t.published], HEADER) == Words(f)[..HEADER];
    assert KeepsCopying([], t.slots[t.published], HEADER);
    CopiesWords(u, t.sequence, t.published, [], 1, HEADER, lz4);
    ExecInTwoParts(s, second, Steps(TheReader, HEADER), lz4);
    acts := second + Steps(TheReader, HEADER);
  }

  /** While a publish and the writing of another frame go on, the copy waits. */
  lemma TwoMoreFrames(s: State, lz4: Lz4) returns (acts: seq<Actor>)
    requires AboutToPublish(s) && AboutToPublish(Released(s))
    ensures Exec(s, acts, lz4) == Laid(Released(s))
  {
    var one := Publishes(s, lz4);
    var two := LaysWords(Released(s), lz4);
    ExecInTwoParts(s, one, two, lz4);
    acts := one + two;
  }

  /** The frame a reader puts together from the header of one frame and the payload of another. */
  function Mixed(f: Frame, h: Frame): Frame {
    f.(data := h.data)
  }

  lemma HeaderWords(f: Frame)
    ensures Words(f)[..HEADER] == [MAGIC, f.kind, f.flags, |f.data|, f.uncompressed, 0]
    ensures Words(f)[HEADER..] == Plain(f.data)
  {
  }

  lemma PlainReadsBack(f: Frame)
    ensures AsBytes(Plain(f.data)) == f.data
  {
  }

  lemma StopsAtLength(f: Frame, slot: seq<nat>, m: nat)
    requires 0 < |f.data| <= FRAME_CAPACITY && HEADER + m <= |slot| && m <= |f.data|
    ensures Complete(More(Words(f)[..HEADER], slot, m)) <==> m == |f.data|
  {
    HeaderWords(f);
    var copy := More(Words(f)[..HEADER], slot, m);
    assert copy[0] == MAGIC && copy[3] == |f.data| && |copy| == HEADER + m;
  }

  lemma PayloadIsMixed(f: Frame, h: Frame, slot: seq<nat>)
    requires 0 < |f.data| == |h.data| <= FRAME_CAPACITY && |Words(h)| <= |slot| && slot[..|Words(h)|] == Words(h)
    ensures KeepsCopying(Words(f)[..HEADER], slot, |f.data|)
    ensures var copy := More(Words(f)[..HEADER], slot, |f.data|);
      Complete(copy) && FrameRead(copy) == Mixed(f, h)
  {
    var header, n := Words(f)[..HEADER], |f.data|;
    forall m: nat | m < n ensures !Complete(More(header, slot, m)) {
      StopsAtLength(f, slot, m);
    }
    StopsAtLength(f, slot, n);
    HeaderWords(f);
    HeaderWords(h);
    PlainReadsBack(h);
    assert slot[HEADER..HEADER + n] == slot[..|Words(h)|][HEADER..];
    assert More(header, slot, n)[HEADER..] == Plain(h.data);
  }

  /** MAIN RESULT 29. `ReadsAreUntorn` does need its bound of one overlapping publish: from every start state
      without waiting, whatever the first three frames to publish are, if the first and the third have the
      same positive length, some run publishes the second and writes the third while the first is read, and
      the reader completes a copy with the header of the first and the payload of the third. */
  lemma TwoPublishesTear(s: State, lz4: Lz4) returns (acts: seq<Actor>)
    requires Start(s) && !s.waits && |s.todo| >= 3 && forall i :: 0 <= i < 3 ==> Accepts(s.todo[i])
    requires 0 < |FrameOf(s.todo[0]).data| == |FrameOf(s.todo[2]).data|
    ensures var e := Exec(s, acts, lz4);
            var f, g, h := FrameOf(s.todo[0]), FrameOf(s.todo[1]), FrameOf(s.todo[2]);
      && e.reader.Copying? && Complete(e.reader.copy) && FrameRead(e.reader.copy) == Mixed(f, h)
      && e.frames == [f, g] && e.reader.mark == 1 && Begun(e) == e.reader.mark + 2
      && (f.data != h.data && f.(data := []) != h.(data := []) && f.(data := []) != g.(data := []) ==>
            FrameRead(e.reader.copy) !in {f, g, h})
  {
    var f, h := FrameOf(s.todo[0]), FrameOf(s.todo[2]);
    var t := Released(s);
    var u := t.(reader := Copying(t.sequence, t.published, Words(f)[..HEADER], 1));
    var first := HeaderIsCopied(s, lz4);
    var second := TwoMoreFrames(u, lz4);
    var v := Laid(Released(u));
    PayloadIsMixed(f, h, v.slots[u.published]);
    CopiesWords(v, t.sequence, t.published, Words(f)[..HEADER], 1, |f.data|, lz4);
    ExecInTwoParts(s, first, second, lz4);
    ExecInTwoParts(s, first + second, Steps(TheReader, |f.data|), lz4);
    acts := first + second + Steps(TheReader, |f.data|);
  }
}
