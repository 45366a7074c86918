/**
 Where the parser waits for more, nothing is decided: a stream that ends there is
 malformed, and one continuation at least is not. So no chunk is asked for in vain.
 */
module MultipartUndecided {
  import opened ByteStrings
  import opened MultipartSpec
  import opened MultipartResume
  import opened MultipartStream

  /** From `i` on, `s` holds nothing but the start of `p`. */
  predicate StartsAt(s: Bytes, p: Bytes, i: nat) {
    i <= |s| && |s| - i < |p| && s[i..] == p[..|s| - i]
  }

  /** The first place of `s` at which `p` may have started. */
  lemma {:induction false} FirstStart(s: Bytes, p: Bytes, from: nat) returns (i: nat)
    requires p != [] && from <= |s|
    ensures from <= i && StartsAt(s, p, i)
    ensures forall j :: from <= j < i ==> !StartsAt(s, p, j)
    decreases |s| - from
  {
    i := from;
    if !StartsAt(s, p, from) {
      i := FirstStart(s, p, from + 1);
    }
  }

  /** The shortest bytes that complete a `p` at the end of `s`: the first hit ends with them. */
  lemma Completion(s: Bytes, p: Bytes) returns (t: Bytes)
    requires p != [] && Find(s, p) < 0
    ensures Find(s + t, p) + |p| == |s + t|
    ensures Find(s + t, p) >= 0
  {
    var i := FirstStart(s, p, 0);
    var k := |s| - i;
    t := p[k..];
    var all := s + t;
    assert all[i..i + |p|] == p[..k] + p[k..] == p;
    forall j | 0 <= j < i ensures !OccursAt(all, p, j) {
      if OccursAt(all, p, j) {
        NoEarlierHit(s, t, p, j);
      }
    }
    FindIs(all, p, i);
  }

  lemma NoEarlierHit(s: Bytes, t: Bytes, p: Bytes, j: nat)
    requires Find(s, p) < 0 && j <= |s| && OccursAt(s + t, p, j)
    ensures StartsAt(s, p, j)
  {
    if j + |p| <= |s| {
      OccursInPrefix(s, t, p, j);
    } else {
      var k := |s| - j;
      assert s[j..] == (s + t)[j..j + |p|][..k];
    }
  }

  const CLOSE: Bytes := [DASH, DASH]

  /** A body closed right after a marker lacks the field. */
  lemma ClosedIsMissing(f: Frame, s: Bytes, t: Bytes, p: Bytes)
    requires Find(s + t, p) >= 0 && Find(s + t, p) + |p| == |s + t|
    ensures Find(s + (t + CLOSE), p) == Find(s + t, p)
    ensures (s + (t + CLOSE))[Find(s + t, p) + |p|..] == CLOSE
  {
    ConcatAssociates(s, t, CLOSE);
    FindStable(s + t, CLOSE, p);
  }

  /** So many bytes that a header block still open after them is too large. */
  function Filler(): Bytes {
    seq(HEADER_CAP + 1, _ => 97)
  }

  lemma FillerOverflows(f: Frame, buf: Bytes, at: nat, cuts: set<nat>)
    requires FindHeaderEnd(buf).Unterminated?
    ensures Part(f, buf + Filler(), at, cuts) == Failed(HeadersTooLarge)
  {
    var s := buf + Filler();
    // A blank line past the buffer would end in an LF, and the filler has none.
    HeaderEndLate(buf, Filler());
    if FindHeaderEnd(s).EndsAt? {
      BlockEndsInLf(s, |buf|);
    }
  }

  lemma BlockEndsInLf(s: Bytes, n: nat)
    requires FindHeaderEnd(s).EndsAt? && FindHeaderEnd(s).start + FindHeaderEnd(s).separator > n
    ensures exists i :: n <= i < |s| && s[i] == LF
  {
    var e := FindHeaderEnd(s);
    var last := e.start + e.separator - 1;
    assert s[e.start..e.start + e.separator][e.separator - 1] == s[last];
  }

  lemma PreambleOpen(f: Frame, c: Conf) returns (future: Bytes)
    requires Stalled(f, c) && c.state == InPreamble
    ensures forall cuts :: Verdict(f, c, future, cuts) == Failed(MissingField)
  {
    var t := Completion(c.buf, f.Marker());
    ClosedIsMissing(f, c.buf, t, f.Marker());
    future := t + CLOSE;
  }

  lemma SkippedOpen(f: Frame, c: Conf) returns (future: Bytes)
    requires Stalled(f, c) && c.state == InSkipped
    ensures forall cuts :: Verdict(f, c, future, cuts) == Failed(MissingField)
  {
    var t := Completion(c.buf, f.Delimiter());
    ClosedIsMissing(f, c.buf, t, f.Delimiter());
    future := t + CLOSE;
    forall cuts ensures Verdict(f, c, future, cuts) == Failed(MissingField) {
      var s, d := c.buf + future, f.Delimiter();
      var next := Find(s, d) + |d|;
      assert s[next..] == CLOSE;
      assert SkipPart(f, s, c.at, cuts) == AfterMarker(f, CLOSE, c.at + next, cuts);
    }
  }

  lemma FileOpen(f: Frame, c: Conf) returns (future: Bytes)
    requires Stalled(f, c) && c.state == InFile
    ensures forall cuts :: Verdict(f, c, future, cuts) != Failed(Malformed)
  {
    FileMissed(f, c.sink, c.buf);
    future := Completion(c.sink + c.buf, f.Delimiter());
  }

  lemma BoundaryOpen(f: Frame, c: Conf) returns (future: Bytes)
    requires Stalled(f, c) && c.state == AtBoundaryEnd
    ensures forall cuts :: Verdict(f, c, future, cuts) != Failed(Malformed)
  {
    if c.buf == [] {
      future := CLOSE;
      assert c.buf + future == CLOSE;
    } else if c.buf[0] == DASH {
      future := [DASH];
      assert c.buf + future == CLOSE;
    } else {
      future := [LF] + Filler();
      assert c.buf == [CR];
      var none: Bytes := [];
      assert (c.buf + future)[2..] == none + Filler();
      forall cuts ensures Verdict(f, c, future, cuts) != Failed(Malformed) {
        FillerOverflows(f, none, c.at + 2, cuts);
      }
    }
  }

  /** Wherever the parser waits, some continuation is not malformed. */
  lemma StalledIsOpen(f: Frame, c: Conf) returns (future: Bytes)
    requires Stalled(f, c)
    ensures forall cuts :: Verdict(f, c, future, cuts) != Failed(Malformed)
  {
    hide Stalled, Verdict;
    match c.state
    case InPreamble => future := PreambleOpen(f, c);
    case AtBoundaryEnd => future := BoundaryOpen(f, c);
    case InHeaders => future := HeadersOpen(f, c);
    case InFile => future := FileOpen(f, c);
    case InSkipped => future := SkippedOpen(f, c);
  }

  lemma HeadersOpen(f: Frame, c: Conf) returns (future: Bytes)
    requires Stalled(f, c) && c.state == InHeaders
    ensures forall cuts :: Verdict(f, c, future, cuts) != Failed(Malformed)
  {
    future := Filler();
    forall cuts ensures Verdict(f, c, future, cuts) != Failed(Malformed) {
      FillerOverflows(f, c.buf, c.at, cuts);
    }
  }

  /** The chunks after which the parser waits for more decide no outcome. */
  lemma WaitsOnlyUndecided(f: Frame, chunks: seq<Bytes>, c: Conf)
    requires ReadsTo(f, chunks, c) && Stalled(f, c)
    ensures forall o :: !Decides(f, chunks, o)
  {
    hide Verdict, Stalled, Meaning;
    StreamEnds(f, chunks, c);
    var future := StalledIsOpen(f, c);
    assert chunks + [] == chunks;
    assert Meaning(f, chunks + []) == Failed(Malformed);
    ConcatOne(future);
    assert Meaning(f, chunks + [future]) == Verdict(f, c, Concat([future]), Cuts(chunks + [future]));
  }

  lemma ConcatOne(chunk: Bytes)
    ensures Concat([chunk]) == chunk
  {
    assert [chunk][1..] == [];
    assert chunk + [] == chunk;
  }
}
