/**
 What a half-read body still means: the parser's configuration, together with
 any bytes yet to come, has the meaning the whole body has. One lemma per step
 shows that the step changes the configuration but not this meaning.
 */
module MultipartResume {
  import opened ByteStrings
  import opened PartHeaders
  import opened MultipartSpec

  datatype State = InPreamble | AtBoundaryEnd | InHeaders | InFile | InSkipped

  /** Parser state, file bytes already flushed, unread bytes and the offset of the first of them. */
  datatype Conf = Conf(state: State, sink: Bytes, buf: Bytes, at: nat)

  /** The outcome of going on from `c` with `future` still to arrive. */
  ghost function Verdict(f: Frame, c: Conf, future: Bytes, cuts: set<nat>): Outcome {
    match c.state
    case InPreamble => Preamble(f, c.buf + future, c.at, cuts)
    case AtBoundaryEnd => AfterMarker(f, c.buf + future, c.at, cuts)
    case InHeaders => Part(f, c.buf + future, c.at, cuts)
    case InFile => FileContent(f, c.sink + c.buf + future)
    case InSkipped => SkipPart(f, c.buf + future, c.at, cuts)
  }

  /** The most bytes the parser holds back in a state once it has asked for more. */
  function Slack(f: Frame, state: State): (n: nat)
    ensures n <= Max(|f.Marker()| + 1, HEADER_CAP)
  {
    match state
    case InPreamble => |f.Marker()| - 1
    case AtBoundaryEnd => 1
    case InHeaders => HEADER_CAP
    case InFile => |f.Delimiter()|
    case InSkipped => |f.Delimiter()|
  }

  /**
   The first `lag` bytes of the buffer came with earlier chunks: they are few,
   and no header block ended within them.
   */
  predicate CaughtUp(f: Frame, state: State, buf: Bytes, lag: int) {
    && lag <= |buf|
    && lag <= Slack(f, state)
    && (state == InHeaders && lag > 0 ==> FindHeaderEnd(buf[..lag]).Unterminated?)
  }

  lemma HeaderEndsLate(f: Frame, buf: Bytes, lag: int)
    requires CaughtUp(f, InHeaders, buf, lag) && FindHeaderEnd(buf).EndsAt?
    ensures FindHeaderEnd(buf).start + FindHeaderEnd(buf).separator > lag
  {
    if lag > 0 {
      assert buf == buf[..lag] + buf[lag..];
      HeaderEndLate(buf[..lag], buf[lag..]);
    }
  }

  function Max(a: nat, b: nat): nat {
    if a < b then b else a
  }

  /** A chunk ended at `now`, and the one before it at or before `before`. */
  ghost predicate LastChunk(cuts: set<nat>, before: nat, now: nat) {
    now in cuts && forall p :: p in cuts && p < now ==> p <= before
  }

  /** The configuration once `chunk` has been appended to the buffer. */
  function Fed(c: Conf, chunk: Bytes): Conf {
    c.(buf := c.buf + chunk)
  }

  /** `c` and `c'` mean the same whatever arrives after the chunk `before..now`. */
  ghost predicate Agrees(f: Frame, c: Conf, c': Conf, before: nat, now: nat) {
    forall future, cuts | LastChunk(cuts, before, now) :: Verdict(f, c, future, cuts) == Verdict(f, c', future, cuts)
  }

  /** `c` means `o` whatever arrives after the chunk `before..now`. */
  ghost predicate Settles(f: Frame, c: Conf, before: nat, now: nat, o: Outcome) {
    forall future, cuts | LastChunk(cuts, before, now) :: Verdict(f, c, future, cuts) == o
  }

  /**
   No delimiter starts in the flushed bytes or right after them, so neither a
   split delimiter nor the CR before one has been flushed.
   */
  ghost predicate FlushSafe(f: Frame, sink: Bytes, buf: Bytes) {
    sink == [] ||
    (|buf| >= |f.Delimiter()| && forall i :: 0 <= i <= |sink| ==> !OccursAt(sink + buf, f.Delimiter(), i))
  }

  lemma EmptySinkIsSafe(f: Frame, buf: Bytes)
    ensures FlushSafe(f, [], buf)
  {
  }

  lemma PreambleFound(f: Frame, buf: Bytes, t: Bytes, at: nat, cuts: set<nat>)
    requires Find(buf, f.Marker()) >= 0
    ensures var next := Find(buf, f.Marker()) + |f.Marker()|;
            Preamble(f, buf + t, at, cuts) == AfterMarker(f, buf[next..] + t, at + next, cuts)
  {
    hide Find, AfterMarker;
    FindStable(buf, t, f.Marker());
    var next := Find(buf, f.Marker()) + |f.Marker()|;
    SuffixAppend(buf, next, t);
  }

  lemma PreamblePruned(f: Frame, buf: Bytes, t: Bytes, at: nat, cuts: set<nat>, k: nat)
    requires Find(buf, f.Marker()) < 0
    requires k <= |buf| && |buf| - k >= |f.Marker()| - 1
    ensures Preamble(f, buf + t, at, cuts) == Preamble(f, buf[k..] + t, at + k, cuts)
  {
    hide Find, AfterMarker;
    FindPruned(buf, t, f.Marker(), k);
    var i := Find(buf[k..] + t, f.Marker());
    if i >= 0 {
      var next := i + |f.Marker()|;
      assert (buf + t)[k + next..] == (buf[k..] + t)[next..];
    }
  }

  lemma SkipFound(f: Frame, buf: Bytes, t: Bytes, at: nat, cuts: set<nat>)
    requires Find(buf, f.Delimiter()) >= 0
    ensures var next := Find(buf, f.Delimiter()) + |f.Delimiter()|;
            SkipPart(f, buf + t, at, cuts) == AfterMarker(f, buf[next..] + t, at + next, cuts)
  {
    hide Find, AfterMarker;
    FindStable(buf, t, f.Delimiter());
    var next := Find(buf, f.Delimiter()) + |f.Delimiter()|;
    SuffixAppend(buf, next, t);
  }

  lemma SkipPruned(f: Frame, buf: Bytes, t: Bytes, at: nat, cuts: set<nat>, k: nat)
    requires Find(buf, f.Delimiter()) < 0
    requires k <= |buf| && |buf| - k >= |f.Delimiter()| - 1
    ensures SkipPart(f, buf + t, at, cuts) == SkipPart(f, buf[k..] + t, at + k, cuts)
  {
    hide Find, AfterMarker;
    FindPruned(buf, t, f.Delimiter(), k);
    var i := Find(buf[k..] + t, f.Delimiter());
    if i >= 0 {
      var next := i + |f.Delimiter()|;
      assert (buf + t)[k + next..] == (buf[k..] + t)[next..];
    }
  }

  /** How many bytes the line break at the head of the buffer takes, 0 if there is none. */
  function LineBreak(buf: Bytes): (n: nat)
    ensures n <= |buf|
  {
    if |buf| >= 1 && buf[0] == LF then 1
    else if |buf| >= 2 && buf[0] == CR && buf[1] == LF then 2
    else 0
  }

  lemma BoundaryLine(f: Frame, buf: Bytes, t: Bytes, at: nat, cuts: set<nat>, n: nat)
    requires n == LineBreak(buf) > 0
    ensures AfterMarker(f, buf + t, at, cuts) == Part(f, buf[n..] + t, at + n, cuts)
  {
    assert (buf + t)[n..] == buf[n..] + t;
  }

  lemma HeadersRead(f: Frame, buf: Bytes, t: Bytes, at: nat, cuts: set<nat>)
    requires FindHeaderEnd(buf).EndsAt? && FindHeaderEnd(buf).start <= HEADER_CAP
    requires forall p :: p in cuts && p < at + |buf| ==> p <= at + HEADER_CAP
    ensures var e := FindHeaderEnd(buf);
            var next := e.start + e.separator;
            Part(f, buf + t, at, cuts) ==
            if IsFile(buf[..e.start]) then FileContent(f, buf[next..] + t)
            else SkipPart(f, buf[next..] + t, at + next, cuts)
  {
    hide FindHeaderEnd, IsFile, FileContent, SkipPart, AfterMarker;
    HeaderEndStable(buf, t);
    var e := FindHeaderEnd(buf);
    var next := e.start + e.separator;
    assert (buf + t)[..e.start] == buf[..e.start];
    SuffixAppend(buf, next, t);
    assert HeadersPass(e, at, cuts);
  }

  lemma HeadersRefused(f: Frame, buf: Bytes, t: Bytes, at: nat, cuts: set<nat>)
    requires var e := FindHeaderEnd(buf); if e.EndsAt? then e.start > HEADER_CAP else |buf| > HEADER_CAP
    requires at + |buf| in cuts
    ensures Part(f, buf + t, at, cuts) == Failed(HeadersTooLarge)
  {
    if FindHeaderEnd(buf).EndsAt? {
      HeaderEndStable(buf, t);
    } else {
      HeaderEndLate(buf, t);
      var e := FindHeaderEnd(buf + t);
      if e.EndsAt? {
        assert CutWithin(cuts, at + HEADER_CAP + 1, at + e.start + e.separator);
      }
    }
  }

  lemma ContentEndShift(sink: Bytes, buf: Bytes, t: Bytes, i: nat)
    requires i <= |buf| && (sink != [] ==> i > 0)
    ensures ContentEnd(sink + buf + t, |sink| + i) == |sink| + ContentEnd(buf, i)
  {
  }

  /** A delimiter found in the buffer closes the same content the whole part has. */
  lemma FileFound(f: Frame, sink: Bytes, buf: Bytes, t: Bytes)
    requires FlushSafe(f, sink, buf)
    requires Find(buf, f.Delimiter()) >= 0
    ensures var end := ContentEnd(buf, Find(buf, f.Delimiter()));
            FileContent(f, sink + buf + t) ==
            if |sink| + end > f.maxBytes then Failed(Oversized)
            else if |sink| + end == 0 then Failed(EmptyFile)
            else Done(sink + buf[..end])
  {
    hide ContentEnd, Find;
    var d := f.Delimiter();
    var i := Find(buf, d);
    var total := sink + buf;
    assert total[|sink|..] == buf;
    FindShift(total, d, |sink|);
    FindStable(total, t, d);
    assert Find(total + t, d) == |sink| + i;
    if sink != [] {
      assert !OccursAt(total, d, |sink|);
      OccursInSuffix(total, d, |sink|, |sink|);
      assert i > 0;
    }
    var end := ContentEnd(buf, i);
    ContentEndShift(sink, buf, t, i);
    assert (total + t)[..|sink| + end] == sink + buf[..end];
  }

  /** With no delimiter in sight, flushing more than the limit allows already means too large. */
  lemma FileOverflows(f: Frame, total: Bytes, t: Bytes)
    requires Find(total, f.Delimiter()) < 0
    requires |total| > f.maxBytes + |f.Delimiter()|
    ensures FileContent(f, total + t) == Failed(Oversized)
  {
    FindLate(total, t, f.Delimiter());
  }

  /** In the file part a miss in the buffer is a miss in the whole content so far. */
  lemma FileMissed(f: Frame, sink: Bytes, buf: Bytes)
    requires FlushSafe(f, sink, buf)
    requires Find(buf, f.Delimiter()) < 0
    ensures Find(sink + buf, f.Delimiter()) < 0
  {
    assert (sink + buf)[|sink|..] == buf;
    FindShift(sink + buf, f.Delimiter(), |sink|);
  }

  /** More bytes do not make an earlier flush unsafe. */
  lemma FlushStaysSafe(f: Frame, sink: Bytes, buf: Bytes, chunk: Bytes)
    requires FlushSafe(f, sink, buf)
    ensures FlushSafe(f, sink, buf + chunk)
  {
    if sink != [] {
      assert sink + (buf + chunk) == sink + buf + chunk;
      forall i | 0 <= i <= |sink| ensures !OccursAt(sink + (buf + chunk), f.Delimiter(), i) {
        OccursInPrefix(sink + buf, chunk, f.Delimiter(), i);
      }
    }
  }

  /** What has been flushed is a prefix of whatever content the part turns out to have. */
  lemma FlushedIsPrefix(f: Frame, sink: Bytes, buf: Bytes, t: Bytes)
    requires FlushSafe(f, sink, buf)
    requires FileContent(f, sink + buf + t).Done?
    ensures sink <= FileContent(f, sink + buf + t).content
  {
    var i := Find(sink + buf + t, f.Delimiter());
    if sink != [] && i <= |sink| {
      OccursInPrefix(sink + buf, t, f.Delimiter(), i);
      assert false;
    }
  }

  /** Appending a chunk moves it from the future to the buffer and changes nothing else. */
  lemma FedVerdict(f: Frame, c: Conf, chunk: Bytes, future: Bytes, cuts: set<nat>)
    ensures Verdict(f, Fed(c, chunk), future, cuts) == Verdict(f, c, chunk + future, cuts)
  {
    assert c.buf + chunk + future == c.buf + (chunk + future);
    assert c.sink + (c.buf + chunk) + future == c.sink + c.buf + (chunk + future);
  }

  /** The parser can go no further on `c` without more bytes. */
  ghost predicate Stalled(f: Frame, c: Conf) {
    && |c.buf| <= Slack(f, c.state)
    && match c.state
       case InPreamble => true
       case AtBoundaryEnd => c.buf == [] || c.buf[0] in {DASH, CR}
       case InHeaders => FindHeaderEnd(c.buf).Unterminated?
       case InFile => Find(c.buf, f.Delimiter()) < 0 && FlushSafe(f, c.sink, c.buf) && |c.sink| <= f.maxBytes
       case InSkipped => Find(c.buf, f.Delimiter()) < 0
  }

  lemma StalledIsCaughtUp(f: Frame, c: Conf)
    requires Stalled(f, c)
    ensures CaughtUp(f, c.state, c.buf, |c.buf|)
    ensures |c.buf| <= Max(|f.Marker()| + 1, HEADER_CAP)
  {
    assert c.buf[..|c.buf|] == c.buf;
  }

  lemma CaughtUpIsShort(f: Frame, state: State, buf: Bytes)
    requires CaughtUp(f, state, buf, |buf|)
    ensures |buf| <= Max(|f.Marker()| + 1, HEADER_CAP)
  {
  }

  lemma FedIsCaughtUp(f: Frame, c: Conf, chunk: Bytes)
    requires CaughtUp(f, c.state, c.buf, |c.buf|)
    ensures CaughtUp(f, c.state, c.buf + chunk, |c.buf|)
  {
    assert (c.buf + chunk)[..|c.buf|] == c.buf == c.buf[..|c.buf|];
  }

  /** A stream that ends while the parser waits is malformed, whatever the state. */
  lemma StalledEndIsMalformed(f: Frame, c: Conf, cuts: set<nat>)
    requires Stalled(f, c)
    ensures Verdict(f, c, [], cuts) == Failed(Malformed)
  {
    assert c.buf + [] == c.buf;
    match c.state
    case InPreamble =>
    case AtBoundaryEnd =>
      if c.buf != [] {
        assert c.buf[1..] == [];
        assert Part(f, [], c.at + 1, cuts) == Failed(Malformed);
      }
    case InHeaders =>
    case InFile =>
      assert c.sink + c.buf + [] == c.sink + c.buf;
      FileMissed(f, c.sink, c.buf);
    case InSkipped =>
  }

  // The steps of the parser, as changes of configuration.

  /** `n` bytes consumed and the parser in state `state`. */
  function Consumed(c: Conf, n: nat, state: State): Conf
    requires n <= |c.buf|
  {
    Conf(state, c.sink, c.buf[n..], c.at + n)
  }

  /** All but the last `keep` bytes dropped. */
  function Pruned(c: Conf, keep: nat): Conf {
    if |c.buf| > keep then Consumed(c, |c.buf| - keep, c.state) else c
  }

  /** `n` bytes moved to the sink. */
  function Flushed(c: Conf, n: nat): Conf
    requires n <= |c.buf|
  {
    Conf(c.state, c.sink + c.buf[..n], c.buf[n..], c.at + n)
  }

  lemma AgreesReflexive(f: Frame, c: Conf, before: nat, now: nat)
    ensures Agrees(f, c, c, before, now)
  {
  }

  lemma AgreesTransitive(f: Frame, a: Conf, b: Conf, c: Conf, before: nat, now: nat)
    requires Agrees(f, a, b, before, now) && Agrees(f, b, c, before, now)
    ensures Agrees(f, a, c, before, now)
  {
    hide Verdict;
  }

  lemma AgreesThenSettles(f: Frame, a: Conf, b: Conf, before: nat, now: nat, o: Outcome)
    requires Agrees(f, a, b, before, now) && Settles(f, b, before, now, o)
    ensures Settles(f, a, before, now, o)
  {
    hide Verdict;
  }

  lemma SeekBoundaryKeeps(f: Frame, c: Conf, before: nat, now: nat)
    requires c.state == InPreamble
    ensures var i := Find(c.buf, f.Marker());
            Agrees(f, c, if i < 0 then Pruned(c, |f.Marker()| - 1) else Consumed(c, i + |f.Marker()|, AtBoundaryEnd),
                   before, now)
  {
    hide Preamble, AfterMarker;
    var m := f.Marker();
    var i := Find(c.buf, m);
    var c' := if i < 0 then Pruned(c, |m| - 1) else Consumed(c, i + |m|, AtBoundaryEnd);
    forall future, cuts | LastChunk(cuts, before, now)
      ensures Verdict(f, c, future, cuts) == Verdict(f, c', future, cuts)
    {
      if i >= 0 {
        PreambleFound(f, c.buf, future, c.at, cuts);
      } else if |c.buf| > |m| - 1 {
        PreamblePruned(f, c.buf, future, c.at, cuts, |c.buf| - (|m| - 1));
      }
    }
  }

  lemma EndBoundaryKeeps(f: Frame, c: Conf, before: nat, now: nat)
    requires c.state == AtBoundaryEnd && LineBreak(c.buf) > 0
    ensures Agrees(f, c, Consumed(c, LineBreak(c.buf), InHeaders), before, now)
  {
    hide Part, AfterMarker, LineBreak;
    var n := LineBreak(c.buf);
    var c' := Consumed(c, n, InHeaders);
    forall future, cuts | LastChunk(cuts, before, now)
      ensures Verdict(f, c, future, cuts) == Verdict(f, c', future, cuts)
    {
      BoundaryLine(f, c.buf, future, c.at, cuts, n);
    }
  }

  lemma EndBoundaryRefuses(f: Frame, c: Conf, before: nat, now: nat)
    requires c.state == AtBoundaryEnd && c.buf != [] && LineBreak(c.buf) == 0
    requires c.buf[0] in {DASH, CR} ==> |c.buf| >= 2
    ensures Settles(f, c, before, now,
                    Failed(if c.buf[0] == DASH && c.buf[1] == DASH then MissingField else Malformed))
  {
  }

  lemma ReadHeadersKeeps(f: Frame, c: Conf, before: nat, now: nat)
    requires c.state == InHeaders && c.sink == []
    requires now == c.at + |c.buf| && before <= c.at + HEADER_CAP
    requires FindHeaderEnd(c.buf).EndsAt? && FindHeaderEnd(c.buf).start <= HEADER_CAP
    ensures var e := FindHeaderEnd(c.buf);
            Agrees(f, c, Consumed(c, e.start + e.separator, if IsFile(c.buf[..e.start]) then InFile else InSkipped),
                   before, now)
  {
    hide Part, SkipPart, FileContent, FindHeaderEnd, IsFile;
    var e := FindHeaderEnd(c.buf);
    var c' := Consumed(c, e.start + e.separator, if IsFile(c.buf[..e.start]) then InFile else InSkipped);
    forall future, cuts | LastChunk(cuts, before, now)
      ensures Verdict(f, c, future, cuts) == Verdict(f, c', future, cuts)
    {
      HeadersRead(f, c.buf, future, c.at, cuts);
      assert c'.sink + c'.buf == c'.buf;
    }
  }

  lemma ReadHeadersRefuses(f: Frame, c: Conf, before: nat, now: nat)
    requires c.state == InHeaders && now == c.at + |c.buf|
    requires var e := FindHeaderEnd(c.buf); if e.EndsAt? then e.start > HEADER_CAP else |c.buf| > HEADER_CAP
    ensures Settles(f, c, before, now, Failed(HeadersTooLarge))
  {
    hide Part, FindHeaderEnd;
    forall future, cuts | LastChunk(cuts, before, now)
      ensures Verdict(f, c, future, cuts) == Failed(HeadersTooLarge)
    {
      HeadersRefused(f, c.buf, future, c.at, cuts);
    }
  }

  lemma ReadFileFinishes(f: Frame, c: Conf, before: nat, now: nat)
    requires c.state == InFile && FlushSafe(f, c.sink, c.buf) && Find(c.buf, f.Delimiter()) >= 0
    ensures var end := ContentEnd(c.buf, Find(c.buf, f.Delimiter()));
            Settles(f, c, before, now,
                    if |c.sink| + end > f.maxBytes then Failed(Oversized)
                    else if |c.sink| + end == 0 then Failed(EmptyFile)
                    else Done(c.sink + c.buf[..end]))
  {
    var end := ContentEnd(c.buf, Find(c.buf, f.Delimiter()));
    hide FileContent, ContentEnd;
    forall future, cuts | LastChunk(cuts, before, now)
      ensures Verdict(f, c, future, cuts) ==
              if |c.sink| + end > f.maxBytes then Failed(Oversized)
              else if |c.sink| + end == 0 then Failed(EmptyFile)
              else Done(c.sink + c.buf[..end])
    {
      FileFound(f, c.sink, c.buf, future);
    }
  }

  lemma ReadFileOverflows(f: Frame, c: Conf, before: nat, now: nat)
    requires c.state == InFile && FlushSafe(f, c.sink, c.buf) && Find(c.buf, f.Delimiter()) < 0
    requires |c.sink| + |c.buf| > f.maxBytes + |f.Delimiter()|
    ensures Settles(f, c, before, now, Failed(Oversized))
  {
    hide FileContent;
    FileMissed(f, c.sink, c.buf);
    forall future, cuts | LastChunk(cuts, before, now)
      ensures Verdict(f, c, future, cuts) == Failed(Oversized)
    {
      FileOverflows(f, c.sink + c.buf, future);
    }
  }

  /** Flushing all but a delimiter's length keeps the content, and stays safe. */
  lemma ReadFileKeeps(f: Frame, c: Conf, before: nat, now: nat)
    requires c.state == InFile && FlushSafe(f, c.sink, c.buf) && Find(c.buf, f.Delimiter()) < 0
    requires |c.buf| > |f.Delimiter()|
    ensures var c' := Flushed(c, |c.buf| - |f.Delimiter()|);
            && Agrees(f, c, c', before, now)
            && FlushSafe(f, c'.sink, c'.buf)
            && c'.sink + c'.buf == c.sink + c.buf
            && Find(c'.buf, f.Delimiter()) < 0
  {
    hide FileContent;
    var cut := |c.buf| - |f.Delimiter()|;
    FileMissed(f, c.sink, c.buf);
    assert c.sink + c.buf[..cut] + c.buf[cut..] == c.sink + c.buf;
    if OccursAt(c.buf[cut..], f.Delimiter(), 0) {
      OccursInSuffix(c.buf, f.Delimiter(), cut, cut);
    }
  }

  lemma FlushedStalls(f: Frame, c: Conf, lag: int)
    requires c.state == InFile && FlushSafe(f, c.sink, c.buf) && Find(c.buf, f.Delimiter()) < 0
    requires |c.buf| > |f.Delimiter()| && CaughtUp(f, InFile, c.buf, lag)
    ensures var cut := |c.buf| - |f.Delimiter()|;
            && (|c.sink| + cut <= f.maxBytes ==> Stalled(f, Flushed(c, cut)))
            && CaughtUp(f, InFile, c.buf[cut..], lag - cut)
  {
    ReadFileKeeps(f, c, 0, 0);
  }

  lemma ShortFileStalls(f: Frame, c: Conf)
    requires c.state == InFile && FlushSafe(f, c.sink, c.buf) && Find(c.buf, f.Delimiter()) < 0
    requires |c.buf| <= |f.Delimiter()| && |c.sink| <= f.maxBytes
    ensures Stalled(f, c)
  {
  }

  /** No delimiter in sight: all but its length can go. */
  lemma PrunedSkipKeeps(f: Frame, c: Conf, before: nat, now: nat, lag: int)
    requires c.state == InSkipped && Find(c.buf, f.Delimiter()) < 0 && CaughtUp(f, InSkipped, c.buf, lag)
    ensures var c' := Pruned(c, |f.Delimiter()|);
            && Agrees(f, c, c', before, now) && Stalled(f, c')
            && CaughtUp(f, InSkipped, c'.buf, lag - (c'.at - c.at))
  {
    PrunedSkipAgrees(f, c, before, now);
    if |c.buf| > |f.Delimiter()| {
      PruneKeepsMiss(c.buf, f.Delimiter());
    }
    hide Agrees, Find;
  }

  lemma PrunedSkipAgrees(f: Frame, c: Conf, before: nat, now: nat)
    requires c.state == InSkipped && Find(c.buf, f.Delimiter()) < 0
    ensures Agrees(f, c, Pruned(c, |f.Delimiter()|), before, now)
  {
    hide SkipPart, AfterMarker, Find;
    var k := |c.buf| - |f.Delimiter()|;
    var c' := Pruned(c, |f.Delimiter()|);
    forall future, cuts | LastChunk(cuts, before, now)
      ensures Verdict(f, c, future, cuts) == Verdict(f, c', future, cuts)
    {
      if k > 0 {
        SkipPruned(f, c.buf, future, c.at, cuts, k);
      }
    }
  }

  lemma PruneKeepsMiss(s: Bytes, p: Bytes)
    requires Find(s, p) < 0 && |s| > |p|
    ensures Find(s[|s| - |p|..], p) < 0
  {
    var k := |s| - |p|;
    if OccursAt(s[k..], p, 0) {
      OccursInSuffix(s, p, k, k);
    }
  }

  /** A delimiter ends the skipped part. */
  lemma SkippedKeeps(f: Frame, c: Conf, before: nat, now: nat, lag: int)
    requires c.state == InSkipped && Find(c.buf, f.Delimiter()) >= 0 && CaughtUp(f, InSkipped, c.buf, lag)
    ensures var next := Find(c.buf, f.Delimiter()) + |f.Delimiter()|;
            && Agrees(f, c, Consumed(c, next, AtBoundaryEnd), before, now)
            && CaughtUp(f, AtBoundaryEnd, c.buf[next..], lag - next)
  {
    hide SkipPart, AfterMarker, Find, OccursAt;
    var next := Find(c.buf, f.Delimiter()) + |f.Delimiter()|;
    var c' := Consumed(c, next, AtBoundaryEnd);
    forall future, cuts | LastChunk(cuts, before, now)
      ensures Verdict(f, c, future, cuts) == Verdict(f, c', future, cuts)
    {
      SkipFound(f, c.buf, future, c.at, cuts);
    }
  }
}
