/**
 The incremental reader: a five-state parser over a byte buffer that chunks are
 appended to and consumed bytes deleted from, and that flushes file bytes into
 a sink the caller owns.
 */
module MultipartReader {
  import opened ByteArrays
  import opened ByteStrings
  import opened Options
  import opened PartHeaders
  import opened MultipartSpec
  import opened MultipartResume
  import opened MultipartStream
  import opened MultipartUndecided

  datatype StepResult = Again | Wait | Raise(error: Error)

  class Reader {
    const frame: Frame
    const sink: ByteArray
    var buf: Bytes
    var state: State
    var done: bool
    ghost var fed: Bytes  // every byte fed so far
    ghost var chunkStart: nat  // how many of them came before the current chunk
    ghost var contentStart: nat  // where the content of the open file part starts in them
    ghost var advances: nat  // how many steps have answered True
    ghost var peak: nat  // the most bytes the buffer has held since the current chunk came

    ghost predicate Valid()
      reads this, sink
      ensures Valid() ==> |buf| <= |fed| && |sink.data| <= frame.maxBytes && advances <= |fed| + 1
    {
      && |buf| <= |fed| && buf == fed[|fed| - |buf|..]
      && |buf| <= peak
      && chunkStart <= |fed|
      && |sink.data| <= frame.maxBytes
      && advances + |buf| <= |fed| + (if done then 1 else 0)
      && (!done ==>
            && CaughtUp(frame, state, buf, chunkStart - (|fed| - |buf|))
            && if state == InFile
               then contentStart <= |fed| && sink.data + buf == fed[contentStart..] && FlushSafe(frame, sink.data, buf)
               else sink.data == [])
    }

    ghost function Configuration(): Conf
      requires |buf| <= |fed|
      reads this, sink
    {
      Conf(state, sink.data, buf, |fed| - |buf|)
    }

    constructor (boundary: Bytes, maxBytes: nat, sink: ByteArray)
      requires sink.data == []
      ensures Valid() && this.frame == Frame(boundary, maxBytes) && this.sink == sink
      ensures !done && fed == [] && Configuration() == Conf(InPreamble, [], [], 0) && advances == 0
    {
      this.frame := Frame(boundary, maxBytes);
      this.sink := sink;
      buf, state, done := [], InPreamble, false;
      fed, chunkStart, contentStart, advances, peak := [], 0, 0, 0, 0;
    }

    /**
     One step of the parse. Whatever it does, the body goes on meaning what it
     meant; a step that asks to be repeated has consumed bytes or finished.
     */
    method Step() returns (r: StepResult)
      requires Valid() && !done
      modifies this, sink
      ensures Stepped(r, old(Configuration()), old(fed), old(chunkStart), old(advances), old(peak))
    {
      match state
      case InPreamble => r := SeekBoundary();
      case AtBoundaryEnd => r := EndBoundary();
      case InHeaders => r := ReadHeaders();
      case InFile => r := ReadFile();
      case InSkipped => r := SkipOverPart();
    }

    /** What every step keeps, given the configuration and the counters it started from. */
    ghost predicate Stepped(r: StepResult, before: Conf, fed': Bytes, chunkStart': nat, advances': nat, peak': nat)
      reads this, sink
    {
      && fed == fed' && chunkStart == chunkStart' && |sink.data| <= frame.maxBytes && advances <= |fed| + 1
      && peak == peak' && |buf| <= |before.buf|
      && match r
         case Again =>
           && Valid() && advances == advances' + 1
           && (done || |buf| < |before.buf|)
           && if done then Settles(frame, before, chunkStart, |fed|, Done(sink.data))
              else Agrees(frame, before, Configuration(), chunkStart, |fed|)
         case Wait =>
           && Valid() && advances == advances' && !done
           && Agrees(frame, before, Configuration(), chunkStart, |fed|)
           && Stalled(frame, Configuration())
         case Raise(error) =>
           Settles(frame, before, chunkStart, |fed|, Failed(error))
    }

    method SeekBoundary() returns (r: StepResult)
      requires Valid() && !done && state == InPreamble
      modifies this, sink
      ensures Stepped(r, old(Configuration()), old(fed), old(chunkStart), old(advances), old(peak))
    {
      hide Agrees, Settles, FlushSafe, Find, OccursAt, FindHeaderEnd;
      ghost var before := Configuration();
      SeekBoundaryKeeps(frame, before, chunkStart, |fed|);
      var index := Find(buf, frame.Marker());
      if index < 0 {
        Prune(|frame.Marker()| - 1);
        return Wait;
      }
      Consume(index + |frame.Marker()|, AtBoundaryEnd);
      r := Again;
    }

    method EndBoundary() returns (r: StepResult)
      requires Valid() && !done && state == AtBoundaryEnd
      modifies this, sink
      ensures Stepped(r, old(Configuration()), old(fed), old(chunkStart), old(advances), old(peak))
    {
      hide Agrees, Settles, FlushSafe;
      ghost var before := Configuration();
      if buf == [] {
        AgreesReflexive(frame, before, chunkStart, |fed|);
        return Wait;
      }
      var first := buf[0];
      if first == DASH {
        if |buf| < 2 {
          AgreesReflexive(frame, before, chunkStart, |fed|);
          return Wait;
        }
        EndBoundaryRefuses(frame, before, chunkStart, |fed|);
        if buf[1] == DASH {
          return Raise(MissingField);
        }
        return Raise(Malformed);
      }
      if first == CR {
        if |buf| < 2 {
          AgreesReflexive(frame, before, chunkStart, |fed|);
          return Wait;
        }
        if buf[1] != LF {
          EndBoundaryRefuses(frame, before, chunkStart, |fed|);
          return Raise(Malformed);
        }
        Consume(2, InHeaders);
      } else if first == LF {
        Consume(1, InHeaders);
      } else {
        EndBoundaryRefuses(frame, before, chunkStart, |fed|);
        return Raise(Malformed);
      }
      EndBoundaryKeeps(frame, before, chunkStart, |fed|);
      r := Again;
    }

    method ReadHeaders() returns (r: StepResult)
      requires Valid() && !done && state == InHeaders
      modifies this, sink
      ensures Stepped(r, old(Configuration()), old(fed), old(chunkStart), old(advances), old(peak))
    {
      hide Agrees, Settles, FindHeaderEnd, IsFile;
      ghost var before := Configuration();
      var e := FindHeaderEnd(buf);
      if e.Unterminated? {
        if |buf| > HEADER_CAP {
          ReadHeadersRefuses(frame, before, chunkStart, |fed|);
          return Raise(HeadersTooLarge);
        }
        AgreesReflexive(frame, before, chunkStart, |fed|);
        return Wait;
      }
      if e.start > HEADER_CAP {
        ReadHeadersRefuses(frame, before, chunkStart, |fed|);
        return Raise(HeadersTooLarge);
      }
      ReadHeadersKeeps(frame, before, chunkStart, |fed|);
      HeaderEndsLate(frame, buf, chunkStart - before.at);
      Consume(e.start + e.separator, if IsFile(buf[..e.start]) then InFile else InSkipped);
      r := Again;
    }

    method ReadFile() returns (r: StepResult)
      requires Valid() && !done && state == InFile
      modifies this, sink
      ensures Stepped(r, old(Configuration()), old(fed), old(chunkStart), old(advances), old(peak))
    {
      hide Agrees, Settles, FlushSafe, ContentEnd, CaughtUp, Stalled, Find, OccursAt;
      ghost var before := Configuration();
      var found := Find(buf, frame.Delimiter());
      if found >= 0 {
        ReadFileFinishes(frame, before, chunkStart, |fed|);
        r := CloseFile(ContentEnd(buf, found));
        return;
      }
      if |buf| > |frame.Delimiter()| {
        var cut := |buf| - |frame.Delimiter()|;
        ReadFileKeeps(frame, before, chunkStart, |fed|);
        FlushedStalls(frame, before, chunkStart - before.at);
        var flushed := Flush(cut);
        if !flushed {
          ReadFileOverflows(frame, before, chunkStart, |fed|);
          return Raise(Oversized);
        }
        return Wait;
      }
      AgreesReflexive(frame, before, chunkStart, |fed|);
      ShortFileStalls(frame, before);
      r := Wait;
    }

    /** The file ends `end` bytes into the buffer: the content is complete, unless it is too long or empty. */
    method CloseFile(end: nat) returns (r: StepResult)
      requires Valid() && !done && state == InFile && end <= |buf|
      requires Settles(frame, Configuration(), chunkStart, |fed|,
                       if |sink.data| + end > frame.maxBytes then Failed(Oversized)
                       else if |sink.data| + end == 0 then Failed(EmptyFile)
                       else Done(sink.data + buf[..end]))
      modifies this, sink
      ensures Stepped(r, old(Configuration()), old(fed), old(chunkStart), old(advances), old(peak))
    {
      hide Agrees, Settles, FlushSafe, CaughtUp;
      var appended := Append(buf[..end]);
      if !appended {
        return Raise(Oversized);
      }
      if sink.data == [] {
        return Raise(EmptyFile);
      }
      done := true;
      advances := advances + 1;
      r := Again;
    }

    method SkipOverPart() returns (r: StepResult)
      requires Valid() && !done && state == InSkipped
      modifies this, sink
      ensures Stepped(r, old(Configuration()), old(fed), old(chunkStart), old(advances), old(peak))
    {
      hide Agrees, Settles, FlushSafe, Find, OccursAt, CaughtUp, Stalled;
      ghost var before := Configuration();
      ghost var lag := chunkStart - before.at;
      var found := Find(buf, frame.Delimiter());
      if found < 0 {
        PrunedSkipKeeps(frame, before, chunkStart, |fed|, lag);
        Prune(|frame.Delimiter()|);
        return Wait;
      }
      SkippedKeeps(frame, before, chunkStart, |fed|, lag);
      Consume(found + |frame.Delimiter()|, AtBoundaryEnd);
      r := Again;
    }

    /** Move file bytes to the sink unless that would pass the limit. */
    method Append(data: Bytes) returns (ok: bool)
      modifies sink
      ensures ok == (|old(sink.data)| + |data| <= frame.maxBytes)
      ensures sink.data == if ok then old(sink.data) + data else old(sink.data)
    {
      ok := |sink.data| + |data| <= frame.maxBytes;
      if ok {
        sink.data := sink.data + data;
      }
    }

    /** Move the first `n` bytes of the buffer to the sink unless that would pass the limit. */
    method Flush(n: nat) returns (ok: bool)
      requires Valid() && !done && state == InFile && n <= |buf|
      requires FlushSafe(frame, sink.data + buf[..n], buf[n..])
      requires CaughtUp(frame, InFile, buf[n..], chunkStart - (|fed| - |buf|) - n)
      modifies this`buf, sink
      ensures ok == (|old(sink.data)| + n <= frame.maxBytes)
      ensures Valid() && Configuration() == if ok then Flushed(old(Configuration()), n) else old(Configuration())
    {
      hide FlushSafe, CaughtUp;
      BytesMoved(sink.data, buf, n);
      SuffixDrop(fed, |fed| - |buf|, n);
      ok := Append(buf[..n]);
      if ok {
        buf := buf[n..];
      }
    }

    /** Delete the first `n` bytes of the buffer and go on in state `next`. */
    method Consume(n: nat, next: State)
      requires Valid() && !done && sink.data == [] && 0 < n <= |buf|
      requires CaughtUp(frame, next, buf[n..], chunkStart - (|fed| - |buf|) - n)
      modifies this`buf, this`state, this`contentStart, this`advances
      ensures Valid() && Configuration() == Consumed(old(Configuration()), n, next)
      ensures advances == old(advances) + 1
    {
      hide CaughtUp, FlushSafe;
      SuffixDrop(fed, |fed| - |buf|, n);
      EmptySinkIsSafe(frame, buf[n..]);
      buf := buf[n..];
      state := next;
      contentStart := |fed| - |buf|;
      advances := advances + 1;
      assert sink.data + buf == buf;
    }

    /** Keep only the last `keep` bytes of the buffer. */
    method Prune(keep: nat)
      requires Valid() && !done && state != InFile
      requires var c := Pruned(Configuration(), keep); CaughtUp(frame, state, c.buf, chunkStart - c.at)
      modifies this`buf
      ensures buf == if |old(buf)| > keep then old(buf)[|old(buf)| - keep..] else old(buf)
      ensures Valid() && Configuration() == Pruned(old(Configuration()), keep)
    {
      hide CaughtUp, FlushSafe;
      if |buf| > keep {
        SuffixDrop(fed, |fed| - |buf|, |buf| - keep);
        buf := buf[|buf| - keep..];
      }
    }

    /** Append a chunk to the buffer. */
    method Receive(chunk: Bytes)
      requires Valid() && !done && chunkStart == |fed|
      modifies this`buf, this`fed, this`peak
      ensures Valid() && fed == old(fed) + chunk && Configuration() == Fed(old(Configuration()), chunk)
      ensures peak == |buf| <= Max(|frame.Marker()| + 1, HEADER_CAP) + |chunk|
    {
      hide CaughtUp, FlushSafe;
      CaughtUpIsShort(frame, state, buf);
      FedIsCaughtUp(frame, Configuration(), chunk);
      ghost var k := |fed| - |buf|;
      SuffixAppend(fed, k, chunk);
      if state == InFile {
        FlushStaysSafe(frame, sink.data, buf, chunk);
        SuffixAppend(fed, contentStart, chunk);
        ConcatAssociates(sink.data, buf, chunk);
      }
      buf := buf + chunk;
      fed := fed + chunk;
      peak := |buf|;
      assert |fed| - |buf| == k && buf == fed[k..];
    }

    /** Everything fed so far counts as read. */
    ghost method EndChunk()
      requires Valid() && (done || Stalled(frame, Configuration()))
      modifies this`chunkStart
      ensures Valid() && chunkStart == |fed| && Configuration() == old(Configuration())
      ensures done || |buf| <= Max(|frame.Marker()| + 1, HEADER_CAP)
    {
      hide Stalled, FlushSafe, CaughtUp;
      if !done {
        StalledIsCaughtUp(frame, Configuration());
      }
      chunkStart := |fed|;
    }

    /**
     Parse as far as the bytes fed by now allow. What they mean together with
     whatever follows stays the same until an outcome is settled; the buffer
     never holds more than it may keep between chunks and this chunk.
     */
    method Feed(chunk: Bytes) returns (error: Option<Error>)
      requires Valid() && !done && chunkStart == |fed|
      modifies this, sink
      ensures fed == old(fed) + chunk && |sink.data| <= frame.maxBytes && advances <= |fed| + 1
      ensures |buf| <= peak <= Max(|frame.Marker()| + 1, HEADER_CAP) + |chunk|
      ensures error.Some? ==>
                Settles(frame, Fed(old(Configuration()), chunk), old(|fed|), |fed|, Failed(error.value))
      ensures error.None? ==> Valid() && chunkStart == |fed|
      ensures error.None? && done ==>
                Settles(frame, Fed(old(Configuration()), chunk), old(|fed|), |fed|, Done(sink.data))
      ensures error.None? && !done ==>
                && Agrees(frame, Fed(old(Configuration()), chunk), Configuration(), old(|fed|), |fed|)
                && Stalled(frame, Configuration())
                && |buf| <= Max(|frame.Marker()| + 1, HEADER_CAP)
    {
      hide Agrees, Settles, Stalled, Valid;
      ghost var start := Fed(Configuration(), chunk);
      Receive(chunk);
      AgreesReflexive(frame, start, chunkStart, |fed|);
      var r := Again;
      while !done && r.Again?
        invariant fed == old(fed) + chunk && chunkStart == old(|fed|)
        invariant |sink.data| <= frame.maxBytes && advances <= |fed| + 1
        invariant |buf| <= peak <= Max(|frame.Marker()| + 1, HEADER_CAP) + |chunk|
        invariant match r
                  case Again =>
                    Valid() &&
                    if done then Settles(frame, start, chunkStart, |fed|, Done(sink.data))
                    else Agrees(frame, start, Configuration(), chunkStart, |fed|)
                  case Wait =>
                    && Valid() && !done && Stalled(frame, Configuration())
                    && Agrees(frame, start, Configuration(), chunkStart, |fed|)
                  case Raise(error) => Settles(frame, start, chunkStart, |fed|, Failed(error))
        decreases r.Again?, !done, |buf|
      {
        ghost var mid := Configuration();
        r := Step();
        if r.Raise? {
          AgreesThenSettles(frame, start, mid, chunkStart, |fed|, Failed(r.error));
        } else if done {
          AgreesThenSettles(frame, start, mid, chunkStart, |fed|, Done(sink.data));
        } else {
          AgreesTransitive(frame, start, mid, Configuration(), chunkStart, |fed|);
        }
      }
      if r.Raise? {
        return Some(r.error);
      }
      EndChunk();
      error := None;
    }

    /** The reader has been fed `chunks`: it is done and they decide so, or it waits and they decide nothing. */
    ghost predicate After(chunks: seq<Bytes>)
      reads this, sink
    {
      && Valid() && fed == Concat(chunks) && chunkStart == |fed|
      && if done then Decides(frame, chunks, Done(sink.data))
         else ReadsTo(frame, chunks, Configuration()) && Stalled(frame, Configuration())
    }

    /** Feed the chunk that follows `chunks`, unless it is empty. */
    method Deliver(chunk: Bytes, ghost chunks: seq<Bytes>) returns (error: Option<Error>)
      requires After(chunks) && !done
      modifies this, sink
      ensures fed == Concat(chunks + [chunk]) && |sink.data| <= frame.maxBytes && advances <= |fed| + 1
      ensures error.None? ==> After(chunks + [chunk])
      ensures error.Some? ==> Decides(frame, chunks + [chunk], Failed(error.value))
    {
      hide Verdict, Agrees, Settles, Stalled, ReadsTo, Decides, CaughtUp, FlushSafe;
      ghost var c := Configuration();
      ConcatNext(chunks, chunk);
      error := None;
      if chunk == [] {
        ReadsEmptyChunk(frame, chunks, c);
        return;
      }
      error := Feed(chunk);
      if error.None? && !done {
        ReadsChunk(frame, chunks, chunk, c, Configuration());
      } else {
        ChunkDecides(frame, chunks, chunk, c, if error.Some? then Failed(error.value) else Done(sink.data));
      }
    }
  }

  /**
   Extract the `file` part of the body that `chunks` deliver. Whatever the
   chunks are, the outcome is the meaning of the body so delivered; on success
   the sink holds the file. No more chunks are taken than decide the outcome,
   whatever would follow; a stream that decides none is taken whole.
   */
  method ReadMultipartFile(chunks: seq<Bytes>, boundary: Bytes, maxBytes: nat, sink: ByteArray?)
    returns (r: Outcome, target: ByteArray, taken: nat, ghost steps: nat)
    modifies sink
    ensures if sink == null then fresh(target) else target == sink
    ensures r == Meaning(Frame(boundary, maxBytes), chunks)
    ensures r.Done? ==> target.data == r.content
    ensures |target.data| <= maxBytes
    ensures taken <= |chunks|
    ensures Decides(Frame(boundary, maxBytes), chunks[..taken], r) || (taken == |chunks| && r == Failed(Malformed))
    ensures forall k: nat, o :: k < taken ==> !Decides(Frame(boundary, maxBytes), chunks[..k], o)
    ensures steps <= |Concat(chunks[..taken])| + 1
  {
    hide Meaning, Concat, ReadsTo, Decides, Stalled, Reader.Valid, Reader.Configuration;
    if sink == null {
      target := new ByteArray();
    } else {
      target := sink;
    }
    target.data := [];
    var reader := new Reader(boundary, maxBytes, target);
    ghost var f := Frame(boundary, maxBytes);
    StartsAfterNothing(reader);
    taken := 0;
    while taken < |chunks| && !reader.done
      invariant taken <= |chunks|
      invariant fresh(reader) && reader.sink == target && reader.frame == f
      invariant reader.After(chunks[..taken])
      invariant forall k: nat, o :: k < taken ==> !Decides(f, chunks[..k], o)
    {
      assert chunks[..taken + 1] == chunks[..taken] + [chunks[taken]];
      WaitsAfter(reader, chunks[..taken]);
      var error := reader.Deliver(chunks[taken], chunks[..taken]);
      taken := taken + 1;
      if error.Some? {
        r := Failed(error.value);
        DecidesAll(f, chunks, taken, r);
        steps := reader.advances;
        return;
      }
    }
    steps := reader.advances;
    AfterIsBounded(reader, chunks[..taken]);
    if reader.done {
      r := Done(target.data);
      DecidesAll(f, chunks, taken, r);
    } else {
      assert chunks[..taken] == chunks;
      StreamEnds(f, chunks, reader.Configuration());
      r := Failed(Malformed);
    }
  }

  lemma StartsAfterNothing(reader: Reader)
    requires reader.Valid() && !reader.done && reader.fed == [] && reader.chunkStart == 0
    requires reader.Configuration() == Conf(InPreamble, [], [], 0)
    ensures reader.After([])
  {
    ReadsNothing(reader.frame);
    StartIsStalled(reader.frame);
  }

  lemma WaitsAfter(reader: Reader, chunks: seq<Bytes>)
    requires reader.After(chunks) && !reader.done
    ensures forall o :: !Decides(reader.frame, chunks, o)
  {
    WaitsOnlyUndecided(reader.frame, chunks, reader.Configuration());
  }

  lemma AfterIsBounded(reader: Reader, chunks: seq<Bytes>)
    requires reader.After(chunks)
    ensures |reader.sink.data| <= reader.frame.maxBytes && reader.advances <= |Concat(chunks)| + 1
  {
  }
}
