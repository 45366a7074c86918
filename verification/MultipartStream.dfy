/** What a stream of chunks means once some of them have been read. */
module MultipartStream {
  import opened ByteStrings
  import opened MultipartSpec
  import opened MultipartResume

  /** The meaning of the body that `chunks` deliver. */
  ghost function Meaning(f: Frame, chunks: seq<Bytes>): Outcome {
    Parse(f, Concat(chunks), Cuts(chunks))
  }

  /** Having read `chunks` the parser is at `c`, whatever chunks follow. */
  ghost predicate ReadsTo(f: Frame, chunks: seq<Bytes>, c: Conf) {
    forall rest {:trigger Meaning(f, chunks + rest)} ::
      Meaning(f, chunks + rest) == Verdict(f, c, Concat(rest), Cuts(chunks + rest))
  }

  /** Having read `chunks` the outcome is `o`, whatever chunks follow. */
  ghost predicate Decides(f: Frame, chunks: seq<Bytes>, o: Outcome) {
    forall rest :: Meaning(f, chunks + rest) == o
  }

  lemma {:induction false} ConcatAppend(a: seq<Bytes>, b: seq<Bytes>)
    ensures Concat(a + b) == Concat(a) + Concat(b)
  {
    if a == [] {
      assert a + b == b;
    } else {
      assert (a + b)[1..] == a[1..] + b;
      ConcatAppend(a[1..], b);
    }
  }

  lemma {:induction false} CutsAtLeast(at: nat, chunks: seq<Bytes>)
    ensures forall p :: p in CutsFrom(at, chunks) ==> at <= p <= at + |Concat(chunks)|
    decreases |chunks|
  {
    if chunks != [] {
      CutsAtLeast(at + |chunks[0]|, chunks[1..]);
    }
  }

  /** Reading `chunk` after `a`, the parser stands at a cut and skipped none. */
  lemma {:induction false} CutsAround(at: nat, a: seq<Bytes>, chunk: Bytes, rest: seq<Bytes>)
    ensures var before := at + |Concat(a)|;
            LastChunk(CutsFrom(at, a + [chunk] + rest), before, before + |chunk|)
    decreases |a|
  {
    var all := a + [chunk] + rest;
    if a == [] {
      assert all[0] == chunk && all[1..] == rest;
      CutsAtLeast(at + |chunk|, rest);
    } else {
      assert all[0] == a[0] && all[1..] == a[1..] + [chunk] + rest;
      CutsAround(at + |a[0]|, a[1..], chunk, rest);
    }
  }

  lemma ReadsNothing(f: Frame)
    ensures ReadsTo(f, [], Conf(InPreamble, [], [], 0))
  {
    hide Preamble, Concat, CutsFrom;
    forall rest: seq<Bytes>
      ensures Meaning(f, [] + rest) == Verdict(f, Conf(InPreamble, [], [], 0), Concat(rest), Cuts([] + rest))
    {
      assert [] + rest == rest;
      var empty: Bytes := [];
      assert empty + Concat(rest) == Concat(rest);
    }
  }

  lemma StartIsStalled(f: Frame)
    ensures Stalled(f, Conf(InPreamble, [], [], 0))
  {
  }

  /** An empty chunk moves nothing. */
  lemma ReadsEmptyChunk(f: Frame, chunks: seq<Bytes>, c: Conf)
    requires ReadsTo(f, chunks, c)
    ensures ReadsTo(f, chunks + [[]], c)
  {
    hide Verdict, Meaning;
    forall rest ensures Meaning(f, chunks + [[]] + rest) == Verdict(f, c, Concat(rest), Cuts(chunks + [[]] + rest)) {
      assert chunks + [[]] + rest == chunks + ([[]] + rest);
      assert ([[]] + rest)[1..] == rest;
      assert Concat([[]] + rest) == [] + Concat(rest) == Concat(rest);
    }
  }

  lemma MeaningOfNext(f: Frame, chunks: seq<Bytes>, chunk: Bytes, c: Conf, rest: seq<Bytes>)
    requires ReadsTo(f, chunks, c)
    ensures Meaning(f, chunks + [chunk] + rest) ==
            Verdict(f, Fed(c, chunk), Concat(rest), Cuts(chunks + [chunk] + rest))
  {
    hide Verdict, Meaning;
    assert chunks + [chunk] + rest == chunks + ([chunk] + rest);
    assert ([chunk] + rest)[1..] == rest;
    assert Concat([chunk] + rest) == chunk + Concat(rest);
    FedVerdict(f, c, chunk, Concat(rest), Cuts(chunks + [chunk] + rest));
  }

  lemma ReadsChunk(f: Frame, chunks: seq<Bytes>, chunk: Bytes, c: Conf, c': Conf)
    requires ReadsTo(f, chunks, c)
    requires Agrees(f, Fed(c, chunk), c', |Concat(chunks)|, |Concat(chunks)| + |chunk|)
    ensures ReadsTo(f, chunks + [chunk], c')
  {
    hide Verdict, Meaning, LastChunk, Concat, CutsFrom;
    forall rest
      ensures Meaning(f, chunks + [chunk] + rest) == Verdict(f, c', Concat(rest), Cuts(chunks + [chunk] + rest))
    {
      MeaningOfNext(f, chunks, chunk, c, rest);
      CutsAround(0, chunks, chunk, rest);
    }
  }

  lemma ChunkDecides(f: Frame, chunks: seq<Bytes>, chunk: Bytes, c: Conf, o: Outcome)
    requires ReadsTo(f, chunks, c)
    requires Settles(f, Fed(c, chunk), |Concat(chunks)|, |Concat(chunks)| + |chunk|, o)
    ensures Decides(f, chunks + [chunk], o)
  {
    hide Verdict, Meaning, LastChunk, Concat, CutsFrom;
    forall rest ensures Meaning(f, chunks + [chunk] + rest) == o {
      MeaningOfNext(f, chunks, chunk, c, rest);
      CutsAround(0, chunks, chunk, rest);
    }
  }

  /** A stream that ends where the parser waits for more is malformed. */
  lemma StreamEnds(f: Frame, chunks: seq<Bytes>, c: Conf)
    requires ReadsTo(f, chunks, c) && Stalled(f, c)
    ensures Meaning(f, chunks) == Failed(Malformed)
  {
    assert chunks + [] == chunks;
    StalledEndIsMalformed(f, c, Cuts(chunks));
  }

  lemma ConcatNext(chunks: seq<Bytes>, chunk: Bytes)
    ensures Concat(chunks + [chunk]) == Concat(chunks) + chunk
  {
    ConcatAppend(chunks, [chunk]);
    assert Concat([chunk]) == chunk + [];
  }

  /** What the first chunks decide is the meaning of all of them. */
  lemma DecidesAll(f: Frame, chunks: seq<Bytes>, i: nat, o: Outcome)
    requires i <= |chunks| && Decides(f, chunks[..i], o)
    ensures Meaning(f, chunks) == o
  {
    assert chunks == chunks[..i] + chunks[i..];
  }
}
