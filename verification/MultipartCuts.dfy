/**
 How far the outcome of an upload depends on how its body was cut into chunks.
 The header cap is measured on what has arrived, so a block that ends past the
 cap by less than its blank line is let through whole and refused in pieces.
 */
module MultipartCuts {
  import opened ByteStrings
  import opened PartHeaders
  import opened MultipartSpec
  import opened MultipartResume
  import opened MultipartStream

  /** A header block that passes the cap leaves room for its blank line too. */
  predicate Roomy(e: HeaderEnd)
    requires e.EndsAt?
  {
    e.start > HEADER_CAP || e.start + e.separator <= HEADER_CAP + 1
  }

  /** Every header block the parse of `s` comes by is `Roomy`; one predicate per place of the parse. */
  predicate RoomyPart(f: Frame, s: Bytes)
    decreases |s|, 0
  {
    var e := FindHeaderEnd(s);
    e.EndsAt? ==>
      && Roomy(e)
      && (e.start <= HEADER_CAP && !IsFile(s[..e.start]) ==> RoomySkip(f, s[e.start + e.separator..]))
  }

  predicate RoomySkip(f: Frame, s: Bytes)
    decreases |s|, 0
  {
    var i := Find(s, f.Delimiter());
    i >= 0 ==> RoomyAfterMarker(f, s[i + |f.Delimiter()|..])
  }

  predicate RoomyAfterMarker(f: Frame, s: Bytes)
    decreases |s|, 1
  {
    LineBreak(s) > 0 ==> RoomyPart(f, s[LineBreak(s)..])
  }

  predicate RoomyHeaders(f: Frame, body: Bytes) {
    var i := Find(body, f.Marker());
    i >= 0 ==> RoomyAfterMarker(f, body[i + |f.Marker()|..])
  }

  /** The parse of `s` comes by a header block past the cap; again one predicate per place. */
  predicate OverfullPart(f: Frame, s: Bytes)
    decreases |s|, 0
  {
    match FindHeaderEnd(s)
    case Unterminated => |s| > HEADER_CAP
    case EndsAt(start, separator) =>
      start > HEADER_CAP || (!IsFile(s[..start]) && OverfullSkip(f, s[start + separator..]))
  }

  predicate OverfullSkip(f: Frame, s: Bytes)
    decreases |s|, 0
  {
    var i := Find(s, f.Delimiter());
    i >= 0 && OverfullAfterMarker(f, s[i + |f.Delimiter()|..])
  }

  predicate OverfullAfterMarker(f: Frame, s: Bytes)
    decreases |s|, 1
  {
    LineBreak(s) > 0 && OverfullPart(f, s[LineBreak(s)..])
  }

  /** A header block that the parse comes by ends past the cap, or is longer than the cap and does not end. */
  predicate OverfullHeaders(f: Frame, body: Bytes) {
    var i := Find(body, f.Marker());
    i >= 0 && OverfullAfterMarker(f, body[i + |f.Marker()|..])
  }

  lemma {:induction false} OverfullPartRefused(f: Frame, s: Bytes, at: nat)
    ensures Part(f, s, at, {}) == Failed(HeadersTooLarge) <==> OverfullPart(f, s)
    decreases |s|, 0
  {
    hide FileContent, IsFile, FindHeaderEnd;
    FileIsNoHeader(f, s);
    var e := FindHeaderEnd(s);
    if e.EndsAt? && e.start <= HEADER_CAP && !IsFile(s[..e.start]) {
      OverfullSkipRefused(f, s[e.start + e.separator..], at + e.start + e.separator);
    }
  }

  lemma FileIsNoHeader(f: Frame, s: Bytes)
    ensures forall k: nat :: k <= |s| ==> FileContent(f, s[k..]) != Failed(HeadersTooLarge)
  {
  }

  lemma {:induction false} OverfullSkipRefused(f: Frame, s: Bytes, at: nat)
    ensures SkipPart(f, s, at, {}) == Failed(HeadersTooLarge) <==> OverfullSkip(f, s)
    decreases |s|, 0
  {
    hide Find, OccursAt;
    var next := Find(s, f.Delimiter()) + |f.Delimiter()|;
    if Find(s, f.Delimiter()) >= 0 {
      OverfullAfterMarkerRefused(f, s[next..], at + next);
    }
  }

  lemma {:induction false} OverfullAfterMarkerRefused(f: Frame, s: Bytes, at: nat)
    ensures AfterMarker(f, s, at, {}) == Failed(HeadersTooLarge) <==> OverfullAfterMarker(f, s)
    decreases |s|, 1
  {
    hide Part, OverfullPart;
    var n := LineBreak(s);
    if n > 0 {
      OverfullPartRefused(f, s[n..], at + n);
    }
  }

  /** A whole body is refused for its headers exactly if it has an overfull block where the parse comes by. */
  lemma OverfullRefused(f: Frame, body: Bytes)
    ensures ParseWhole(f, body) == Failed(HeadersTooLarge) <==> OverfullHeaders(f, body)
  {
    hide Find, OccursAt, AfterMarker, OverfullAfterMarker;
    var next := Find(body, f.Marker()) + |f.Marker()|;
    if Find(body, f.Marker()) >= 0 {
      OverfullAfterMarkerRefused(f, body[next..], next);
    }
  }

  /** `o`, the outcome under `cuts`, against `whole`, the outcome of the bytes `at..end` in one piece. */
  ghost predicate CutEffect(o: Outcome, whole: Outcome, roomy: bool, cuts: set<nat>, at: nat, end: nat) {
    && (o == whole || o == Failed(HeadersTooLarge))
    && (roomy ==> o == whole)
    && ((forall p :: p in cuts ==> p <= at || end <= p) ==> o == whole)
    && (!roomy && (forall p :: at < p <= end ==> p in cuts) ==> o == Failed(HeadersTooLarge))
  }

  lemma {:induction false} PartCutEffect(f: Frame, s: Bytes, at: nat, cuts: set<nat>)
    ensures CutEffect(Part(f, s, at, cuts), Part(f, s, at, {}), RoomyPart(f, s), cuts, at, at + |s|)
    decreases |s|, 0
  {
    hide FileContent, IsFile, FindHeaderEnd, SkipPart, RoomySkip;
    var e := FindHeaderEnd(s);
    if e.EndsAt? {
      var next := e.start + e.separator;
      if !Roomy(e) && at + HEADER_CAP + 1 in cuts {
        assert CutWithin(cuts, at + HEADER_CAP + 1, at + next);
      }
      if e.start <= HEADER_CAP && !IsFile(s[..e.start]) {
        SkipCutEffect(f, s[next..], at + next, cuts);
      }
    }
  }

  lemma {:induction false} SkipCutEffect(f: Frame, s: Bytes, at: nat, cuts: set<nat>)
    ensures CutEffect(SkipPart(f, s, at, cuts), SkipPart(f, s, at, {}), RoomySkip(f, s), cuts, at, at + |s|)
    decreases |s|, 0
  {
    hide Find, OccursAt, AfterMarker, RoomyAfterMarker;
    var i := Find(s, f.Delimiter());
    if i >= 0 {
      var next := i + |f.Delimiter()|;
      AfterMarkerCutEffect(f, s[next..], at + next, cuts);
    }
  }

  lemma {:induction false} AfterMarkerCutEffect(f: Frame, s: Bytes, at: nat, cuts: set<nat>)
    ensures CutEffect(AfterMarker(f, s, at, cuts), AfterMarker(f, s, at, {}), RoomyAfterMarker(f, s),
                      cuts, at, at + |s|)
    decreases |s|, 1
  {
    hide Part, RoomyPart;
    var n := LineBreak(s);
    if n > 0 {
      PartCutEffect(f, s[n..], at + n, cuts);
    }
  }

  lemma ParseCutEffect(f: Frame, body: Bytes, cuts: set<nat>)
    ensures CutEffect(Parse(f, body, cuts), ParseWhole(f, body), RoomyHeaders(f, body), cuts, 0, |body|)
  {
    hide Find, OccursAt, AfterMarker, RoomyAfterMarker;
    var i := Find(body, f.Marker());
    if i >= 0 {
      var next := i + |f.Marker()|;
      AfterMarkerCutEffect(f, body[next..], next, cuts);
    }
  }

  /** One byte a chunk. */
  function Singles(body: Bytes): seq<Bytes> {
    if body == [] then [] else [[body[0]]] + Singles(body[1..])
  }

  lemma {:induction false} SinglesAreTheBody(body: Bytes)
    ensures Concat(Singles(body)) == body
  {
    if body != [] {
      SinglesAreTheBody(body[1..]);
      SinglesTail(body);
      assert [body[0]] + body[1..] == body;
    }
  }

  lemma SinglesTail(body: Bytes)
    requires body != []
    ensures Singles(body) != [] && Singles(body)[0] == [body[0]] && Singles(body)[1..] == Singles(body[1..])
  {
    hide Concat;
  }

  lemma {:induction false} SinglesCutEverywhere(at: nat, body: Bytes)
    ensures forall p :: at < p <= at + |body| ==> p in CutsFrom(at, Singles(body))
    decreases |body|
  {
    if body != [] {
      SinglesTail(body);
      SinglesCutEverywhere(at + 1, body[1..]);
    }
  }

  /** A body in one chunk has its whole-body meaning. */
  lemma OneChunk(f: Frame, body: Bytes)
    ensures Concat([body]) == body
    ensures Meaning(f, [body]) == ParseWhole(f, body)
  {
    hide Parse;
    assert [body][1..] == [];
    assert CutsFrom(|body|, []) == {};
    assert Concat([body]) == body + [] == body;
    assert Cuts([body]) == {|body|};
    ParseCutEffect(f, body, {|body|});
  }

  /** Cutting a body into chunks can only turn its outcome into a refusal of its headers. */
  lemma CutsOnlyRefuse(f: Frame, chunks: seq<Bytes>)
    ensures Meaning(f, chunks) == ParseWhole(f, Concat(chunks)) || Meaning(f, chunks) == Failed(HeadersTooLarge)
    ensures RoomyHeaders(f, Concat(chunks)) ==> Meaning(f, chunks) == ParseWhole(f, Concat(chunks))
  {
    ParseCutEffect(f, Concat(chunks), Cuts(chunks));
  }

  /**
   Every way of cutting a body gives the outcome of the whole body, exactly when
   every header block the parse comes by is roomy, or one of them is overfull.
   */
  lemma ChunkIndependence(f: Frame, body: Bytes)
    ensures (forall chunks :: Concat(chunks) == body ==> Meaning(f, chunks) == ParseWhole(f, body))
            <==> RoomyHeaders(f, body) || OverfullHeaders(f, body)
  {
    OverfullRefused(f, body);
    hide Parse, RoomyHeaders, OverfullHeaders;
    forall chunks | Concat(chunks) == body
      ensures RoomyHeaders(f, body) || OverfullHeaders(f, body) ==>
                Meaning(f, chunks) == ParseWhole(f, body)
    {
      CutsOnlyRefuse(f, chunks);
    }
    SinglesAreTheBody(body);
    SinglesCutEverywhere(0, body);
    ParseCutEffect(f, body, Cuts(Singles(body)));
    if !RoomyHeaders(f, body) {
      assert Meaning(f, Singles(body)) == Failed(HeadersTooLarge);
    }
  }
}
