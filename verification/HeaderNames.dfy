/**
 The header scanners read back what clients write: the `boundary` parameter of
 a `Content-Type` and, following section 4.2 of RFC 7578, the `name` parameter
 of a part's `Content-Disposition`.
 */
module HeaderNames {
  import opened ByteStrings
  import opened Options
  import opened PartHeaders
  import opened Stripping

  lemma SplitAtFirst(a: Bytes, sep: Byte, b: Bytes)
    requires sep !in a
    ensures Split(a + [sep] + b, sep) == [a] + Split(b, sep)
    ensures Partition(a + [sep] + b, sep) == (a, true, b)
  {
    var s := a + [sep] + b;
    assert OccursAt(s, [sep], |a|);
    assert forall i :: 0 <= i < |a| ==> s[i] in a;
    forall i: nat | OccursAt(s, [sep], i) ensures i >= |a| {
      OccurrenceByte(s, [sep], i, 0);
    }
    FindIs(s, [sep], |a|);
    assert s[..|a|] == a && s[|a| + 1..] == b;
  }

  lemma SplitWithout(a: Bytes, sep: Byte)
    requires sep !in a
    ensures Split(a, sep) == [a]
    ensures Partition(a, sep) == (a, false, [])
  {
    if Find(a, [sep]) >= 0 {
      OccurrenceByte(a, [sep], Find(a, [sep]), 0);
    }
  }

  // Parameters as they may be written.

  /** A parameter: bare text, or a key and a value with blanks anywhere around them. */
  datatype Param =
    | Bare(text: Bytes)
    | Pair(lead: Bytes, key: Bytes, gap: Bytes, gap': Bytes, value: Bytes, trail: Bytes)

  function PrintParam(p: Param): Bytes {
    match p
    case Bare(text) => text
    case Pair(lead, key, gap, gap', value, trail) => (lead + key + gap) + [EQUALS] + (gap' + value + trail)
  }

  /** Parameters separated by semicolons. */
  function PrintParams(params: seq<Param>): Bytes {
    if params == [] then []
    else if |params| == 1 then PrintParam(params[0])
    else PrintParam(params[0]) + [SEMICOLON] + PrintParams(params[1..])
  }

  predicate ProperParam(p: Param, spaces: set<Byte>) {
    && SEMICOLON !in PrintParam(p)
    && match p
       case Bare(text) => EQUALS !in text
       case Pair(lead, key, gap, gap', value, trail) =>
         && Blank(lead, spaces) && Blank(gap, spaces) && Blank(gap', spaces) && Blank(trail, spaces)
         && Trimmed(key, spaces) && Trimmed(value, spaces) && EQUALS !in key
  }

  predicate ProperParams(params: seq<Param>, spaces: set<Byte>) {
    params != [] && forall i :: 0 <= i < |params| ==> ProperParam(params[i], spaces)
  }

  /** The same byte, or the same ASCII letter in the other case. */
  predicate SameLetter(a: Byte, b: Byte) {
    || a == b
    || (65 <= a <= 90 && b as int == a as int + 32)
    || (65 <= b <= 90 && a as int == b as int + 32)
  }

  predicate SameButCase(a: Bytes, b: Bytes) {
    |a| == |b| && forall i :: 0 <= i < |a| ==> SameLetter(a[i], b[i])
  }

  /** Lower-casing forgets the letter case, and nothing else. */
  lemma LowerForgetsCase(a: Bytes, b: Bytes)
    ensures Lower(a) == Lower(b) <==> SameButCase(a, b)
  {
    if Lower(a) == Lower(b) {
      forall i | 0 <= i < |a| ensures SameLetter(a[i], b[i]) {
        assert Lower(a)[i] == Lower(b)[i];
      }
    }
  }

  /** The parameter has the key, in any letter case. */
  predicate HasKey(p: Param, key: Bytes) {
    p.Pair? && SameButCase(p.key, key)
  }

  lemma KeysAreLower()
    ensures Lower(NAME_KEY) == NAME_KEY && Lower(BOUNDARY_KEY) == BOUNDARY_KEY
    ensures Lower(DISPOSITION_KEY) == DISPOSITION_KEY
  {
  }

  function Unquoted(value: Bytes): Bytes {
    Strip(value, {QUOTE})
  }

  function Quoted(value: Bytes): Bytes {
    [QUOTE] + value + [QUOTE]
  }

  lemma QuotesRemoved(value: Bytes)
    requires Trimmed(value, {QUOTE})
    ensures Unquoted(Quoted(value)) == value
  {
    StripBlanks([QUOTE], value, [QUOTE], {QUOTE});
  }

  /** The scanner reads a parameter as it was written. */
  lemma ParamReadBack(p: Param, key: Bytes, spaces: set<Byte>)
    requires ProperParam(p, spaces) && EQUALS !in spaces && Lower(key) == key
    ensures Parameter(PrintParam(p), key, spaces) == if HasKey(p, key) then Some(Unquoted(p.value)) else None
  {
    hide LStrip, RStrip, Strip, Partition, Lower, SameButCase;
    match p
    case Bare(text) =>
      StripKeepsOut(text, spaces, EQUALS);
      SplitWithout(Strip(text, spaces), EQUALS);
    case Pair(lead, k, gap, gap', value, trail) =>
      var left, right := lead + k + gap, gap' + value + trail;
      BlankHasNone(lead, spaces);
      BlankHasNone(gap, spaces);
      StripAround(left, EQUALS, right, spaces);
      LStripKeepsOut(left, spaces, EQUALS);
      SplitAtFirst(LStrip(left, spaces), EQUALS, RStrip(right, spaces));
      StripBlanks(lead, k, gap, spaces);
      StripBlanks(gap', value, trail, spaces);
      LowerForgetsCase(k, key);
  }

  lemma BlankHasNone(s: Bytes, spaces: set<Byte>)
    requires Blank(s, spaces)
    ensures forall c :: c !in spaces ==> c !in s
  {
  }

  /** A text is cut at the first place a byte stands, or the byte is not in it. */
  lemma {:induction false} CutAtByte(text: Bytes, c: Byte) returns (i: nat)
    ensures i <= |text| && c !in text[..i]
    ensures i < |text| ==> text[i] == c
  {
    i := 0;
    if text != [] && text[0] != c {
      var j := CutAtByte(text[1..], c);
      i := j + 1;
      assert text[..i] == [text[0]] + text[1..][..j];
    }
  }

  /** A side of a parameter as blanks, a trimmed core and blanks. */
  datatype Side = Side(lead: Bytes, core: Bytes, trail: Bytes)

  predicate IsSide(s: Side, text: Bytes, spaces: set<Byte>) {
    && s.lead + s.core + s.trail == text
    && Blank(s.lead, spaces) && Trimmed(s.core, spaces) && Blank(s.trail, spaces)
  }

  lemma AnySide(text: Bytes, spaces: set<Byte>) returns (s: Side)
    ensures IsSide(s, text, spaces)
  {
    var i, j := StripCuts(text, spaces);
    s := Side(text[..i], text[i..j], text[j..]);
  }

  lemma CoreHasNone(s: Side, text: Bytes, spaces: set<Byte>, c: Byte)
    requires IsSide(s, text, spaces) && c !in text
    ensures c !in s.core
  {
    assert forall i :: 0 <= i < |s.core| ==> text[|s.lead| + i] == s.core[i];
  }

  lemma PairOfSides(left: Side, right: Side, text: Bytes, i: nat, spaces: set<Byte>)
    requires i < |text| && text[i] == EQUALS
    requires IsSide(left, text[..i], spaces) && IsSide(right, text[i + 1..], spaces)
    requires SEMICOLON !in text && EQUALS !in left.core
    ensures var p := Pair(left.lead, left.core, left.trail, right.lead, right.core, right.trail);
            PrintParam(p) == text && ProperParam(p, spaces)
  {
    hide Blank, Trimmed;
    assert text == text[..i] + [EQUALS] + text[i + 1..];
  }

  /** Every parameter is written in one of these ways. */
  lemma AnyParam(text: Bytes, spaces: set<Byte>) returns (p: Param)
    requires SEMICOLON !in text
    ensures PrintParam(p) == text && ProperParam(p, spaces)
  {
    hide IsSide;
    var i := CutAtByte(text, EQUALS);
    if i == |text| {
      assert text[..i] == text;
      return Bare(text);
    }
    var left := AnySide(text[..i], spaces);
    var right := AnySide(text[i + 1..], spaces);
    hide PrintParam, ProperParam;
    CoreHasNone(left, text[..i], spaces, EQUALS);
    PairOfSides(left, right, text, i, spaces);
    p := Pair(left.lead, left.core, left.trail, right.lead, right.core, right.trail);
  }

  /** So is every list of parameters: what is said of printed lists is said of all. */
  lemma {:induction false} AnyParams(text: Bytes, spaces: set<Byte>) returns (params: seq<Param>)
    ensures PrintParams(params) == text && ProperParams(params, spaces)
    decreases |text|
  {
    hide PrintParam, ProperParam;
    var i := CutAtByte(text, SEMICOLON);
    var p := AnyParam(text[..i], spaces);
    if i == |text| {
      assert text[..i] == text;
      params := [p];
    } else {
      var rest := AnyParams(text[i + 1..], spaces);
      params := [p] + rest;
      assert params[1..] == rest;
      assert text == text[..i] + [SEMICOLON] + text[i + 1..];
    }
  }

  function Texts(params: seq<Param>): (texts: seq<Bytes>)
    ensures |texts| == |params|
  {
    seq(|params|, i requires 0 <= i < |params| => PrintParam(params[i]))
  }

  lemma {:induction false} ParamsSplit(params: seq<Param>, spaces: set<Byte>)
    requires ProperParams(params, spaces)
    ensures Split(PrintParams(params), SEMICOLON) == Texts(params)
  {
    hide Split, PrintParam;
    if |params| == 1 {
      SplitWithout(PrintParam(params[0]), SEMICOLON);
    } else {
      assert ProperParam(params[0], spaces);
      SplitAtFirst(PrintParam(params[0]), SEMICOLON, PrintParams(params[1..]));
      ParamsSplit(params[1..], spaces);
    }
  }

  /** The value of the first parameter with the key. */
  function FirstValue(params: seq<Param>, key: Bytes): Option<Bytes> {
    if params == [] then None
    else if HasKey(params[0], key) then Some(Unquoted(params[0].value))
    else FirstValue(params[1..], key)
  }

  /** The first value with the key that is not empty. */
  function FirstFilled(params: seq<Param>, key: Bytes): Option<Bytes> {
    if params == [] then None
    else if HasKey(params[0], key) && Unquoted(params[0].value) != [] then Some(Unquoted(params[0].value))
    else FirstFilled(params[1..], key)
  }

  lemma {:induction false} BoundaryOfTexts(params: seq<Param>)
    requires forall i :: 0 <= i < |params| ==> ProperParam(params[i], TEXT_SPACES)
    ensures FirstBoundary(Texts(params)) == FirstFilled(params, BOUNDARY_KEY)
  {
    if params != [] {
      KeysAreLower();
      ParamReadBack(params[0], BOUNDARY_KEY, TEXT_SPACES);
      BoundaryOfTexts(params[1..]);
      hide Parameter, PrintParam, Lower, SameButCase;
      assert Texts(params)[1..] == Texts(params[1..]);
    }
  }

  lemma {:induction false} NameOfTexts(params: seq<Param>)
    requires forall i :: 0 <= i < |params| ==> ProperParam(params[i], BYTE_SPACES)
    ensures FirstName(Texts(params)) == FirstValue(params, NAME_KEY)
  {
    if params != [] {
      KeysAreLower();
      ParamReadBack(params[0], NAME_KEY, BYTE_SPACES);
      NameOfTexts(params[1..]);
      hide Parameter, PrintParam, Lower, SameButCase;
      assert Texts(params)[1..] == Texts(params[1..]);
    }
  }

  /**
   A `Content-Type` yields the boundary it declares: of its parameters, in
   whatever order, letter case, blanks and quotes, the first `boundary` that is
   not empty; without one it yields none.
   */
  lemma BoundaryReadBack(mediaType: Bytes, params: seq<Param>)
    requires SEMICOLON !in mediaType && ProperParams(params, TEXT_SPACES)
    ensures BoundaryFromContentType(mediaType + [SEMICOLON] + PrintParams(params)) == FirstFilled(params, BOUNDARY_KEY)
    ensures BoundaryFromContentType(mediaType) == None
  {
    NoParamsNoBoundary(mediaType);
    hide Split, Partition, FirstBoundary, PrintParams;
    SplitAtFirst(mediaType, SEMICOLON, PrintParams(params));
    ParamsSplit(params, TEXT_SPACES);
    BoundaryOfTexts(params);
  }

  lemma NoParamsNoBoundary(mediaType: Bytes)
    requires SEMICOLON !in mediaType
    ensures BoundaryFromContentType(mediaType) == None
  {
    SplitWithout(mediaType, SEMICOLON);
    SplitWithout([], SEMICOLON);
    SplitWithout([], EQUALS);
    var none: seq<Bytes> := [[]];
    assert none[1..] == [];
  }

  /** The value of a header line yields the `name` of its parameters, the first one if there are several. */
  lemma NameParamReadBack(params: seq<Param>)
    requires ProperParams(params, BYTE_SPACES)
    ensures FirstName(Split(PrintParams(params), SEMICOLON)) == FirstValue(params, NAME_KEY)
  {
    ParamsSplit(params, BYTE_SPACES);
    NameOfTexts(params);
  }

  /**
   A header line yields the field name that its parameters declare, if its key
   says content-disposition in any letter case, and none otherwise. Blanks may
   stand around the key and at the end of the line.
   */
  lemma DispositionReadBack(lead: Bytes, key: Bytes, gap: Bytes, params: seq<Param>, trail: Bytes)
    requires Blank(lead, BYTE_SPACES) && Blank(gap, BYTE_SPACES) && Blank(trail, BYTE_SPACES)
    requires Trimmed(key, BYTE_SPACES) && COLON !in key && ProperParams(params, BYTE_SPACES)
    requires var value := PrintParams(params); value != [] ==> value[|value| - 1] !in BYTE_SPACES
    ensures NameInLine((lead + key + gap) + [COLON] + (PrintParams(params) + trail)) ==
            if SameButCase(key, DISPOSITION_KEY) then FirstValue(params, NAME_KEY) else None
  {
    KeysAreLower();
    LowerForgetsCase(key, DISPOSITION_KEY);
    hide LStrip, RStrip, Strip, Partition, FirstName, Split, PrintParams, Lower, SameButCase;
    var left, value := lead + key + gap, PrintParams(params);
    BlankHasNone(lead, BYTE_SPACES);
    BlankHasNone(gap, BYTE_SPACES);
    StripAround(left, COLON, value + trail, BYTE_SPACES);
    RStripTrail(value, trail, BYTE_SPACES);
    LStripKeepsOut(left, BYTE_SPACES, COLON);
    SplitAtFirst(LStrip(left, BYTE_SPACES), COLON, value);
    StripBlanks(lead, key, gap, BYTE_SPACES);
    NameParamReadBack(params);
  }

  // Which of several parameters and lines is taken.

  /** Parameter `i` is the first that declares a non-empty boundary, and declares `value`. */
  predicate DeclaresBoundaryAt(params: seq<Bytes>, i: nat, value: Bytes) {
    && i < |params| && Parameter(params[i], BOUNDARY_KEY, TEXT_SPACES) == Some(value) && value != []
    && forall j :: 0 <= j < i ==> Parameter(params[j], BOUNDARY_KEY, TEXT_SPACES) in {None, Some([])}
  }

  lemma {:induction false} FirstBoundaryIsFirst(params: seq<Bytes>, value: Bytes)
    ensures FirstBoundary(params) == Some(value) <==> exists i: nat :: DeclaresBoundaryAt(params, i, value)
  {
    if params != [] {
      FirstBoundaryIsFirst(params[1..], value);
      var head := Parameter(params[0], BOUNDARY_KEY, TEXT_SPACES);
      hide Parameter;
      if head in {None, Some([])} {
        if i: nat :| DeclaresBoundaryAt(params[1..], i, value) {
          assert DeclaresBoundaryAt(params, i + 1, value);
        }
        if i: nat :| DeclaresBoundaryAt(params, i, value) {
          assert DeclaresBoundaryAt(params[1..], i - 1, value);
        }
      } else if head == Some(value) {
        assert DeclaresBoundaryAt(params, 0, value);
      }
    }
  }

  /** Line `i` is the first that declares a name, and declares `value`. */
  predicate NamesAt(lines: seq<Bytes>, i: nat, value: Bytes) {
    && i < |lines| && NameInLine(lines[i]) == Some(value)
    && forall j :: 0 <= j < i ==> NameInLine(lines[j]) == None
  }

  lemma {:induction false} FirstNameIsFirst(lines: seq<Bytes>, value: Bytes)
    ensures NameInLines(lines) == Some(value) <==> exists i: nat :: NamesAt(lines, i, value)
  {
    if lines != [] {
      FirstNameIsFirst(lines[1..], value);
      var head := NameInLine(lines[0]);
      hide NameInLine;
      if head.None? {
        if i: nat :| NamesAt(lines[1..], i, value) {
          assert NamesAt(lines, i + 1, value);
        }
        if i: nat :| NamesAt(lines, i, value) {
          assert NamesAt(lines[1..], i - 1, value);
        }
      } else if head == Some(value) {
        assert NamesAt(lines, 0, value);
      }
    }
  }

  /** Parameter `i` is the first `name` parameter, and says `value`. */
  predicate NameParamAt(params: seq<Bytes>, i: nat, value: Bytes) {
    && i < |params| && Parameter(params[i], NAME_KEY, BYTE_SPACES) == Some(value)
    && forall j :: 0 <= j < i ==> Parameter(params[j], NAME_KEY, BYTE_SPACES) == None
  }

  lemma {:induction false} FirstNameParamIsFirst(params: seq<Bytes>, value: Bytes)
    ensures FirstName(params) == Some(value) <==> exists i: nat :: NameParamAt(params, i, value)
  {
    if params != [] {
      FirstNameParamIsFirst(params[1..], value);
      var head := Parameter(params[0], NAME_KEY, BYTE_SPACES);
      hide Parameter;
      if head.None? {
        if i: nat :| NameParamAt(params[1..], i, value) {
          assert NameParamAt(params, i + 1, value);
        }
        if i: nat :| NameParamAt(params, i, value) {
          assert NameParamAt(params[1..], i - 1, value);
        }
      } else if head == Some(value) {
        assert NameParamAt(params, 0, value);
      }
    }
  }
}
