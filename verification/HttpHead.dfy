/** The request-head parser of src/http/http_header.c as an automaton that takes one byte at a time. */
module HttpHead {
  import opened Bytes

  const SLASH: byte := 47
  const COLON: byte := 58
  const QUESTION: byte := 63

  predicate Printable(c: byte) {
    32 <= c <= 126
  }

  predicate Upper(c: byte) {
    65 <= c <= 90
  }

  predicate Letter(c: byte) {
    Upper(c) || 97 <= c <= 122
  }

  /** The parser lowers letters in place by setting bit 5. */
  function Lower(c: byte): byte {
    if Upper(c) then c + 32 else c
  }

  function LowerAll(s: seq<byte>): (r: seq<byte>)
    ensures |r| == |s|
    ensures forall i :: 0 <= i < |s| ==> r[i] == Lower(s[i])
  {
    seq(|s|, i requires 0 <= i < |s| => Lower(s[i]))
  }

  /** Storing in a 16-bit field. */
  function To16(x: int): (r: int)
    ensures -32768 <= r <= 32767
    ensures -32768 <= x <= 32767 ==> r == x
  {
    (x + 32768) % 65536 - 32768
  }

  lemma To16Add(a: int, b: int)
    ensures To16(To16(a) + b) == To16(a + b)
  {}

  datatype Mode =
    | Method | Skip | Slash | Path | Query | Gap | Version | VersionGap | Tail | LineEnd
    | LineStart | Name | AfterColon | Value | BlankLine | HeadEnd | Done | Bad

  /** What is known once `text`, with method and header names lowered, has been read; `word` is the method. Lengths are
      not cut to a field's width here. */
  datatype Head = Head(mode: Mode, text: seq<byte>, line: RequestLine, entry: HeaderLine)

  datatype RequestLine = RequestLine(word: seq<byte>, pathAt: nat, pathLen: int, queryAt: nat, queryLen: nat,
                                     versionLen: nat)

  datatype HeaderLine = HeaderLine(nameAt: nat, nameLen: nat, valueAt: nat, valueLen: nat, index: map<seq<byte>, nat>)

  function Start(): Head {
    Head(Method, [], RequestLine([], 0, 0, 0, 0, 0), HeaderLine(0, 0, 0, 0, map[]))
  }

  /** The length of `s` without the blanks at its end. */
  function Trimmed(s: seq<byte>): (n: nat)
    ensures n <= |s|
    ensures n > 0 ==> s[n - 1] != SP
    ensures forall k :: n <= k < |s| ==> s[k] == SP
  {
    if s == [] then 0 else if s[|s| - 1] == SP then Trimmed(s[..|s| - 1]) else |s|
  }

  function NameOf(h: Head): seq<byte> {
    if h.entry.nameAt + h.entry.nameLen <= |h.text| then h.text[h.entry.nameAt..h.entry.nameAt + h.entry.nameLen]
        else []
  }

  function Keep(h: Head, mode: Mode, c: byte): Head {
    h.(mode := mode, text := h.text + [c])
  }

  predicate AfterSlash(h: Head) {
    h.text != [] && h.text[|h.text| - 1] == SLASH
  }

  /** A slash before the query goes, unless the 16-bit length is 0; one before a blank goes unless that length is at
      most 1. */
  function StepPath(h: Head, c: byte): Head {
    if c == QUESTION then
      var len := if To16(h.line.pathLen) != 0 && AfterSlash(h) then h.line.pathLen - 1 else h.line.pathLen;
      Keep(h.(line := h.line.(pathLen := len, queryAt := |h.text| + 1)), Query, c)
    else if c == SP then
      var len := if To16(h.line.pathLen) > 1 && AfterSlash(h) then h.line.pathLen - 1 else h.line.pathLen;
      Keep(h.(line := h.line.(pathLen := len)), Gap, c)
    else if !Printable(c) then Keep(h, Bad, c)
    else Keep(h.(line := h.line.(pathLen := h.line.pathLen + 1)), Path, c)
  }

  function StepSlash(h: Head, c: byte): Head {
    if c == SLASH then Keep(h.(line := h.line.(pathAt := |h.text|)), Slash, c)
    else StepPath(h.(line := h.line.(pathLen := |h.text| - h.line.pathAt)), c)
  }

  function StepSkip(h: Head, c: byte): Head {
    if c == SLASH then StepSlash(h, c) else Keep(h, Skip, c)
  }

  function StepMethod(h: Head, c: byte): Head {
    if Letter(c) then Keep(h.(line := h.line.(word := h.line.word + [Lower(c)])), Method, Lower(c))
    else if h.line.word == [] then Keep(h, Bad, c)
    else StepSkip(h, c)
  }

  function StepQuery(h: Head, c: byte): Head {
    if c == SP then Keep(h, Gap, c)
    else if !Printable(c) then Keep(h, Bad, c)
    else Keep(h.(line := h.line.(queryLen := h.line.queryLen + 1)), Query, c)
  }

  function StepVersion(h: Head, c: byte): Head {
    if c == SP then Keep(h, VersionGap, c)
    else if c == CR then Keep(h, LineEnd, c)
    else if !Printable(c) then Keep(h, Bad, c)
    else Keep(h.(line := h.line.(versionLen := h.line.versionLen + 1)), Version, c)
  }

  function StepTail(h: Head, c: byte): Head {
    if c == CR then Keep(h, LineEnd, c)
    else if c == LF then Keep(h, Bad, c)
    else Keep(h, Tail, c)
  }

  function StepName(h: Head, c: byte): Head {
    var trimmed := h.(entry := h.entry.(nameLen := Trimmed(NameOf(h))));
    if c == COLON then Keep(trimmed, AfterColon, c)
    else if c == CR then Keep(trimmed, if Trimmed(NameOf(h)) == 0 then HeadEnd else Bad, c)
    else if !Printable(c) then Keep(h, Bad, c)
    else Keep(h.(entry := h.entry.(nameLen := h.entry.nameLen + 1)), Name, Lower(c))
  }

  /** A header entry holds the length of the value above the offset of the value. */
  function Entry(len: nat, at: nat): nat {
    len * 0x1_0000_0000 + at
  }

  function StepValue(h: Head, c: byte): Head {
    var e := h.entry;
    if c == CR then Keep(h.(entry := e.(index := e.index[NameOf(h) := Entry(e.valueLen, e.valueAt)])), LineEnd, c)
    else Keep(h.(entry := h.entry.(valueLen := h.entry.valueLen + 1)), Value, c)
  }

  function Step(h: Head, c: byte): Head {
    match h.mode
    case Method => StepMethod(h, c)
    case Skip => StepSkip(h, c)
    case Slash => StepSlash(h, c)
    case Path => StepPath(h, c)
    case Query => StepQuery(h, c)
    case Gap => if c == SP then Keep(h, Gap, c) else StepVersion(h, c)
    case Version => StepVersion(h, c)
    case VersionGap => if c == SP then Keep(h, VersionGap, c) else StepTail(h, c)
    case Tail => StepTail(h, c)
    case LineEnd => Keep(h, if c == LF then LineStart else Bad, c)
    case LineStart =>
      if c == SP then Keep(h, LineStart, c) else StepName(h.(entry := h.entry.(nameAt := |h.text|, nameLen := 0)), c)
    case Name => StepName(h, c)
    case AfterColon =>
      if c == SP then Keep(h, AfterColon, c) else StepValue(h.(entry := h.entry.(valueAt := |h.text|,
                                                                                 valueLen := 0)), c)
    case Value => StepValue(h, c)
    case BlankLine => Keep(h, if c == CR then HeadEnd else Bad, c)
    case HeadEnd => Keep(h, if c == LF then Done else Bad, c)
    case Done => h
    case Bad => h
  }

  /** Which bytes each part of a head refuses. Blanks behind a header's colon, and its value, refuse none. */
  lemma BadByte(h: Head, c: byte)
    requires !Over(h)
    ensures Step(h, c).mode == Bad <==>
              match h.mode
              case Method => h.line.word == [] && !(65 <= c <= 90 || 97 <= c <= 122)
              case Skip => false
              case Slash => c < 32 || c > 126
              case Path => c < 32 || c > 126
              case Query => c < 32 || c > 126
              case Gap => (c < 32 || c > 126) && c != 13
              case Version => (c < 32 || c > 126) && c != 13
              case VersionGap => c == 10
              case Tail => c == 10
              case LineEnd => c != 10
              case LineStart => (c < 32 || c > 126) && c != 13
              case Name => (c < 32 || c > 126) && (c != 13 || exists i :: 0 <= i < |NameOf(h)| && NameOf(h)[i] != 32)
              case AfterColon => false
              case Value => false
              case BlankLine => c != 13
              case HeadEnd => c != 10
              case _ => false
  {
    if h.mode == Name {
      TrimmedAway(NameOf(h));
    }
  }

  lemma TrimmedAway(s: seq<byte>)
    ensures Trimmed(s) == 0 <==> forall i :: 0 <= i < |s| ==> s[i] == 32
  {}

  /** Methods and header names are lowered, and nothing else is done to them. */
  lemma LowerLetters(s: seq<byte>, i: nat)
    requires i < |s|
    ensures LowerAll(s)[i] == if 65 <= s[i] <= 90 then s[i] + 32 else s[i]
  {}

  predicate Over(h: Head) {
    h.mode == Done || h.mode == Bad
  }

  ghost function Feed(h: Head, s: seq<byte>): Head
    decreases |s|
  {
    if s == [] then h else Feed(Step(h, s[0]), s[1..])
  }

  /** Reading in two pieces is reading at once, wherever the cut is. */
  lemma {:induction false} FeedPieces(h: Head, a: seq<byte>, b: seq<byte>)
    ensures Feed(h, a + b) == Feed(Feed(h, a), b)
    decreases |a|
  {
    if a == [] {
      assert a + b == b;
    } else {
      assert (a + b)[1..] == a[1..] + b;
      FeedPieces(Step(h, a[0]), a[1..], b);
    }
  }

  lemma FeedFirst(h: Head, s: seq<byte>)
    requires s != []
    ensures Feed(h, s) == Feed(Step(h, s[0]), s[1..])
  {}

  lemma FeedOne(h: Head, c: byte)
    ensures Feed(h, [c]) == Step(h, c)
  {
    assert Feed(Step(h, c), [c][1..]) == Step(h, c);
  }

  lemma {:induction false} FeedOver(h: Head, s: seq<byte>)
    requires Over(h)
    ensures Feed(h, s) == h
    decreases |s|
  {
    if s != [] {
      FeedOver(h, s[1..]);
    }
  }

  // ---------------------------------------------------------------------------
  // Spans
  // ---------------------------------------------------------------------------

  lemma {:induction false} FeedMethod(h: Head, w: seq<byte>)
    requires h.mode == Method && forall i :: 0 <= i < |w| ==> Letter(w[i])
    ensures Feed(h, w) == h.(text := h.text + LowerAll(w), line := h.line.(word := h.line.word + LowerAll(w)))
    decreases |w|
  {
    if w == [] {
      assert h.text + LowerAll(w) == h.text && h.line.word + LowerAll(w) == h.line.word;
    } else {
      hide Step, Lower, LowerAll;
      LetterRead(h, w[0]);
      FeedMethod(Step(h, w[0]), w[1..]);
      LowerMore(h.text, w);
      LowerMore(h.line.word, w);
    }
  }

  lemma LetterRead(h: Head, c: byte)
    requires h.mode == Method && Letter(c)
    ensures Step(h, c) == h.(text := h.text + [Lower(c)], line := h.line.(word := h.line.word + [Lower(c)]))
  {}

  lemma LowerMore(t: seq<byte>, s: seq<byte>)
    requires s != []
    ensures t + [Lower(s[0])] + LowerAll(s[1..]) == t + LowerAll(s)
  {
    assert LowerAll(s) == [Lower(s[0])] + LowerAll(s[1..]);
  }

  predicate PathText(s: seq<byte>) {
    forall i :: 0 <= i < |s| ==> Printable(s[i]) && s[i] != SP && s[i] != QUESTION
  }

  lemma {:induction false} FeedPath(h: Head, s: seq<byte>)
    requires h.mode == Path && PathText(s)
    ensures Feed(h, s) == h.(text := h.text + s, line := h.line.(pathLen := h.line.pathLen + |s|))
    decreases |s|
  {
    if s == [] {
      assert h.text + s == h.text;
    } else {
      FeedPath(Step(h, s[0]), s[1..]);
      assert h.text + [s[0]] + s[1..] == h.text + s;
    }
  }

  /** How many slashes a path begins with. */
  function Slashes(s: seq<byte>): (n: nat)
    ensures n <= |s|
    ensures forall i :: 0 <= i < n ==> s[i] == SLASH
    ensures n < |s| ==> s[n] != SLASH
  {
    if s == [] || s[0] != SLASH then 0 else 1 + Slashes(s[1..])
  }

  lemma {:induction false} FeedSlashes(h: Head, s: seq<byte>)
    requires h.mode == Skip || h.mode == Slash
    requires s != [] && forall i :: 0 <= i < |s| ==> s[i] == SLASH
    ensures Feed(h, s) == h.(mode := Slash, text := h.text + s, line := h.line.(pathAt := |h.text| + |s| - 1))
    decreases |s|
  {
    if |s| == 1 {
      FeedOne(h, s[0]);
      assert s == [s[0]];
    } else {
      FeedSlashes(Step(h, s[0]), s[1..]);
      assert h.text + [s[0]] + s[1..] == h.text + s;
    }
  }

  lemma {:induction false} FeedQuery(h: Head, s: seq<byte>)
    requires h.mode == Query && forall i :: 0 <= i < |s| ==> Printable(s[i]) && s[i] != SP
    ensures Feed(h, s) == h.(text := h.text + s, line := h.line.(queryLen := h.line.queryLen + |s|))
    decreases |s|
  {
    if s == [] {
      assert h.text + s == h.text;
    } else {
      FeedQuery(Step(h, s[0]), s[1..]);
      assert h.text + [s[0]] + s[1..] == h.text + s;
    }
  }

  lemma {:induction false} FeedVersion(h: Head, s: seq<byte>)
    requires h.mode == Gap || h.mode == Version
    requires s != [] && forall i :: 0 <= i < |s| ==> Printable(s[i]) && s[i] != SP
    ensures Feed(h, s) == h.(mode := Version, text := h.text + s,
        line := h.line.(versionLen := h.line.versionLen + |s|))
    decreases |s|
  {
    if |s| == 1 {
      FeedOne(h, s[0]);
      assert s == [s[0]];
    } else {
      FeedVersion(Step(h, s[0]), s[1..]);
      assert h.text + [s[0]] + s[1..] == h.text + s;
    }
  }

  lemma {:induction false} FeedName(h: Head, s: seq<byte>)
    requires h.mode == Name && forall i :: 0 <= i < |s| ==> Printable(s[i]) && s[i] != COLON
    ensures Feed(h, s) == h.(text := h.text + LowerAll(s), entry := h.entry.(nameLen := h.entry.nameLen + |s|))
    decreases |s|
  {
    if s == [] {
      assert h.text + LowerAll(s) == h.text;
    } else {
      hide Step, Lower, LowerAll;
      NameRead(h, s[0]);
      FeedName(Step(h, s[0]), s[1..]);
      LowerMore(h.text, s);
    }
  }

  lemma NameRead(h: Head, c: byte)
    requires h.mode == Name && Printable(c) && c != COLON
    ensures Step(h, c) == h.(text := h.text + [Lower(c)], entry := h.entry.(nameLen := h.entry.nameLen + 1))
  {}

  lemma {:induction false} FeedValue(h: Head, s: seq<byte>)
    requires h.mode == Value && CR !in s
    ensures Feed(h, s) == h.(text := h.text + s, entry := h.entry.(valueLen := h.entry.valueLen + |s|))
    decreases |s|
  {
    if s == [] {
      assert h.text + s == h.text;
    } else {
      FeedValue(Step(h, s[0]), s[1..]);
      assert h.text + [s[0]] + s[1..] == h.text + s;
    }
  }
}
