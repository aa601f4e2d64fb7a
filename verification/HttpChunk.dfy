/** The chunked transfer coding: the writer of src/http/http_util.c and the reader of src/http/http_client.c, which
    joins the chunks in place. */
module HttpChunk {
  import opened Bytes
  import opened NumText
  import opened Options

  const LAST: seq<byte> := [48, 13, 10, 13, 10]
  const INT_LIMIT := 0x8000_0000

  // ---------------------------------------------------------------------------
  // The format
  // ---------------------------------------------------------------------------

  function ChunkText(piece: seq<byte>): seq<byte> {
    Text(|piece|, 16) + [CR, LF] + piece + [CR, LF]
  }

  function Frames(pieces: seq<seq<byte>>): seq<byte> {
    if pieces == [] then [] else ChunkText(pieces[0]) + Frames(pieces[1..])
  }

  function Joined(pieces: seq<seq<byte>>): seq<byte> {
    if pieces == [] then [] else pieces[0] + Joined(pieces[1..])
  }

  predicate Pieces(pieces: seq<seq<byte>>) {
    forall k :: 0 <= k < |pieces| ==> 0 < |pieces[k]| < INT_LIMIT
  }

  // ---------------------------------------------------------------------------
  // What a reader makes of a buffer
  // ---------------------------------------------------------------------------

  /** A size line: its number and where the data begins; or blanks only, no line feed, a bad byte, or a number the
      32-bit size cannot hold. */
  datatype SizeLine = Size(len: nat, next: nat) | OnlyBlanks | CutLine | BadLine | TooLong

  function Blanks(s: seq<byte>, i: nat): (j: nat)
    requires i <= |s|
    ensures i <= j <= |s| && (j < |s| ==> s[j] != SP)
    decreases |s| - i
  {
    if i < |s| && s[i] == SP then Blanks(s, i + 1) else i
  }

  /** Digits from `i` on, `n` read so far; `cr` says that a carriage return has been seen. */
  function SizeFrom(s: seq<byte>, i: nat, n: nat, cr: bool): (r: SizeLine)
    requires i <= |s|
    ensures r.Size? ==> i < r.next <= |s|
    decreases |s| - i
  {
    if i == |s| then CutLine
    else if s[i] == CR then if cr then BadLine else SizeFrom(s, i + 1, n, true)
    else if s[i] == LF then if cr then Size(n, i + 1) else BadLine
    else
      match HexVal(s[i])
      case None => BadLine
      case Some(d) => if n * 16 + d < INT_LIMIT then SizeFrom(s, i + 1, n * 16 + d, cr) else TooLong
  }

  function ReadLine(s: seq<byte>, i: nat): (r: SizeLine)
    requires i <= |s|
    ensures r.Size? ==> i < r.next <= |s|
  {
    var j := Blanks(s, i);
    if j == |s| then OnlyBlanks else SizeFrom(s, j, 0, false)
  }

  predicate Crlf(s: seq<byte>, i: nat) {
    i + 2 <= |s| && s[i] == CR && s[i + 1] == LF
  }

  /** The size line [i, next) has the standard's form: hexadecimal digits, at least one, and CRLF. */
  ghost predicate StrictLine(s: seq<byte>, i: nat, next: nat) {
    i + 2 < next <= |s| && Crlf(s, next - 2) && forall k :: i <= k < next - 2 ==> HexVal(s[k]).Some?
  }

  /** What stands in a buffer. A body has a payload; `removed` bytes up to the end of its last size line are no payload,
      `tail` bytes follow that line, and it is `strict` if all size lines and all line ends are of the standard's form.
      A buffer may end between two chunks, or inside one of size `len` behind its size line of `line` bytes, or inside a
      size line. */
  datatype Reading =
    | Body(payload: seq<byte>, removed: nat, tail: nat, strict: bool)
    | Between | InChunk(line: nat, len: nat) | CutSize | Malformed | Huge

  /** How a body ends: right behind the closing CRLF, before it is complete, or with more bytes behind it; or it is not
      of the standard's form. */
  datatype Ending = Complete | CutInEnd | TrailingBytes | WrongForm

  function EndingOf(d: Reading): Ending
    requires d.Body?
  {
    if d.tail < 2 then CutInEnd else if d.tail > 2 then TrailingBytes else if d.strict then Complete else WrongForm
  }

  function Join(p: seq<byte>, removed: nat, strict: bool, d: Reading): Reading {
    match d
    case Body(q, r, tail, rest) => Body(p + q, removed + r, tail, strict && rest)
    case _ => d
  }

  ghost function Chunks(s: seq<byte>, i: nat): (d: Reading)
    requires i <= |s|
    ensures d.InChunk? ==> d.line > 0 && d.len > 0
    decreases |s| - i
  {
    match ReadLine(s, i)
    case OnlyBlanks => Between
    case CutLine => CutSize
    case BadLine => Malformed
    case TooLong => Huge
    case Size(len, next) =>
      if len == 0 then Body([], next - i, |s| - next, StrictLine(s, i, next) && (next + 2 <= |s| ==> Crlf(s, next)))
      else if next + len + 2 > |s| then InChunk(next - i, len)
      else
        var strict := StrictLine(s, i, next) && Crlf(s, next + len);
        Join(s[next..next + len], next - i + 2, strict, Chunks(s, next + len + 2))
  }

  // ---------------------------------------------------------------------------
  // The standard's form: section 7.1 of RFC 9112, without extensions and trailers
  // ---------------------------------------------------------------------------

  datatype Chunk = Chunk(size: seq<byte>, data: seq<byte>)

  ghost predicate ChunkOk(c: Chunk) {
    c.size != [] && ValueFrom(0, 16, c.size) == Some(|c.data|) && 0 < |c.data| < INT_LIMIT
  }

  ghost predicate ChunksOk(cs: seq<Chunk>) {
    forall k :: 0 <= k < |cs| ==> ChunkOk(cs[k])
  }

  /** The size of the closing chunk. */
  ghost predicate Zeros(size: seq<byte>) {
    size != [] && ValueFrom(0, 16, size) == Some(0)
  }

  function OneChunk(c: Chunk): seq<byte> {
    c.size + [CR, LF] + c.data + [CR, LF]
  }

  function ChunkTexts(cs: seq<Chunk>): seq<byte> {
    if cs == [] then [] else OneChunk(cs[0]) + ChunkTexts(cs[1..])
  }

  function DataOf(cs: seq<Chunk>): seq<byte> {
    if cs == [] then [] else cs[0].data + DataOf(cs[1..])
  }

  /** From `i` on the buffer holds a chunked body with this payload, and nothing else. */
  ghost predicate InForm(s: seq<byte>, i: nat, payload: seq<byte>)
    requires i <= |s|
  {
    exists cs: seq<Chunk>, last: seq<byte> {:trigger ChunkTexts(cs), Zeros(last)} ::
      ChunksOk(cs) && Zeros(last) && s[i..] == ChunkTexts(cs) + (last + [CR, LF]) + [CR, LF] && payload == DataOf(cs)
  }

  lemma {:induction false} HexDigits(t: seq<byte>, acc: nat)
    requires ValueFrom(acc, 16, t).Some?
    ensures forall k :: 0 <= k < |t| ==> HexVal(t[k]).Some?
    decreases |t|
  {
    if t != [] {
      HexDigits(t[1..], acc * 16 + HexVal(t[0]).value);
      assert forall k :: 0 < k < |t| ==> t[k] == t[1..][k - 1];
    }
  }

  lemma {:induction false} SizeOfDigits(s: seq<byte>, i: nat, t: seq<byte>, acc: nat, n: nat)
    requires i + |t| <= |s| && s[i..i + |t|] == t && n < INT_LIMIT
    requires ValueFrom(acc, 16, t) == Some(n)
    ensures SizeFrom(s, i, acc, false) == SizeFrom(s, i + |t|, n, false)
    decreases |t|
  {
    if t != [] {
      var d := HexVal(t[0]);
      assert s[i] == t[0];
      ValueGrows(acc * 16 + d.value, t[1..], n);
      assert s[i + 1..i + |t|] == t[1..];
      SizeOfDigits(s, i + 1, t[1..], acc * 16 + d.value, n);
    }
  }

  lemma {:induction false} ValueGrows(acc: nat, t: seq<byte>, n: nat)
    requires ValueFrom(acc, 16, t) == Some(n)
    ensures acc <= n
    decreases |t|
  {
    if t != [] {
      ValueGrows(acc * 16 + HexVal(t[0]).value, t[1..], n);
    }
  }

  lemma LineEndRead(s: seq<byte>, i: nat, n: nat)
    requires Crlf(s, i)
    ensures SizeFrom(s, i, n, false) == Size(n, i + 2)
  {}

  /** A size line of the standard's form is read as its number. */
  lemma LineRead(s: seq<byte>, i: nat, t: seq<byte>, n: nat)
    requires n < INT_LIMIT && t != [] && ValueFrom(0, 16, t) == Some(n)
    requires i + |t| + 2 <= |s| && s[i..i + |t| + 2] == t + [CR, LF]
    ensures ReadLine(s, i) == Size(n, i + |t| + 2) && StrictLine(s, i, i + |t| + 2)
  {
    hide ValueFrom, SizeFrom, HexVal, StrictLine, Crlf;
    DigitsThere(s, i, t, n);
    NoBlankDigit(s, i);
    SizeOfDigits(s, i, t, 0, n);
    LineEndRead(s, i + |t|, n);
  }

  /** Where the digits and the line end are. */
  lemma DigitsThere(s: seq<byte>, i: nat, t: seq<byte>, n: nat)
    requires t != [] && ValueFrom(0, 16, t) == Some(n)
    requires i + |t| + 2 <= |s| && s[i..i + |t| + 2] == t + [CR, LF]
    ensures s[i..i + |t|] == t && HexVal(s[i]).Some? && Crlf(s, i + |t|) && StrictLine(s, i, i + |t| + 2)
  {
    hide ValueFrom, HexVal;
    var u := s[i..i + |t| + 2];
    HexDigits(t, 0);
    forall k | i <= k < i + |t| ensures s[k] == t[k - i] {
      assert s[k] == u[k - i];
    }
    assert s[i + |t|] == u[|t|] && s[i + |t| + 1] == u[|t| + 1];
  }

  lemma NoBlankDigit(s: seq<byte>, i: nat)
    requires i < |s| && HexVal(s[i]).Some?
    ensures Blanks(s, i) == i
  {}

  /** A size line that is of the standard's form has the number it is read as. */
  lemma {:induction false} DigitsOfSize(s: seq<byte>, i: nat, acc: nat, len: nat, next: nat)
    requires i + 2 <= next <= |s| && Crlf(s, next - 2) && (forall k :: i <= k < next - 2 ==> HexVal(s[k]).Some?)
    requires SizeFrom(s, i, acc, false) == Size(len, next)
    ensures ValueFrom(acc, 16, s[i..next - 2]) == Some(len)
    decreases next - i
  {
    var t := s[i..next - 2];
    if i == next - 2 {
      assert t == [];
    } else {
      assert t[0] == s[i] && t[1..] == s[i + 1..next - 2];
      DigitsOfSize(s, i + 1, acc * 16 + HexVal(s[i]).value, len, next);
    }
  }

  lemma Slices(s: seq<byte>, i: nat, t: seq<byte>, p: seq<byte>, e: seq<byte>, rest: seq<byte>)
    requires i <= |s| && |e| == 2 && s[i..] == t + [CR, LF] + p + e + rest
    ensures i + |t| + 2 + |p| + 2 <= |s|
    ensures s[i..i + |t| + 2] == t + [CR, LF]
    ensures s[i + |t| + 2..i + |t| + 2 + |p|] == p
    ensures s[i + |t| + 2 + |p|..i + |t| + 2 + |p| + 2] == e
    ensures s[i + |t| + 2 + |p| + 2..] == rest
  {
    var u := s[i..];
    assert s[i..i + |t| + 2] == u[..|t| + 2] == t + [CR, LF];
    assert s[i + |t| + 2..i + |t| + 2 + |p|] == u[|t| + 2..|t| + 2 + |p|] == p;
    assert s[i + |t| + 2 + |p|..i + |t| + 2 + |p| + 2] == u[|t| + 2 + |p|..|t| + 2 + |p| + 2] == e;
    assert s[i + |t| + 2 + |p| + 2..] == u[|t| + 2 + |p| + 2..] == rest;
  }

  lemma CrlfIs(s: seq<byte>, i: nat)
    requires i + 2 <= |s|
    ensures Crlf(s, i) <==> s[i..i + 2] == [CR, LF]
  {
    assert s[i..i + 2] == [s[i], s[i + 1]];
  }

  /** A chunk is read whatever two bytes end it; only with CRLF there is the reading strict. */
  lemma ChunkRead(s: seq<byte>, i: nat, c: Chunk, e: seq<byte>, rest: seq<byte>)
    requires i <= |s| && ChunkOk(c) && |e| == 2 && s[i..] == c.size + [CR, LF] + c.data + e + rest
    ensures var next := i + |c.size| + 2 + |c.data| + 2;
            next <= |s| && s[next..] == rest &&
                Chunks(s, i) == Join(c.data, |c.size| + 4, e == [CR, LF], Chunks(s, next))
  {
    hide ReadLine, ValueFrom, StrictLine;
    Slices(s, i, c.size, c.data, e, rest);
    LineRead(s, i, c.size, |c.data|);
    CrlfIs(s, i + |c.size| + 2 + |c.data|);
  }

  /** The closing size line, whatever follows it. */
  lemma LastRead(s: seq<byte>, i: nat, last: seq<byte>, rest: seq<byte>)
    requires i <= |s| && Zeros(last) && s[i..] == last + [CR, LF] + rest
    ensures Chunks(s, i) == Body([], |last| + 2, |rest|, |rest| < 2 || rest[..2] == [CR, LF])
  {
    hide ReadLine, ValueFrom, StrictLine;
    var u := s[i..];
    assert s[i..i + |last| + 2] == u[..|last| + 2] == last + [CR, LF];
    LineRead(s, i, last, 0);
    var next := i + |last| + 2;
    assert s[next..] == u[|last| + 2..] == rest;
    if |rest| >= 2 {
      CrlfIs(s, next);
      assert s[next..next + 2] == s[next..][..2];
    }
  }

  /** Chunks of the standard's form and the closing size line are read as their data; what follows the line is the
      tail. */
  lemma {:induction false} TextRead(s: seq<byte>, i: nat, cs: seq<Chunk>, last: seq<byte>, rest: seq<byte>)
    requires i <= |s| && ChunksOk(cs) && Zeros(last) && s[i..] == ChunkTexts(cs) + (last + [CR, LF]) + rest
    ensures var d := Chunks(s, i);
            && d.Body? && d.payload == DataOf(cs) && d.tail == |rest|
            && d.strict == (|rest| < 2 || rest[..2] == [CR, LF])
            && d.removed + |d.payload| + d.tail == |s| - i
    decreases |cs|
  {
    hide Chunks, Zeros, ChunkOk;
    if cs == [] {
      assert s[i..] == last + [CR, LF] + rest;
      LastRead(s, i, last, rest);
    } else {
      var c := cs[0];
      var more := ChunkTexts(cs[1..]) + (last + [CR, LF]) + rest;
      assert s[i..] == c.size + [CR, LF] + c.data + [CR, LF] + more;
      ChunkRead(s, i, c, [CR, LF], more);
      TextRead(s, i + |c.size| + 2 + |c.data| + 2, cs[1..], last, rest);
    }
  }

  /** The other way round: a strict reading comes from chunks of the standard's form. */
  lemma {:induction false} ReadText(s: seq<byte>, i: nat) returns (cs: seq<Chunk>, last: seq<byte>)
    requires i <= |s| && Chunks(s, i).Body? && Chunks(s, i).strict && Chunks(s, i).tail == 2
    ensures ChunksOk(cs) && Zeros(last) && s[i..] == ChunkTexts(cs) + (last + [CR, LF]) + [CR, LF]
    ensures Chunks(s, i).payload == DataOf(cs)
    decreases |s| - i
  {
    hide Chunks, ReadLine, StrictLine, ChunkOk, Zeros, Crlf, ChunkTexts, DataOf;
    var len, next := FirstLine(s, i);
    if len == 0 {
      cs := [];
      last := LastText(s, i, next);
    } else {
      var c := FirstChunk(s, i, len, next);
      var more;
      more, last := ReadText(s, next + len + 2);
      cs := [c] + more;
      OneMore(c, more, last + [CR, LF], [CR, LF]);
    }
  }

  lemma FirstLine(s: seq<byte>, i: nat) returns (len: nat, next: nat)
    requires i <= |s| && Chunks(s, i).Body? && Chunks(s, i).strict && Chunks(s, i).tail == 2
    ensures ReadLine(s, i) == Size(len, next) && StrictLine(s, i, next) && i < next <= |s|
    ensures len == 0 ==> next + 2 == |s| && Crlf(s, next) && Chunks(s, i).payload == []
    ensures len > 0 ==> && next + len + 2 <= |s| && Crlf(s, next + len)
                        && var d := Chunks(s, next + len + 2);
                           && d.Body? && d.strict && d.tail == 2
                           && Chunks(s, i).payload == s[next..next + len] + d.payload
  {
    hide ReadLine, StrictLine, Crlf;
    len, next := ReadLine(s, i).len, ReadLine(s, i).next;
  }

  lemma LastText(s: seq<byte>, i: nat, next: nat) returns (last: seq<byte>)
    requires i <= |s| && ReadLine(s, i) == Size(0, next) && StrictLine(s, i, next) && next + 2 == |s| && Crlf(s, next)
    ensures Zeros(last) && s[i..] == ChunkTexts([]) + (last + [CR, LF]) + [CR, LF] && DataOf([]) == []
  {
    hide ReadLine, ValueFrom, StrictLine;
    last := StrictSize(s, i, 0, next);
    CrlfIs(s, next);
    assert s[i..] == s[i..next] + s[next..next + 2];
  }

  lemma FirstChunk(s: seq<byte>, i: nat, len: nat, next: nat) returns (c: Chunk)
    requires i <= |s| && ReadLine(s, i) == Size(len, next) && StrictLine(s, i, next) && 0 < len
    requires next + len + 2 <= |s| && Crlf(s, next + len)
    ensures ChunkOk(c) && c.data == s[next..next + len] && s[i..] == OneChunk(c) + s[next + len + 2..]
  {
    hide ReadLine, ValueFrom, StrictLine, Crlf;
    var t := StrictSize(s, i, len, next);
    c := Chunk(t, s[next..next + len]);
    CrlfIs(s, next + len);
    ChunkFront(s, i, c, next + len + 2, s[next + len + 2..]);
  }

  lemma OneMore(c: Chunk, more: seq<Chunk>, a: seq<byte>, b: seq<byte>)
    ensures OneChunk(c) + (ChunkTexts(more) + a + b) == ChunkTexts([c] + more) + a + b
    ensures DataOf([c] + more) == c.data + DataOf(more)
  {
    hide OneChunk;
    assert ([c] + more)[1..] == more;
  }

  lemma StrictSize(s: seq<byte>, i: nat, len: nat, next: nat) returns (t: seq<byte>)
    requires i <= |s| && ReadLine(s, i) == Size(len, next) && StrictLine(s, i, next)
    ensures t != [] && ValueFrom(0, 16, t) == Some(len) && s[i..next] == t + [CR, LF] && |t| == next - i - 2
    ensures len < INT_LIMIT
  {
    t := s[i..next - 2];
    assert HexVal(s[i]).Some?;
    assert Blanks(s, i) == i;
    DigitsOfSize(s, i, 0, len, next);
    CrlfIs(s, next - 2);
    assert s[i..next] == s[i..next - 2] + s[next - 2..next];
    SizeBelow(s, i, 0, false);
  }

  lemma {:induction false} SizeBelow(s: seq<byte>, i: nat, n: nat, cr: bool)
    requires i <= |s| && n < INT_LIMIT
    ensures SizeFrom(s, i, n, cr).Size? ==> SizeFrom(s, i, n, cr).len < INT_LIMIT
    decreases |s| - i
  {
    if i < |s| && s[i] == CR {
      SizeBelow(s, i + 1, n, true);
    } else if i < |s| && HexVal(s[i]).Some? && n * 16 + HexVal(s[i]).value < INT_LIMIT {
      SizeBelow(s, i + 1, n * 16 + HexVal(s[i]).value, cr);
    }
  }

  lemma ChunkFront(s: seq<byte>, i: nat, c: Chunk, j: nat, rest: seq<byte>)
    requires i <= j <= |s| && j == i + |c.size| + 2 + |c.data| + 2 && s[j..] == rest
    requires s[i..i + |c.size| + 2] == c.size + [CR, LF] && s[i + |c.size| + 2..j - 2] == c.data
    requires s[j - 2..j] == [CR, LF]
    ensures s[i..] == OneChunk(c) + rest
  {
    var m := i + |c.size| + 2;
    assert s[i..] == s[i..m] + s[m..j - 2] + s[j - 2..j] + s[j..];
  }

  /** A body is read as complete, with this payload, if and only if the buffer is of the standard's form. */
  lemma CompleteIff(s: seq<byte>, i: nat, payload: seq<byte>)
    requires i <= |s|
    ensures InForm(s, i, payload) <==>
              Chunks(s, i).Body? && EndingOf(Chunks(s, i)) == Complete && Chunks(s, i).payload == payload
  {
    hide Chunks;
    if InForm(s, i, payload) {
      var cs: seq<Chunk>, last: seq<byte> :| ChunksOk(cs) && Zeros(last) &&
          s[i..] == ChunkTexts(cs) + (last + [CR, LF]) + [CR, LF]
                                            && payload == DataOf(cs);
      TextRead(s, i, cs, last, [CR, LF]);
    }
    if Chunks(s, i).Body? && EndingOf(Chunks(s, i)) == Complete && Chunks(s, i).payload == payload {
      var cs, last := ReadText(s, i);
      assert Zeros(last) && ChunkTexts(cs) == ChunkTexts(cs);
    }
  }

  /** A buffer cut anywhere inside a size line, behind its first byte, is a reading of its own. */
  lemma {:induction false} CutInSize(s: seq<byte>, i: nat, cs: seq<Chunk>, t: seq<byte>, n: nat, k: nat)
    requires i <= |s| && ChunksOk(cs) && t != [] && ValueFrom(0, 16, t) == Some(n) && n < INT_LIMIT && 0 < k < |t| + 2
    requires s[i..] == ChunkTexts(cs) + (t + [CR, LF])[..k]
    ensures Chunks(s, i) == CutSize
    decreases |cs|
  {
    hide Chunks, ValueFrom, ChunkOk, ReadLine;
    var cut := (t + [CR, LF])[..k];
    if cs == [] {
      assert s[i..] == cut;
      LineCut(s, i, t, n, k);
      CutIsCut(s, i);
    } else {
      var c := cs[0];
      var more := ChunkTexts(cs[1..]) + cut;
      assert s[i..] == c.size + [CR, LF] + c.data + [CR, LF] + more;
      ChunkRead(s, i, c, [CR, LF], more);
      CutInSize(s, i + |c.size| + 2 + |c.data| + 2, cs[1..], t, n, k);
    }
  }

  lemma CutIsCut(s: seq<byte>, i: nat)
    requires i <= |s| && ReadLine(s, i) == CutLine
    ensures Chunks(s, i) == CutSize
  {}

  lemma {:induction false} ValuePrefix(acc: nat, t: seq<byte>, n: nat, k: nat)
    requires ValueFrom(acc, 16, t) == Some(n) && k <= |t|
    ensures ValueFrom(acc, 16, t[..k]).Some? && ValueFrom(acc, 16, t[..k]).value <= n
    decreases k
  {
    ValueGrows(acc, t, n);
    if k > 0 {
      assert t[..k][1..] == t[1..][..k - 1];
      ValuePrefix(acc * 16 + HexVal(t[0]).value, t[1..], n, k - 1);
    }
  }

  lemma LineCut(s: seq<byte>, i: nat, t: seq<byte>, n: nat, k: nat)
    requires i <= |s| && t != [] && ValueFrom(0, 16, t) == Some(n) && n < INT_LIMIT && 0 < k < |t| + 2
    requires s[i..] == (t + [CR, LF])[..k]
    ensures ReadLine(s, i) == CutLine
  {
    var m := if k <= |t| then k else |t|;
    ValuePrefix(0, t, n, m);
    var v := ValueFrom(0, 16, t[..m]).value;
    HexDigits(t, 0);
    assert s[i] == s[i..][0] == t[0];
    assert s[i..i + m] == s[i..][..m] == t[..m];
    SizeOfDigits(s, i, t[..m], 0, v);
    if k > |t| {
      assert s[i + m] == s[i..][m] == CR;
      assert SizeFrom(s, i + m, v, false) == SizeFrom(s, i + m + 1, v, true);
    }
  }

  /** The nine bytes "1", CRLF, "A", CRLF, "0", CRLF: the closing CRLF is missing, and the body is read all the same. */
  lemma CutBeforeEnd()
    ensures var s := [49, CR, LF, 65, CR, LF, 48, CR, LF];
            Chunks(s, 0).Body? && Chunks(s, 0).payload == [65] && Chunks(s, 0).tail == 0
  {
    var s: seq<byte> := [49, CR, LF, 65, CR, LF, 48, CR, LF];
    var c := Chunk([49], [65]);
    OneDigit(49);
    OneDigit(48);
    assert ChunkTexts([c]) == OneChunk(c) + ChunkTexts([]) == [49, CR, LF, 65, CR, LF];
    assert s[0..] == ChunkTexts([c]) + ([48] + [CR, LF]) + [];
    TextRead(s, 0, [c], [48], []);
    assert DataOf([c]) == [65] + DataOf([]) == [65];
  }

  lemma OneDigit(d: byte)
    requires 48 <= d <= 57
    ensures ValueFrom(0, 16, [d]) == Some(d - 48)
  {
    assert [d][1..] == [];
  }

  // ---------------------------------------------------------------------------
  // Buffers that have not been filled yet
  // ---------------------------------------------------------------------------

  /** `n` bytes end right behind a chunk, or hold none. */
  ghost predicate AtChunkEnd(cs: seq<Chunk>, n: nat)
    decreases |cs|
  {
    n == 0 || (cs != [] && n >= |OneChunk(cs[0])| && AtChunkEnd(cs[1..], n - |OneChunk(cs[0])|))
  }

  /** What is read of the first `c - i` bytes of a body of the standard's form: a cut between two chunks is read as one,
      and so is one inside the data or the line end of a chunk; but a cut inside a size line or behind the last one ends
      the reading. */
  lemma {:induction false} PrefixRead(s: seq<byte>, i: nat, cs: seq<Chunk>, last: seq<byte>, c: nat)
    requires i <= c <= |s| && ChunksOk(cs) && Zeros(last) && s[i..] == ChunkTexts(cs) + (last + [CR, LF]) + [CR, LF]
    ensures var d := Chunks(s[..c], i);
            && (d.Between? <==> AtChunkEnd(cs, c - i)) && (d.Between? && c > i ==> s[c - 1] == LF)
            && !d.Malformed? && !d.Huge? && (d.Body? && c < |s| ==> d.tail < 2)
    decreases |cs|
  {
    hide Chunks, Zeros, ChunkOk, InForm, ReadLine;
    var u := s[..c];
    assert u[i..] == s[i..][..c - i];
    if c == i {
      NothingRead(u, i);
    } else if cs == [] {
      LastPrefix(s, i, last, c);
    } else if c - i >= |OneChunk(cs[0])| {
      FirstChunkRead(s, i, cs, last, c);
      var j := i + |OneChunk(cs[0])|;
      assert s[j..] == s[i..][j - i..];
      PrefixRead(s, j, cs[1..], last, c);
      if c == j {
        assert s[j - 1] == s[i..][j - i - 1] == OneChunk(cs[0])[j - i - 1];
      }
    } else {
      InsideChunk(s, i, cs, last, c);
    }
  }

  lemma NothingRead(u: seq<byte>, i: nat)
    requires i == |u|
    ensures Chunks(u, i) == Between
  {}

  lemma LastPrefix(s: seq<byte>, i: nat, last: seq<byte>, c: nat)
    requires i < c <= |s| && Zeros(last) && s[i..] == ChunkTexts([]) + (last + [CR, LF]) + [CR, LF]
    ensures var d := Chunks(s[..c], i); d.CutSize? || (d.Body? && (c < |s| ==> d.tail < 2))
  {
    hide Chunks, ReadLine, ValueFrom;
    var u := s[..c];
    assert u[i..] == s[i..][..c - i];
    assert s[i..] == (last + [CR, LF]) + [CR, LF];
    if c - i < |last| + 2 {
      assert u[i..] == (last + [CR, LF])[..c - i];
      LineCut(u, i, last, 0, c - i);
      CutIsCut(u, i);
    } else {
      var rest := u[i + |last| + 2..];
      assert u[i..] == u[i..][..|last| + 2] + rest;
      assert u[i..][..|last| + 2] == last + [CR, LF];
      LastRead(u, i, last, rest);
    }
  }

  lemma FirstChunkRead(s: seq<byte>, i: nat, cs: seq<Chunk>, last: seq<byte>, c: nat)
    requires i <= c <= |s| && cs != [] && ChunksOk(cs) && c - i >= |OneChunk(cs[0])|
    requires s[i..] == ChunkTexts(cs) + (last + [CR, LF]) + [CR, LF]
    ensures var j := i + |OneChunk(cs[0])|;
            && s[j..] == ChunkTexts(cs[1..]) + (last + [CR, LF]) + [CR, LF]
            && Chunks(s[..c], i) == Join(cs[0].data, |cs[0].size| + 4, true, Chunks(s[..c], j))
  {
    hide Chunks, ChunkOk;
    var u, one := s[..c], OneChunk(cs[0]);
    var j := i + |one|;
    assert s[i..] == one + (ChunkTexts(cs[1..]) + (last + [CR, LF]) + [CR, LF]);
    assert s[j..] == s[i..][|one|..];
    assert u[i..] == s[i..][..c - i] == one + u[j..];
    assert u[i..] == cs[0].size + [CR, LF] + cs[0].data + [CR, LF] + u[j..];
    ChunkRead(u, i, cs[0], [CR, LF], u[j..]);
  }

  lemma InsideChunk(s: seq<byte>, i: nat, cs: seq<Chunk>, last: seq<byte>, c: nat)
    requires i < c <= |s| && cs != [] && ChunksOk(cs) && c - i < |OneChunk(cs[0])|
    requires s[i..] == ChunkTexts(cs) + (last + [CR, LF]) + [CR, LF]
    ensures var d := Chunks(s[..c], i); d.CutSize? || d.InChunk?
  {
    hide ReadLine, ValueFrom, StrictLine, Chunks;
    var u, one, t := s[..c], OneChunk(cs[0]), cs[0].size;
    assert ChunkOk(cs[0]);
    assert s[i..] == one + (ChunkTexts(cs[1..]) + (last + [CR, LF]) + [CR, LF]);
    assert u[i..] == s[i..][..c - i] == one[..c - i];
    if c - i < |t| + 2 {
      assert u[i..] == (t + [CR, LF])[..c - i];
      LineCut(u, i, t, |cs[0].data|, c - i);
      CutIsCut(u, i);
    } else {
      ChunkCut(u, i, cs[0], c - i);
    }
  }

  lemma {:induction false} SameBlanks(s: seq<byte>, i: nat, j: nat)
    requires i <= j <= |s| && forall k :: i <= k < j ==> s[k] == SP
    ensures Blanks(s, i) == Blanks(s, j)
    decreases j - i
  {
    if i < j {
      SameBlanks(s, i + 1, j);
    }
  }

  /** Blanks in front of a size line are skipped, though the standard has none there. */
  lemma BlanksBefore(s: seq<byte>, i: nat, j: nat)
    requires i <= j <= |s| && forall k :: i <= k < j ==> s[k] == 32
    requires Chunks(s, j).Body?
    ensures Chunks(s, i).Body? && Chunks(s, i).payload == Chunks(s, j).payload && Chunks(s, i).tail == Chunks(s, j).tail
  {
    hide SizeFrom;
    SameBlanks(s, i, j);
  }

  /** A size line with a byte that is neither a digit nor the carriage return, or a blank behind a digit, is refused. */
  lemma LineRefused(s: seq<byte>, i: nat, t: seq<byte>, n: nat, c: byte)
    requires i + |t| < |s| && s[i..i + |t|] == t && s[i + |t|] == c && ValueFrom(0, 16, t) == Some(n) && n < INT_LIMIT
    requires !(48 <= c <= 57 || 65 <= c <= 70 || 97 <= c <= 102) && c != 13 && (t == [] ==> c != 32)
    ensures Chunks(s, i) == Malformed
  {
    if t != [] {
      HexDigits(t, 0);
      assert s[i] == t[0];
    }
    HexTable(0, c);
    SizeOfDigits(s, i, t, 0, n);
  }

  /** So is one whose carriage return is followed by neither a line feed nor a digit. */
  lemma LineEndRefused(s: seq<byte>, i: nat, t: seq<byte>, n: nat, c: byte)
    requires i + |t| + 1 < |s| && s[i..i + |t|] == t && s[i + |t|] == 13 && s[i + |t| + 1] == c
    requires ValueFrom(0, 16, t) == Some(n) && n < INT_LIMIT
    requires !(48 <= c <= 57 || 65 <= c <= 70 || 97 <= c <= 102) && c != 10
    ensures Chunks(s, i) == Malformed
  {
    if t != [] {
      HexDigits(t, 0);
      assert s[i] == t[0];
    }
    HexTable(0, c);
    SizeOfDigits(s, i, t, 0, n);
    assert SizeFrom(s, i + |t|, n, false) == SizeFrom(s, i + |t| + 1, n, true);
  }

  /** The bytes behind the digits of a size line that the reader refuses. */
  predicate RefusedEnd(t: seq<byte>, bad: seq<byte>) {
    && (|bad| == 1 || (|bad| == 2 && bad[0] == 13))
    && var c := bad[|bad| - 1];
       && !(48 <= c <= 57 || 65 <= c <= 70 || 97 <= c <= 102)
       && (if |bad| == 1 then c != 13 && (t == [] ==> c != 32) else c != 10)
  }

  /** A body with such a size line, behind any chunks and before anything, is malformed. */
  lemma {:induction false} SizeRefused(s: seq<byte>, i: nat, cs: seq<Chunk>, t: seq<byte>, n: nat, bad: seq<byte>,
                                       rest: seq<byte>)
    requires i <= |s| && ChunksOk(cs) && ValueFrom(0, 16, t) == Some(n) && n < INT_LIMIT && RefusedEnd(t, bad)
    requires s[i..] == ChunkTexts(cs) + (t + bad + rest)
    ensures Chunks(s, i) == Malformed
    decreases |cs|
  {
    hide Chunks, ValueFrom, ChunkOk, ReadLine;
    var more := t + bad + rest;
    if cs == [] {
      assert s[i..] == more;
      var u := s[i..];
      assert s[i..i + |t|] == u[..|t|] == t && s[i + |t|] == u[|t|] == bad[0];
      if |bad| == 1 {
        LineRefused(s, i, t, n, bad[0]);
      } else {
        assert s[i + |t| + 1] == u[|t| + 1] == bad[1];
        LineEndRefused(s, i, t, n, bad[1]);
      }
    } else {
      var c := cs[0];
      assert s[i..] == c.size + [CR, LF] + c.data + [CR, LF] + (ChunkTexts(cs[1..]) + more);
      ChunkRead(s, i, c, [CR, LF], ChunkTexts(cs[1..]) + more);
      SizeRefused(s, i + |c.size| + 2 + |c.data| + 2, cs[1..], t, n, bad, rest);
    }
  }

  /** One chunk cut behind its size line. */
  lemma ChunkCut(s: seq<byte>, i: nat, c: Chunk, k: nat)
    requires i <= |s| && ChunkOk(c) && |c.size| + 2 <= k < |OneChunk(c)| && s[i..] == OneChunk(c)[..k]
    ensures Chunks(s, i) == InChunk(|c.size| + 2, |c.data|)
  {
    hide ReadLine, ValueFrom, StrictLine, Chunks;
    var t := c.size;
    assert s[i..i + |t| + 2] == s[i..][..|t| + 2] == OneChunk(c)[..|t| + 2] == t + [CR, LF];
    LineRead(s, i, t, |c.data|);
    ShortChunk(s, i, |c.data|, i + |t| + 2);
  }

  /** A buffer that ends inside the data or the line end of a chunk, behind any others, is read as such a cut. */
  lemma {:induction false} CutInChunk(s: seq<byte>, i: nat, cs: seq<Chunk>, c: Chunk, k: nat)
    requires i <= |s| && ChunksOk(cs) && ChunkOk(c) && |c.size| + 2 <= k < |OneChunk(c)|
    requires s[i..] == ChunkTexts(cs) + OneChunk(c)[..k]
    ensures Chunks(s, i) == InChunk(|c.size| + 2, |c.data|)
    decreases |cs|
  {
    hide Chunks, ChunkOk, ReadLine;
    var cut := OneChunk(c)[..k];
    if cs == [] {
      assert s[i..] == cut;
      ChunkCut(s, i, c, k);
    } else {
      var first := cs[0];
      var more := ChunkTexts(cs[1..]) + cut;
      assert s[i..] == first.size + [CR, LF] + first.data + [CR, LF] + more;
      ChunkRead(s, i, first, [CR, LF], more);
      CutInChunk(s, i + |first.size| + 2 + |first.data| + 2, cs[1..], c, k);
    }
  }

  lemma ShortChunk(s: seq<byte>, i: nat, len: nat, next: nat)
    requires i <= |s| && ReadLine(s, i) == Size(len, next) && len > 0 && next + len + 2 > |s|
    ensures Chunks(s, i) == InChunk(next - i, len)
  {
    hide ReadLine;
  }

  /** More bytes behind a size line do not change how it is read. */
  lemma ReadLineMore(s: seq<byte>, ext: seq<byte>, i: nat)
    requires i <= |s| && ReadLine(s, i).Size?
    ensures ReadLine(s + ext, i) == ReadLine(s, i)
    ensures StrictLine(s + ext, i, ReadLine(s, i).next) == StrictLine(s, i, ReadLine(s, i).next)
  {
    hide StrictLine;
    BlanksMore(s, ext, i);
    SizeMore(s, ext, Blanks(s, i), 0, false);
    StrictMore(s, ext, i, ReadLine(s, i).next);
  }

  lemma StrictMore(s: seq<byte>, ext: seq<byte>, i: nat, next: nat)
    requires next <= |s|
    ensures StrictLine(s + ext, i, next) == StrictLine(s, i, next)
  {
    assert forall k :: 0 <= k < |s| ==> (s + ext)[k] == s[k];
  }

  lemma {:induction false} BlanksMore(s: seq<byte>, ext: seq<byte>, i: nat)
    requires i <= |s| && Blanks(s, i) < |s|
    ensures Blanks(s + ext, i) == Blanks(s, i)
    decreases |s| - i
  {
    if i < |s| && s[i] == SP {
      BlanksMore(s, ext, i + 1);
    }
  }

  lemma {:induction false} SizeMore(s: seq<byte>, ext: seq<byte>, i: nat, n: nat, cr: bool)
    requires i <= |s| && SizeFrom(s, i, n, cr).Size?
    ensures SizeFrom(s + ext, i, n, cr) == SizeFrom(s, i, n, cr)
    decreases |s| - i
  {
    if s[i] == CR {
      SizeMore(s, ext, i + 1, n, true);
    } else if s[i] != LF {
      SizeMore(s, ext, i + 1, n * 16 + HexVal(s[i]).value, cr);
    }
  }

  // ---------------------------------------------------------------------------
  // Reading undoes writing
  // ---------------------------------------------------------------------------

  /** The chunks the writer makes of its pieces. */
  function Written(pieces: seq<seq<byte>>): (cs: seq<Chunk>)
    ensures |cs| == |pieces|
    ensures forall k :: 0 <= k < |cs| ==> cs[k] == Chunk(Text(|pieces[k]|, 16), pieces[k])
  {
    seq(|pieces|, k requires 0 <= k < |pieces| => Chunk(Text(|pieces[k]|, 16), pieces[k]))
  }

  lemma {:induction false} WrittenText(pieces: seq<seq<byte>>)
    requires Pieces(pieces)
    ensures ChunksOk(Written(pieces)) && ChunkTexts(Written(pieces)) == Frames(pieces)
    ensures DataOf(Written(pieces)) == Joined(pieces)
    decreases |pieces|
  {
    if pieces != [] {
      assert Written(pieces)[1..] == Written(pieces[1..]);
      WrittenText(pieces[1..]);
    }
    forall k | 0 <= k < |pieces| ensures ChunkOk(Written(pieces)[k]) {
      NumText.TextRead(|pieces[k]|, 16);
    }
  }

  /** Of a buffer with the frames of some pieces and the closing chunk a reader makes the pieces, one after another. */
  lemma FramesRead(s: seq<byte>, i: nat, pieces: seq<seq<byte>>)
    requires i <= |s| && s[i..] == Frames(pieces) + LAST && Pieces(pieces)
    ensures InForm(s, i, Joined(pieces)) && Chunks(s, i).Body? && Chunks(s, i).payload == Joined(pieces)
    ensures Chunks(s, i).tail == 2 && Chunks(s, i).strict && Chunks(s, i).removed + |Joined(pieces)| + 2 == |s| - i
  {
    hide Chunks;
    WrittenText(pieces);
    OneDigit(48);
    assert LAST == ([48] + [CR, LF]) + [CR, LF];
    assert s[i..] == ChunkTexts(Written(pieces)) + ([48] + [CR, LF]) + [CR, LF];
    TextRead(s, i, Written(pieces), [48], [CR, LF]);
    CompleteIff(s, i, Joined(pieces));
  }
}
