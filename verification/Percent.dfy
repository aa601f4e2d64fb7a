/** Percent encoding (src/http/http_util.c) into a growing buffer, and decoding (src/http/http_header.c). */
module Percent {
  import opened Bytes
  import opened NumText
  import opened Options

  const PERCENT: byte := 37
  const PLUS: byte := 43

  /** The printable bytes that are encoded all the same. */
  predicate Reserved(c: byte) {
    c in {33, 35, 36, 38, 39, 40, 41, 42, 43, 44, 58, 59, 61, 63, 64, 91, 93}
  }

  predicate Plain(c: byte) {
    32 <= c <= 126 && !Reserved(c)
  }

  function EncodeByte(c: byte): seq<byte> {
    if Plain(c) then [c] else [PERCENT, HexChar(c / 16), HexChar(c % 16)]
  }

  predicate In(c: byte, s: string) {
    exists i :: 0 <= i < |s| && s[i] as int == c
  }

  /** The unreserved characters of section 2.3 of RFC 3986. */
  predicate Unreserved(c: byte) {
    65 <= c <= 90 || 97 <= c <= 122 || 48 <= c <= 57 || In(c, "-._~")
  }

  /** The reserved characters of section 2.2 of RFC 3986: gen-delims and sub-delims. */
  predicate Delimiter(c: byte) {
    In(c, ":/?#[]@") || In(c, "!$&'()*+,;=")
  }

  /** What the encoder leaves alone: the unreserved characters, the slash, and those printable characters that a URI
      may not hold at all, the percent sign among them. Every other byte becomes a percent sign and two digits. */
  lemma LeftAlone(c: byte)
    ensures EncodeByte(c) == [c] <==> Unreserved(c) || In(c, "/") || In(c, " \"%<>\\^`{|}")
    ensures Delimiter(c) ==> (EncodeByte(c) == [c] <==> c == 47)
    ensures EncodeByte(c) != [c] ==>
              EncodeByte(c) == [37, "0123456789ABCDEF"[c / 16] as int, "0123456789ABCDEF"[c % 16] as int]
  {
    HexTable(c / 16, c);
    HexTable(c % 16, c);
    InList(c);
  }

  /** The lists spelled out. */
  lemma InList(c: byte)
    ensures In(c, "-._~") <==> c in {45, 46, 95, 126}
    ensures In(c, "/") <==> c == 47
    ensures In(c, " \"%<>\\^`{|}") <==> c in {32, 34, 37, 60, 62, 92, 94, 96, 123, 124, 125}
    ensures In(c, ":/?#[]@") <==> c in {58, 47, 63, 35, 91, 93, 64}
    ensures In(c, "!$&'()*+,;=") <==> c in {33, 36, 38, 39, 40, 41, 42, 43, 44, 59, 61}
  {
    var a, b, d, e := "-._~", " \"%<>\\^`{|}", ":/?#[]@", "!$&'()*+,;=";
    assert a[0] as int == 45 && a[1] as int == 46 && a[2] as int == 95 && a[3] as int == 126;
    assert b[0] as int == 32 && b[1] as int == 34 && b[2] as int == 37 && b[3] as int == 60 && b[4] as int == 62;
    assert b[5] as int == 92 && b[6] as int == 94 && b[7] as int == 96 && b[8] as int == 123 && b[9] as int == 124;
    assert b[10] as int == 125;
    assert d[0] as int == 58 && d[1] as int == 47 && d[2] as int == 63 && d[3] as int == 35 && d[4] as int == 91;
    assert d[5] as int == 93 && d[6] as int == 64;
    assert e[0] as int == 33 && e[1] as int == 36 && e[2] as int == 38 && e[3] as int == 39 && e[4] as int == 40;
    assert e[5] as int == 41 && e[6] as int == 42 && e[7] as int == 43 && e[8] as int == 44 && e[9] as int == 59;
    assert e[10] as int == 61;
    assert "/"[0] as int == 47;
  }

  function Encode(s: seq<byte>): seq<byte> {
    if s == [] then [] else EncodeByte(s[0]) + Encode(s[1..])
  }

  /** None stands for the -1 of the code. */
  function Decode(s: seq<byte>): (r: Option<seq<byte>>)
    ensures r.Some? ==> |r.value| <= |s|
    decreases |s|
  {
    if s == [] then Some([])
    else if s[0] == PERCENT then
      if |s| <= 2 || HexVal(s[1]) == None || HexVal(s[2]) == None then None
      else
        match Decode(s[3..])
        case None => None
        case Some(t) => Some([HexVal(s[1]).value * 16 + HexVal(s[2]).value] + t)
    else
      match Decode(s[1..])
      case None => None
      case Some(t) => Some([if s[0] == PLUS then SP else s[0]] + t)
  }

  lemma HexRoundTrip(c: byte)
    ensures HexVal(HexChar(c / 16)) == Some(c / 16) && HexVal(HexChar(c % 16)) == Some(c % 16)
    ensures c / 16 * 16 + c % 16 == c
  {}

  lemma DecodeFirst(c: byte, rest: seq<byte>)
    requires c != PERCENT
    ensures Decode(EncodeByte(c) + rest)
         == match Decode(rest) case None => None case Some(t) => Some([c] + t)
  {
    HexRoundTrip(c);
    assert (EncodeByte(c) + rest)[|EncodeByte(c)|..] == rest;
  }

  lemma {:induction false} EncodeEmpty(s: seq<byte>)
    ensures Encode(s) == [] <==> s == []
  {
    if s != [] {
      assert |EncodeByte(s[0])| > 0;
    }
  }

  /** A byte the encoder leaves as a hexadecimal digit was that digit before. */
  lemma HexFirst(s: seq<byte>)
    requires Encode(s) != [] && HexVal(Encode(s)[0]).Some?
    ensures s != [] && Encode(s)[1..] == Encode(s[1..])
  {
    EncodeEmpty(s);
    assert EncodeByte(s[0]) == [s[0]];
    assert ([s[0]] + Encode(s[1..]))[1..] == Encode(s[1..]);
  }

  lemma DecodePercent(e: seq<byte>)
    requires Decode([PERCENT] + e).Some?
    ensures |e| >= 2 && HexVal(e[0]).Some? && HexVal(e[1]).Some? && Decode(e[2..]).Some?
    ensures |Decode([PERCENT] + e).value| == 1 + |Decode(e[2..]).value|
  {
    hide Decode, HexVal;
    var s := [PERCENT] + e;
    assert s[0..] == s;
    DecodeOne(s, 0);
    assert |e| >= 2 ==> s[3..] == e[2..];
  }

  lemma EncodePercent(s: seq<byte>)
    requires s != [] && s[0] == PERCENT
    ensures Encode(s) == [PERCENT] + Encode(s[1..])
  {}

  /** A percent sign is decoded only together with two digits that the encoder left alone. */
  lemma PercentConsumes(s: seq<byte>)
    requires s != [] && s[0] == PERCENT && Decode(Encode(s)).Some?
    ensures |s| >= 3 && Decode(Encode(s[3..])).Some?
    ensures |Decode(Encode(s)).value| == 1 + |Decode(Encode(s[3..])).value|
  {
    hide Encode, Decode;
    EncodePercent(s);
    var e := Encode(s[1..]);
    DecodePercent(e);
    HexFirst(s[1..]);
    assert s[1..][1..] == s[2..] && e[1] == e[1..][0];
    HexFirst(s[2..]);
    assert s[2..][1..] == s[3..] && e[2..] == e[1..][1..];
  }

  /** Every percent sign costs two bytes. */
  lemma {:induction false} DecodedLength(s: seq<byte>)
    ensures Decode(Encode(s)).Some? ==> |Decode(Encode(s)).value| <= |s|
    ensures Decode(Encode(s)).Some? && PERCENT in s ==> |Decode(Encode(s)).value| < |s|
    decreases |s|
  {
    if s != [] && Decode(Encode(s)).Some? {
      if s[0] != PERCENT {
        DecodeFirst(s[0], Encode(s[1..]));
        DecodedLength(s[1..]);
      } else {
        PercentConsumes(s);
        DecodedLength(s[3..]);
      }
    }
  }

  lemma {:induction false} DecodeEncoded(s: seq<byte>)
    requires PERCENT !in s
    ensures Decode(Encode(s)) == Some(s)
    decreases |s|
  {
    if s != [] {
      DecodeFirst(s[0], Encode(s[1..]));
      DecodeEncoded(s[1..]);
      assert [s[0]] + s[1..] == s;
    }
  }

  /** Decoding undoes encoding exactly when there is no percent sign, which the encoder leaves as it is. */
  lemma RoundTripIff(s: seq<byte>)
    ensures Decode(Encode(s)) == Some(s) <==> PERCENT !in s
  {
    if PERCENT in s {
      DecodedLength(s);
    } else {
      DecodeEncoded(s);
    }
  }

  /** An escape that is already there, such as "%41", is encoded as itself and decoded as one byte. */
  lemma EscapeLost(a: byte, b: byte)
    requires HexVal(a).Some? && HexVal(b).Some?
    ensures Encode([PERCENT, a, b]) == [PERCENT, a, b]
    ensures Decode([PERCENT, a, b]) == Some([HexVal(a).value * 16 + HexVal(b).value])
  {
    var s := [PERCENT, a, b];
    assert s[1..] == [a, b] && [a, b][1..] == [b] && [b][1..] == [] && s[3..] == [];
    assert Encode([b]) == [b] && Encode([a, b]) == [a] + [b];
    var v: byte := HexVal(a).value * 16 + HexVal(b).value;
    DecodeNothing(s[3..]);
    assert [v] + [] == [v];
    assert Decode(s) == Some([v] + []);
  }

  // ---------------------------------------------------------------------------
  // The code
  // ---------------------------------------------------------------------------

  lemma EncodeFirst(front: seq<byte>, raw: seq<byte>, i: nat)
    requires i < |raw|
    ensures front + Encode(raw[i..]) == front + EncodeByte(raw[i]) + Encode(raw[i + 1..])
  {
    assert raw[i..][1..] == raw[i + 1..];
  }

  lemma EncodeNothing()
    ensures Encode([]) == []
  {}

  /** HC_MemBuf. */
  class MemBuf {
    var buf: array<byte>
    var max: nat
    var len: nat

    ghost predicate Valid()
      reads this, buf
    {
      buf.Length == max && len <= max
    }

    ghost function Contents(): seq<byte>
      requires Valid()
      reads this, buf
    {
      buf[..len]
    }

    constructor (size: nat)
      ensures Valid() && Contents() == [] && max == size && fresh(buf)
    {
      buf := new byte[size];
      max, len := size, 0;
    }

    /** hc_membuf_check_size: room for `n` more bytes; a buffer too small is replaced by one of twice the size needed.
        */
    method CheckSize(n: nat)
      requires Valid()
      modifies this`buf, this`max
      ensures Valid() && Contents() == old(Contents()) && len + n <= max
      ensures if len + n > old(max) then max == 2 * (len + n) && fresh(buf) else max == old(max) && buf == old(buf)
    {
      var top := len + n;
      if top > max {
        top := top + top;
        var old_, used := buf, len;
        buf := new byte[top](i requires 0 <= i < top reads old_ => if i < old_.Length then old_[i] else 0);
        max := top;
        assert buf[..len] == old_[..len];
      }
    }

    method Put(c: byte)
      requires Valid() && len < max
      modifies this`len, buf
      ensures Valid() && Contents() == old(Contents()) + [c] && buf == old(buf)
    {
      buf[len] := c;
      len := len + 1;
    }

    /** The bytes for one byte of the input. */
    method PutEncoded(c: byte)
      requires Valid()
      modifies this, buf
      ensures Valid() && Contents() == old(Contents()) + EncodeByte(c) && (buf == old(buf) || fresh(buf))
    {
      var charLen := if Plain(c) then 1 else 3;
      CheckSize(charLen);
      if 1 == charLen {
        Put(c);
      } else {
        Put(PERCENT);
        Put(HexChar(c / 16));
        Put(HexChar(c % 16));
      }
    }

    /** hc_http_encodeuri_realloc: the encoded text is appended and its length returned. */
    method EncodeUri(raw: seq<byte>) returns (n: nat)
      requires Valid()
      modifies this, buf
      ensures Valid() && Contents() == old(Contents()) + Encode(raw) && n == |Encode(raw)|
    {
      hide Encode, EncodeByte;
      EncodeNothing();
      var from := len;
      assert raw[0..] == raw;
      for i := 0 to |raw|
        invariant Valid() && (buf == old(buf) || fresh(buf)) && len >= from
        invariant Contents() + Encode(raw[i..]) == old(Contents()) + Encode(raw)
      {
        EncodeFirst(Contents(), raw, i);
        PutEncoded(raw[i]);
      }
      assert raw[|raw|..] == [];
      n := len - from;
    }
  }

  function Prefixed(a: seq<byte>, r: Option<seq<byte>>): Option<seq<byte>> {
    match r
    case None => None
    case Some(t) => Some(a + t)
  }

  lemma PrefixedNothing(r: Option<seq<byte>>)
    ensures Prefixed([], r) == r
  {
    if r.Some? {
      assert [] + r.value == r.value;
    }
  }

  lemma PrefixedMore(a: seq<byte>, c: byte, r: Option<seq<byte>>)
    ensures Prefixed(a, Prefixed([c], r)) == Prefixed(a + [c], r)
  {
    if r.Some? {
      assert a + ([c] + r.value) == a + [c] + r.value;
    }
  }

  /** The switch of hc_http_decode for the byte at `i0`. */
  method DecodeByte(src: seq<byte>, i0: nat, dst: array<byte>, len: nat) returns (ok: bool, i: nat)
    requires i0 < |src| && len < dst.Length
    modifies dst
    ensures dst[..len] == old(dst[..len])
    ensures !ok ==> Decode(src[i0..]) == None
    ensures ok ==> i0 < i <= |src| && Decode(src[i0..]) == Prefixed([dst[len]], Decode(src[i..]))
  {
    hide Decode, Prefixed, HexVal;
    DecodeOne(src, i0);
    var c := src[i0];
    i := i0;
    if c == PLUS {
      dst[len] := SP;
    } else if c == PERCENT {
      if i + 2 >= |src| {
        return false, i;
      }
      i := i + 1;
      var high := HexVal(src[i]);
      if high == None {
        return false, i;
      }
      HexBelow(src[i]);
      dst[len] := high.value * 16;
      i := i + 1;
      var low := HexVal(src[i]);
      if low == None {
        return false, i;
      }
      HexBelow(src[i]);
      dst[len] := dst[len] + low.value;
    } else {
      dst[len] := c;
    }
    i := i + 1;
    ok := true;
  }

  lemma HexBelow(c: byte)
    ensures HexVal(c).Some? ==> HexVal(c).value < 16
  {}

  /** What the byte at `i` contributes. */
  lemma DecodeOne(src: seq<byte>, i: nat)
    requires i < |src|
    ensures if src[i] != PERCENT then
              Decode(src[i..]) == Prefixed([if src[i] == PLUS then SP else src[i]], Decode(src[i + 1..]))
            else if i + 2 >= |src| || HexVal(src[i + 1]) == None || HexVal(src[i + 2]) == None then
              Decode(src[i..]) == None
            else
              && HexVal(src[i + 1]).value * 16 + HexVal(src[i + 2]).value < 256
              && Decode(src[i..])
                 == Prefixed([HexVal(src[i + 1]).value * 16 + HexVal(src[i + 2]).value], Decode(src[i + 3..]))
  {
    assert src[i..][1..] == src[i + 1..];
    if i + 2 < |src| {
      assert src[i..][3..] == src[i + 3..];
      HexBelow(src[i + 1]);
      HexBelow(src[i + 2]);
    }
  }

  /** hc_http_decode: `dst` needs no more room than the source has bytes. */
  method DecodeInto(src: seq<byte>, dst: array<byte>) returns (n: int)
    requires dst.Length >= |src|
    modifies dst
    ensures Decode(src) == None <==> n == -1
    ensures Decode(src).Some? ==> 0 <= n <= |src| && dst[..n] == Decode(src).value
  {
    hide Decode;
    var len := 0;
    var i := 0;
    assert src[0..] == src && dst[..0] == [];
    PrefixedNothing(Decode(src));
    while i < |src|
      invariant len <= i <= |src|
      invariant Decode(src) == Prefixed(dst[..len], Decode(src[i..]))
    {
      ghost var done := dst[..len];
      var ok;
      ok, i := DecodeByte(src, i, dst, len);
      if !ok {
        return -1;
      }
      PrefixedMore(done, dst[len], Decode(src[i..]));
      len := len + 1;
      assert dst[..len] == done + [dst[len - 1]];
    }
    DecodeNothing(src[i..]);
    assert dst[..len] + [] == dst[..len];
    return len;
  }

  lemma DecodeNothing(s: seq<byte>)
    requires s == []
    ensures Decode(s) == Some([])
  {}
}
