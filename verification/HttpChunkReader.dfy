/** The reader of the chunked transfer coding, hc_httpc_check_body_chunk of src/http/http_client.c, and the loop of
    hc_httpc_read that calls it after every read. */
module HttpChunkReader {
  import opened Bytes
  import opened NumText
  import opened Options
  import opened MemMove
  import opened HttpChunk

  /** How far a reader has come. Of `text`, all that has been received, the body begins at `from`; up to `at` its chunks
      hold the payload `got` and `removed` other bytes. `drift` is by how much too many bytes have been counted as no
      payload, `extra` by how much too many as payload; `clean` says that no read has ended inside a chunk yet. */
  datatype Progress = Progress(text: seq<byte>, from: nat, got: seq<byte>, removed: nat, strict: bool, at: nat,
                               drift: nat,
                               extra: nat, clean: bool)

  /** What has been passed is settled, whatever is received next. */
  ghost predicate Passed(g: Progress) {
    && g.from + |g.got| + g.removed == g.at <= |g.text|
    && (g.clean ==> g.drift == 0 && g.extra == 0)
    && forall ext :: Chunks(g.text + ext, g.from) == Join(g.got, g.removed, g.strict, Chunks(g.text + ext, g.at))
  }

  /** What has not been passed is untouched in the buffer; if the reader is clean, the payload stands right behind the
      untouched head. */
  ghost predicate Held(now: seq<byte>, g: Progress) {
    && g.from + |g.got| <= g.at <= |g.text| <= |now| && now[g.at..|g.text|] == g.text[g.at..]
    && (g.clean ==> now[..g.from] == g.text[..g.from] && now[g.from..g.from + |g.got|] == g.got)
  }

  /** The chunk behind the size line at `at` has been read, up to `next`. */
  function Taken(g: Progress, next: nat, len: nat, strict: bool): Progress
    requires next + len <= |g.text| && g.at <= next
  {
    g.(got := g.got + g.text[next..next + len], removed := g.removed + (next - g.at) + 2, at := next + len + 2,
       strict := g.strict && strict)
  }

  /** A read has ended inside the chunk of size `len` whose size line has `line` bytes. */
  function Interrupted(g: Progress, line: nat, len: nat): Progress {
    g.(drift := g.drift + line, extra := g.extra + len, clean := false)
  }

  ghost predicate LineDone(g: Progress, line: int, len: int, next: int) {
    && g.at <= |g.text| && len >= 0 && next >= 0
    && ReadLine(g.text, g.at) == Size(len, next) && line == next - g.at
  }

  ghost predicate Costs(was: Progress, now: Progress, line: nat, len: nat) {
    now.drift == was.drift + line && now.extra == was.extra + len
  }

  class ChunkReader {
    const src: array<byte>
    var recvLen: int
    var status: int
    var tmp: nat
    var tmpVar1: int
    var tmpVar2: int
    var tmpVar3: int
    var tmpVar4: int
    var rspContentLen: int
    ghost var g: Progress

    /** Nothing beyond the head, of `headerLen` bytes, has been looked at. */
    constructor (buf: array<byte>, recvLen: nat, headerLen: nat)
      requires headerLen <= recvLen <= buf.Length
      ensures src == buf && this.recvLen == recvLen && Saved()
      ensures g.text == buf[..recvLen] && g.from == headerLen && g.clean
    {
      src := buf;
      this.recvLen, status, tmp := recvLen, 20, headerLen;
      tmpVar1, tmpVar2, tmpVar3, tmpVar4, rspContentLen := 0, 0, 0, 0, 0;
      g := Progress(buf[..recvLen], headerLen, [], 0, true, headerLen, 0, 0, true);
      new;
      NothingPassed(g.text, g.from);
    }

    /** The reader stands at a size line, or right behind it. */
    ghost predicate Ready(st: int)
      reads this, src
    {
      && Passed(g) && Held(src[..], g) && recvLen == |g.text|
      && tmpVar4 == 0 - g.removed - g.drift && rspContentLen == |g.got| + g.extra
      && (st == 20 || (st == 22 && LineDone(g, tmpVar1, tmpVar2, tmpVar3)))
    }

    /** Between two calls. */
    ghost predicate Saved()
      reads this, src
    {
      Ready(status) && tmp == if status == 20 then g.at else tmpVar3
    }

    /** More bytes have been read into the buffer. */
    method Receive(n: nat)
      requires Saved() && recvLen + n <= src.Length
      modifies this`recvLen, this`g
      ensures Saved() && recvLen == old(recvLen) + n
      ensures g == old(g).(text := old(g.text) + src[old(recvLen)..old(recvLen) + n])
    {
      hide ReadLine, Chunks, Passed;
      MoreReceived(g, src[recvLen..recvLen + n]);
      MoreHeld(src[..], g, src[recvLen..recvLen + n]);
      if status == 22 {
        LineDoneMore(g, src[recvLen..recvLen + n], tmpVar1, tmpVar2, tmpVar3);
      }
      g := g.(text := g.text + src[recvLen..recvLen + n]);
      recvLen := recvLen + n;
    }

    /** Status 20 and 21: blanks, hexadecimal digits and the end of the line. The size is left in tmpVar2, the start of
        the data in tmpVar3 and the length of the line in tmpVar1. */
    method ReadSize(i0: nat, max: nat) returns (ret: int, i: nat, st: int)
      requires i0 <= max <= src.Length && ReadLine(src[..max], i0) != TooLong
      modifies this`tmpVar1, this`tmpVar2, this`tmpVar3
      ensures match ReadLine(src[..max], i0)
              case OnlyBlanks => ret == 1 && st == 20 && i == max
              case CutLine => ret == 0 && st == 21
              case BadLine => ret == -1
              case TooLong => false
              case Size(len, next) => ret == 0 && st == 22 && tmpVar2 == len && tmpVar3 == next && tmpVar1 == next - i0
    {
      i, st := i0, 20;
      tmpVar1 := i;
      ghost var s := src[..max];
      while i < max && src[i] == SP
        invariant i0 <= i <= max && Blanks(s, i0) == Blanks(s, i)
      {
        i := i + 1;
      }
      if i == max {
        return 1, i, st;
      }
      st := 21;
      tmpVar2, tmpVar3 := 0, 0;
      while i < max
        invariant i0 <= i <= max && tmpVar1 == i0 && tmpVar2 >= 0 && (tmpVar3 == 0 || tmpVar3 == 1)
        invariant ReadLine(s, i0) == SizeFrom(s, i, tmpVar2, tmpVar3 == 1)
      {
        var c := src[i];
        if CR == c {
          if 0 != tmpVar3 {
            return -1, i, st;
          }
          tmpVar3 := 1;
        } else if LF == c {
          if 1 != tmpVar3 {
            return -1, i, st;
          }
          tmpVar3 := i + 1;
          tmpVar1 := tmpVar3 - tmpVar1;
          return 0, i, 22;
        } else {
          var d := HexVal(c);
          if d == None {
            return -1, i, st;
          }
          tmpVar2 := tmpVar2 * 16 + d.value;
        }
        i := i + 1;
      }
      return 0, i, st;
    }

    /** code_save. */
    method SaveAt(i: nat, st: int)
      modifies this`status, this`tmp
      ensures status == st && tmp == i
    {
      status, tmp := st, i;
    }

    /** The reader stands behind a size line that has been counted. */
    ghost predicate Counted()
      reads this, src
    {
      && Passed(g) && Held(src[..], g) && recvLen == |g.text| && LineDone(g, tmpVar1, tmpVar2, tmpVar3)
      && tmpVar4 == 0 - g.removed - g.drift - tmpVar1 && rspContentLen == |g.got| + g.extra + tmpVar2
    }

    /** The data of a chunk that is there as a whole are moved up, over bytes that have all been passed. */
    method TakeChunk() returns (i: nat)
      requires Counted() && tmpVar2 > 0 && g.drift <= g.from && tmpVar3 + tmpVar2 + 2 <= |g.text|
      modifies this`tmpVar4, this`g, src
      ensures Ready(20) && i == g.at > old(g.at)
      ensures g == old(g).(got := g.got, removed := g.removed, at := g.at, strict := g.strict)
      ensures |g.text| <= src.Length && src[|g.text|..] == old(src[|g.text|..])
    {
      hide ReadLine, Chunks, Passed, Held, StrictLine, Crlf;
      Bounds(src[..], g);
      i := tmpVar3;
      ghost var one := ChunkPassed(g, tmpVar2, i);
      CleanStraight(g);
      MoveChunk(i, tmpVar2, one);
      tmpVar4 := tmpVar4 - 2;
      g := Taken(g, i, tmpVar2, one);
      i := i + tmpVar2 + 2;
    }

    /** A chunk that is not there as a whole is given up until the next call. */
    ghost method Interrupt()
      requires Counted()
      modifies this`g
      ensures Ready(22) && g == Interrupted(old(g), tmpVar1, tmpVar2)
    {
      hide ReadLine, Chunks;
      g := Interrupted(g, tmpVar1, tmpVar2);
    }

    method MoveChunk(i: nat, len: nat, ghost one: bool)
      requires Held(src[..], g) && g.at < i && i + len + 2 <= |g.text| && g.drift <= g.from
      requires (g.clean ==> g.drift == 0)
      requires tmpVar4 == g.from + |g.got| - g.drift - i
      modifies src
      ensures Held(src[..], Taken(g, i, len, one))
      ensures |g.text| <= src.Length && src[|g.text|..] == old(src[|g.text|..])
    {
      hide Held, Shifted;
      ghost var was := src[..];
      Bounds(was, g);
      MoveFront(src, i, len, tmpVar4);
      ShiftedSlice(src[..], was, i, tmpVar4, len);
      MovedParts(was, src[..], g, i, len, one);
      assert src[|g.text|..] == src[..][i + len..][|g.text| - i - len..];
      assert was[|g.text|..] == was[i + len..][|g.text| - i - len..];
    }

    /** What a call answers and leaves behind that began at `was`. */
    ghost predicate Answers(ret: int, was: Progress)
      reads this, src
    {
      && g.text == was.text && g.from == was.from <= |g.text|
      && var d := Chunks(g.text, g.from);
         && (ret == 0 <==> d.Body? || d.CutSize?) && (ret == -1 <==> d.Malformed?)
         && (ret > 0 <==> d.Between? || d.InChunk?)
         && (d.Body? ==> && recvLen == g.from + |d.payload| + d.tail - 2 - was.drift
                         && rspContentLen == |d.payload| + was.extra && g.from + |d.payload| <= src.Length
                         && (was.clean ==> && src[g.from..g.from + |d.payload|] == d.payload
                                           && src[..g.from] == g.text[..g.from]))
         && (d.CutSize? ==> recvLen == |g.text| && status == 21)
         && (d.InChunk? ==> Saved() && Costs(was, g, d.line, d.len) && !g.clean)
         && (d.Between? && !(|g.text| > g.from && g.text[|g.text| - 1] == SP) ==>
               Saved() && Costs(was, g, 0, 0) && g.clean == was.clean)
    }

    ghost predicate Since(was: Progress)
      reads this
    {
      g == was.(got := g.got, removed := g.removed, at := g.at, strict := g.strict)
    }

    /** hc_httpc_check_body_chunk. It answers -1 for a malformed body, a positive number when data is missing, and 0
        when the closing size line has been read; but 0, too, when the buffer ends inside a size line. What follows the
        closing size line is not looked at: the buffer's length is made that of head and payload if and only if two
        bytes follow that line and no earlier read has ended inside a chunk. After such a read the length of the size
        line is subtracted, and the size added to the content length, once more. */
    method CheckBodyChunk() returns (ret: int)
      requires Saved() && g.drift <= g.from && Chunks(g.text, g.from) != Huge
      modifies this, src
      ensures Answers(ret, old(g))
      ensures g.text == old(g.text) && |g.text| <= src.Length && src[|g.text|..] == old(src[|g.text|..])
    {
      hide ReadLine, Chunks, Passed, Held, ChunkReader.Answers, LineDone;
      ghost var was := g;
      Bounds(src[..], g);
      var i, max, st := tmp, recvLen, status;
      while true
        invariant max == |g.text| <= src.Length && Ready(st) && i == (if st == 20 then g.at else tmpVar3) && Since(was)
        invariant src[max..] == old(src[|g.text|..])
        decreases max - g.at
      {
        Bounds(src[..], g);
        var done;
        if st == 20 {
          done, ret, i := BeforeChunk(i, max, was);
          if done {
            return;
          }
        }
        done, ret, i := InsideChunk(max, was);
        if done {
          return;
        }
        st := 20;
      }
    }

    /** Statuses 20 and 21. */
    method BeforeChunk(i0: nat, max: nat, ghost was: Progress) returns (done: bool, ret: int, i: nat)
      requires Ready(20) && Since(was) && i0 == g.at && max == |g.text| && Chunks(g.text, g.from) != Huge
      modifies this`tmpVar1, this`tmpVar2, this`tmpVar3, this`status, this`tmp
      ensures if done then Answers(ret, was) else Ready(22) && i == tmpVar3
    {
      hide ReadLine, Chunks, Passed, Held, LineDone;
      Bounds(src[..], g);
      var st;
      ret, i, st := NextLine(i0, max);
      if ret == -1 {
        return true, ret, i;
      }
      if st != 22 {
        SaveAt(i, st);
        return true, ret, i;
      }
      return false, ret, tmpVar3;
    }

    /** Status 22. */
    method InsideChunk(max: nat, ghost was: Progress) returns (done: bool, ret: int, i: nat)
      requires Ready(22) && Since(was) && g.drift <= g.from && max == |g.text| && Chunks(g.text, g.from) != Huge
      modifies this, src
      ensures if done then Answers(ret, was) else Ready(20) && Since(was) && i == g.at > old(g.at)
      ensures g.text == was.text && max <= src.Length && src[max..] == old(src[max..])
    {
      hide ReadLine, Chunks, Passed, Held;
      Bounds(src[..], g);
      Cases(g);
      tmpVar4 := tmpVar4 - tmpVar1;
      if 0 == tmpVar2 {
        Close();
        return true, 0, max;
      }
      rspContentLen := rspContentLen + tmpVar2;
      ret := tmpVar3 + tmpVar2 + 2 - max;
      if 0 < ret {
        Interrupt();
        SaveAt(tmpVar3, 22);
        return true, ret, max;
      }
      i := TakeChunk();
      return false, ret, i;
    }

    /** Status 20 at the end of what has been passed. */
    method NextLine(i0: nat, max: nat) returns (ret: int, i: nat, st: int)
      requires Ready(20) && i0 == g.at && max == |g.text| && Chunks(g.text, g.from) != Huge
      modifies this`tmpVar1, this`tmpVar2, this`tmpVar3
      ensures var d := Chunks(g.text, g.from);
              if ret == -1 then d.Malformed?
              else
                && (st == 22 ==> Ready(22) && tmpVar3 >= 0)
                && (st == 21 ==> ret == 0 && d.CutSize?)
                && (st == 20 ==> ret == 1 && d.Between? && Ready(20))
                && (st == 20 && !(max > g.from && g.text[max - 1] == SP) ==> i == g.at)
      ensures ret != -1 ==> st == 20 || st == 21 || st == 22
    {
      hide ReadLine, Chunks, Passed, Held;
      ReadyParts();
      Cases(g);
      SameLine(src[..], g);
      ret, i, st := ReadSize(i0, max);
      if ret == 1 && g.at < max {
        BlankEnd(g);
      }
    }

    lemma ReadyParts()
      requires Ready(20)
      ensures Passed(g) && Held(src[..], g) && g.from <= g.at <= |g.text| <= src.Length
    {
      hide ReadLine, Chunks, Passed;
    }

    /** Behind the closing size line. */
    method Close()
      requires Counted() && tmpVar2 == 0
      modifies this`tmpVar4, this`recvLen
      ensures recvLen == g.from + |g.got| + (|g.text| - tmpVar3) - 2 - g.drift && g.from + |g.got| <= src.Length
      ensures g.clean ==> src[g.from..g.from + |g.got|] == g.got && src[..g.from] == g.text[..g.from]
    {
      hide ReadLine, Chunks, Passed, Held;
      Bounds(src[..], g);
      CleanStraight(g);
      if g.clean {
        HeldParts(src[..], g);
      }
      tmpVar4 := tmpVar4 - 2;
      recvLen := recvLen + tmpVar4;
    }
  }

  // ---------------------------------------------------------------------------
  // A body received in several reads
  // ---------------------------------------------------------------------------

  /** The bytes of size lines, and the sizes, that are counted once more after reads that ended at `cuts`. */
  datatype Again = Again(lines: nat, sizes: nat)

  ghost predicate Within(s: seq<byte>, h: nat, cuts: seq<nat>) {
    forall k :: 0 <= k < |cuts| ==> h <= cuts[k] <= |s|
  }

  ghost function ReadUpTo(s: seq<byte>, h: nat, c: nat): Reading
    requires h <= c <= |s|
  {
    Chunks(s[..c], h)
  }

  ghost function CountedAgain(s: seq<byte>, h: nat, cuts: seq<nat>): Again
    requires Within(s, h, cuts)
  {
    if cuts == [] then Again(0, 0)
    else
      var before := CountedAgain(s, h, cuts[..|cuts| - 1]);
      match ReadUpTo(s, h, cuts[|cuts| - 1])
      case InChunk(line, len) => Again(before.lines + line, before.sizes + len)
      case _ => before
  }

  ghost predicate AllBetween(s: seq<byte>, h: nat, cuts: seq<nat>)
    requires Within(s, h, cuts)
  {
    forall k :: 0 <= k < |cuts| ==> ReadUpTo(s, h, cuts[k]).Between?
  }

  ghost predicate AllMissing(s: seq<byte>, h: nat, cuts: seq<nat>)
    requires Within(s, h, cuts)
  {
    forall k :: 0 <= k < |cuts| ==> ReadUpTo(s, h, cuts[k]).Between? || ReadUpTo(s, h, cuts[k]).InChunk?
  }

  ghost predicate Rising(cuts: seq<nat>) {
    forall k :: 0 < k < |cuts| ==> cuts[k - 1] <= cuts[k]
  }

  /** hc_httpc_read on a body of the standard's form: reads that end at `cuts`, and a call after each. All of them are
      used if and only if none but the last ends inside a size line or behind the last one. Then the content length is
      that of the payload plus the sizes of the chunks reads have ended in, and the buffer's length is too short by
      their size lines; so both are right if and only if every read but the last has ended between two chunks, and then
      the payload stands right behind the untouched head. */
  method ReceiveReads(buf: array<byte>, headerLen: nat, cuts: seq<nat>, ghost payload: seq<byte>)
    returns (ret: int, used: nat, r: ChunkReader)
    requires cuts != [] && Rising(cuts) && headerLen <= cuts[0] && cuts[|cuts| - 1] <= buf.Length
    requires Within(buf[..cuts[|cuts| - 1]], headerLen, cuts) && InForm(buf[..cuts[|cuts| - 1]], headerLen, payload)
    requires CountedAgain(buf[..cuts[|cuts| - 1]], headerLen, cuts[..|cuts| - 1]).lines <= headerLen
    modifies buf
    ensures r.src == buf && 1 <= used <= |cuts|
    ensures var was, early := old(buf[..cuts[|cuts| - 1]]), cuts[..|cuts| - 1];
            && (used == |cuts| <==> AllMissing(was, headerLen, early))
            && (used == |cuts| ==>
                  && ret == 0
                  && r.recvLen == headerLen + |payload| - CountedAgain(was, headerLen, early).lines
                  && r.rspContentLen == |payload| + CountedAgain(was, headerLen, early).sizes
                  && (r.recvLen == headerLen + |payload| <==> AllBetween(was, headerLen, early))
                  && (r.rspContentLen == |payload| <==> AllBetween(was, headerLen, early)))
            && (AllBetween(was, headerLen, early) ==>
                  && headerLen + |payload| <= buf.Length && buf[headerLen..headerLen + |payload|] == payload
                  && buf[..headerLen] == was[..headerLen])
  {
    hide Chunks, InForm, CountedAgain, AllMissing, AllBetween, Midway;
    ghost var was, early := buf[..cuts[|cuts| - 1]], cuts[..|cuts| - 1];
    r := new ChunkReader(buf, headerLen, headerLen);
    NothingYet(r, was, headerLen, cuts);
    used := 0;
    while true
      invariant used < |cuts| && r.src == buf && Midway(r, was, headerLen, cuts, used)
      decreases |cuts| - used
    {
      ghost var k := used;
      SoFar(r, was, headerLen, cuts, k);
      ret := ReadOnce(r, was, headerLen, payload, cuts, used);
      used := used + 1;
      if ret <= 0 {
        if used == |cuts| {
          LinesZero(was, headerLen, early);
        } else {
          StoppedEarly(was, headerLen, cuts, k);
        }
        return;
      }
    }
  }

  /** After `k` reads that all ended before the closing size line. */
  ghost predicate Midway(r: ChunkReader, s: seq<byte>, h: nat, cuts: seq<nat>, k: nat)
    requires h <= |s| && k <= |cuts| && Within(s, h, cuts)
    reads r, r.src
  {
    var at, so := if k == 0 then h else cuts[k - 1], cuts[..k];
    && r.Saved() && r.g.from == h && r.g.text == s[..at]
    && Again(r.g.drift, r.g.extra) == CountedAgain(s, h, so)
    && r.g.clean == AllBetween(s, h, so) && AllMissing(s, h, so)
    && |s| <= r.src.Length && r.src[at..|s|] == s[at..]
  }

  /** One turn of the loop. */
  method ReadOnce(r: ChunkReader, ghost s: seq<byte>, ghost h: nat, ghost payload: seq<byte>, cuts: seq<nat>, k: nat)
    returns (ret: int)
    requires k < |cuts| && h <= cuts[0] && Rising(cuts) && Within(s, h, cuts) && cuts[|cuts| - 1] == |s|
    requires InForm(s, h, payload) && Midway(r, s, h, cuts, k) && r.g.drift <= h
    modifies r, r.src
    ensures k + 1 == |cuts| ==>
      && ret == 0 && r.recvLen == h + |payload| - old(r.g.drift) && r.rspContentLen == |payload| + old(r.g.extra)
      && (old(r.g.clean) ==> && h + |payload| <= r.src.Length && r.src[h..h + |payload|] == payload
                             && r.src[..h] == s[..h])
    ensures k + 1 < |cuts| ==>
      if ReadUpTo(s, h, cuts[k]).Between? || ReadUpTo(s, h, cuts[k]).InChunk?
          then ret > 0 && Midway(r, s, h, cuts, k + 1)
      else ret <= 0
  {
    hide Chunks, InForm, CountedAgain, AllMissing, AllBetween, ChunkReader.Saved, ChunkReader.Answers;
    MidPoint(r, s, h, cuts, k);
    ghost var c, was := cuts[k], r.src[..];
    r.Receive(cuts[k] - r.recvLen);
    CutRead(s, h, payload, c);
    ghost var g := r.g;
    ret := r.CheckBodyChunk();
    if k + 1 == |cuts| {
      assert s[..c] == s;
      AllRead(r, ret, g, payload);
    } else {
      RestKept(was, r.src[..], s, c);
      Onwards(r, ret, g, s, h, cuts, k);
    }
  }

  lemma AllRead(r: ChunkReader, ret: int, g: Progress, payload: seq<byte>)
    requires r.Answers(ret, g) && var d := Chunks(g.text, g.from); d.Body? && d.payload == payload && d.tail == 2
    ensures ret == 0 && r.recvLen == g.from + |payload| - g.drift && r.rspContentLen == |payload| + g.extra
    ensures g.clean ==> && g.from + |payload| <= r.src.Length && r.src[g.from..g.from + |payload|] == payload
                        && r.src[..g.from] == g.text[..g.from]
  {
    hide Chunks, ChunkReader.Saved;
  }

  lemma Onwards(r: ChunkReader, ret: int, g: Progress, s: seq<byte>, h: nat, cuts: seq<nat>, k: nat)
    requires k < |cuts| && Within(s, h, cuts) && r.Answers(ret, g) && g.text == s[..cuts[k]] && g.from == h
    requires Again(g.drift, g.extra) == CountedAgain(s, h, cuts[..k]) && g.clean == AllBetween(s, h, cuts[..k])
    requires AllMissing(s, h, cuts[..k]) && |s| <= r.src.Length && r.src[cuts[k]..|s|] == s[cuts[k]..]
    requires ReadUpTo(s, h, cuts[k]).Between? && cuts[k] > h ==> s[cuts[k] - 1] == LF
    ensures if ReadUpTo(s, h, cuts[k]).Between? || ReadUpTo(s, h, cuts[k]).InChunk?
        then ret > 0 && Midway(r, s, h, cuts, k + 1)
            else ret <= 0
  {
    hide Chunks, CountedAgain, AllMissing, AllBetween, ChunkReader.Saved;
    CountedGrows(s, h, cuts, k);
    AllMore(s, h, cuts, k);
  }

  lemma RestKept(was: seq<byte>, now: seq<byte>, s: seq<byte>, c: nat)
    requires c <= |s| <= |was| == |now| && now[c..] == was[c..] && was[c..|s|] == s[c..]
    ensures now[c..|s|] == s[c..]
  {
    assert now[c..|s|] == now[c..][..|s| - c];
    assert was[c..|s|] == was[c..][..|s| - c];
  }

  lemma MidPoint(r: ChunkReader, s: seq<byte>, h: nat, cuts: seq<nat>, k: nat)
    requires k < |cuts| && h <= cuts[0] && Rising(cuts) && Within(s, h, cuts) && Midway(r, s, h, cuts, k)
    ensures 0 <= r.recvLen <= cuts[k] <= |s| <= r.src.Length && r.Saved() && r.g.from == h
    ensures r.g.text + r.src[r.recvLen..cuts[k]] == s[..cuts[k]] && r.src[cuts[k]..|s|] == s[cuts[k]..]
    ensures r.src[..][cuts[k]..|s|] == s[cuts[k]..]
  {
    hide Chunks, CountedAgain, AllMissing, AllBetween;
    var at, c := if k == 0 then h else cuts[k - 1], cuts[k];
    assert r.src[at..c] == r.src[at..|s|][..c - at] == s[at..][..c - at];
    assert s[..c] == s[..at] + s[at..][..c - at];
    assert r.src[c..|s|] == r.src[at..|s|][c - at..] == s[at..][c - at..];
  }

  lemma AllMore(s: seq<byte>, h: nat, cuts: seq<nat>, k: nat)
    requires Within(s, h, cuts) && k < |cuts|
    ensures var d := ReadUpTo(s, h, cuts[k]);
            && (AllBetween(s, h, cuts[..k + 1]) <==> AllBetween(s, h, cuts[..k]) && d.Between?)
            && (AllMissing(s, h, cuts[..k + 1]) <==> AllMissing(s, h, cuts[..k]) && (d.Between? || d.InChunk?))
  {
    hide Chunks;
    assert cuts[..k + 1] == cuts[..k] + [cuts[k]];
  }

  // ---------------------------------------------------------------------------
  // Steps of a reader
  // ---------------------------------------------------------------------------

  lemma NothingPassed(text: seq<byte>, from: nat)
    requires from <= |text|
    ensures Passed(Progress(text, from, [], 0, true, from, 0, 0, true))
  {
    hide Chunks;
    var g := Progress(text, from, [], 0, true, from, 0, 0, true);
    forall ext ensures Chunks(text + ext, from) == Join([], 0, true, Chunks(text + ext, from)) {
      JoinNothing(Chunks(text + ext, from));
    }
  }

  lemma JoinNothing(d: Reading)
    ensures Join([], 0, true, d) == d
  {
    if d.Body? {
      assert [] + d.payload == d.payload;
    }
  }

  lemma JoinTwice(p: seq<byte>, a: nat, f: bool, q: seq<byte>, b: nat, g: bool, d: Reading)
    ensures Join(p, a, f, Join(q, b, g, d)) == Join(p + q, a + b, f && g, d)
  {
    if d.Body? {
      assert p + (q + d.payload) == p + q + d.payload;
    }
  }

  lemma MoreReceived(g: Progress, more: seq<byte>)
    requires Passed(g)
    ensures Passed(g.(text := g.text + more))
  {
    hide Chunks;
    var text := g.text + more;
    forall ext ensures Chunks(text + ext, g.from) == Join(g.got, g.removed, g.strict, Chunks(text + ext, g.at)) {
      assert text + ext == g.text + (more + ext);
    }
  }

  lemma MoreHeld(now: seq<byte>, g: Progress, more: seq<byte>)
    requires Held(now, g) && |g.text| + |more| <= |now| && more == now[|g.text|..|g.text| + |more|]
    ensures Held(now, g.(text := g.text + more))
  {
    assert now[g.at..|g.text| + |more|] == now[g.at..|g.text|] + more;
    assert (g.text + more)[g.at..] == g.text[g.at..] + more;
    assert (g.text + more)[..g.from] == g.text[..g.from];
  }

  lemma LineDoneMore(g: Progress, more: seq<byte>, line: int, len: int, next: int)
    requires LineDone(g, line, len, next)
    ensures LineDone(g.(text := g.text + more), line, len, next)
  {
    hide ReadLine;
    ReadLineMore(g.text, more, g.at);
  }

  lemma Bounds(now: seq<byte>, g: Progress)
    requires Held(now, g)
    ensures g.from + |g.got| <= g.at <= |g.text| <= |now|
  {}

  lemma HeldParts(now: seq<byte>, g: Progress)
    requires Held(now, g) && g.clean
    ensures now[g.from..g.from + |g.got|] == g.got && now[..g.from] == g.text[..g.from]
  {}

  lemma CleanStraight(g: Progress)
    requires Passed(g)
    ensures g.clean ==> g.drift == 0
    ensures g.from + |g.got| + g.removed == g.at
  {
    hide Chunks;
  }

  lemma ChunkPassed(g: Progress, len: nat, next: nat) returns (one: bool)
    requires Passed(g) && ReadLine(g.text, g.at) == Size(len, next) && len > 0 && next + len + 2 <= |g.text|
    ensures g.at <= next && Passed(Taken(g, next, len, one))
  {
    hide ReadLine, Chunks, StrictLine, Crlf;
    one := StrictLine(g.text, g.at, next) && Crlf(g.text, next + len);
    var t := Taken(g, next, len, one);
    forall ext ensures Chunks(g.text + ext, g.from) == Join(t.got, t.removed, t.strict, Chunks(g.text + ext, t.at)) {
      var u := g.text + ext;
      ReadLineMore(g.text, ext, g.at);
      CrlfMore(g.text, ext, next + len);
      OneChunkRead(u, g.at, len, next);
      assert u[next..next + len] == g.text[next..next + len];
      JoinTwice(g.got, g.removed, g.strict, g.text[next..next + len], next - g.at + 2, one, Chunks(u, t.at));
    }
  }

  lemma CrlfMore(s: seq<byte>, ext: seq<byte>, i: nat)
    requires i + 2 <= |s|
    ensures Crlf(s + ext, i) == Crlf(s, i)
  {}

  lemma OneChunkRead(s: seq<byte>, i: nat, len: nat, next: nat)
    requires i <= |s| && ReadLine(s, i) == Size(len, next) && len > 0 && next + len + 2 <= |s|
    ensures var strict := StrictLine(s, i, next) && Crlf(s, next + len);
            Chunks(s, i) == Join(s[next..next + len], next - i + 2, strict, Chunks(s, next + len + 2))
  {
    hide ReadLine, StrictLine, Crlf;
  }

  lemma RestMoved(was: seq<byte>, now: seq<byte>, s: seq<byte>, at: nat, i: nat, len: nat)
    requires at < i && i + len + 2 <= |s| <= |was| == |now| && was[at..|s|] == s[at..]
    requires now[i + len..] == was[i + len..]
    ensures was[i..i + len] == s[i..i + len] && now[i + len + 2..|s|] == s[i + len + 2..]
  {
    forall k | i <= k < |s| ensures was[k] == s[k] {
      assert was[k] == was[at..|s|][k - at] == s[at..][k - at];
    }
    forall k | i + len <= k < |s| ensures now[k] == was[k] {
      assert now[k] == now[i + len..][k - i - len] == was[i + len..][k - i - len];
    }
  }

  lemma FrontMoved(was: seq<byte>, now: seq<byte>, h: nat, p: seq<byte>, more: seq<byte>)
    requires h + |p| + |more| <= |now| == |was| && was[h..h + |p|] == p
    requires now[..h + |p|] == was[..h + |p|] && now[h + |p|..h + |p| + |more|] == more
    ensures now[..h] == was[..h] && now[h..h + |p + more|] == p + more
  {
    assert now[..h] == now[..h + |p|][..h] == was[..h];
    assert now[h..h + |p|] == now[..h + |p|][h..] == was[h..h + |p|];
    assert now[h..h + |p + more|] == now[h..h + |p|] + now[h + |p|..h + |p| + |more|];
  }

  lemma MovedParts(was: seq<byte>, now: seq<byte>, g: Progress, i: nat, len: nat, one: bool)
    requires Held(was, g) && |was| == |now| && g.at < i && i + len + 2 <= |g.text| && g.drift <= g.from
    requires g.clean ==> g.drift == 0
    requires var to := g.from + |g.got| - g.drift;
             now[to..to + len] == was[i..i + len] && now[..to] == was[..to] && now[i + len..] == was[i + len..]
    ensures Held(now, Taken(g, i, len, one))
  {
    RestMoved(was, now, g.text, g.at, i, len);
    if g.clean {
      FrontMoved(was, now, g.from, g.got, g.text[i..i + len]);
    }
  }

  lemma Cases(g: Progress)
    requires Passed(g) && Chunks(g.text, g.from) != Huge
    ensures var d := Chunks(g.text, g.from);
            match ReadLine(g.text, g.at)
            case OnlyBlanks => d == Between
            case CutLine => d == CutSize
            case BadLine => d == Malformed
            case TooLong => false
            case Size(len, next) =>
              && (len == 0 ==> d.Body? && d.payload == g.got && d.tail == |g.text| - next)
              && (len > 0 && next + len + 2 > |g.text| ==> d == InChunk(next - g.at, len))
  {
    hide ReadLine, StrictLine, Crlf;
    assert g.text + [] == g.text;
    assert g.got + [] == g.got;
  }

  lemma SameLine(now: seq<byte>, g: Progress)
    requires Held(now, g)
    ensures ReadLine(now[..|g.text|], g.at) == ReadLine(g.text, g.at)
  {
    hide ReadLine;
    assert now[..|g.text|][g.at..] == g.text[g.at..];
    ReadLineRest(now[..|g.text|], g.text, g.at);
  }

  /** A buffer that does not end in a blank has no blanks behind its last chunk. */
  lemma {:induction false} NoBlanks(s: seq<byte>, i: nat)
    requires i <= |s| && Blanks(s, i) == |s| && i < |s|
    ensures s[|s| - 1] == SP
    decreases |s| - i
  {
    if i + 1 < |s| {
      NoBlanks(s, i + 1);
    }
  }

  lemma BlankEnd(g: Progress)
    requires g.at <= |g.text| && ReadLine(g.text, g.at) == OnlyBlanks && g.at < |g.text|
    ensures g.text[|g.text| - 1] == SP
  {
    OnlyBlanksEnd(g.text, Blanks(g.text, g.at), 0, false);
    NoBlanks(g.text, g.at);
  }

  lemma {:induction false} OnlyBlanksEnd(s: seq<byte>, i: nat, n: nat, cr: bool)
    requires i <= |s|
    ensures SizeFrom(s, i, n, cr) != OnlyBlanks
    decreases |s| - i
  {
    if i < |s| && s[i] == CR {
      OnlyBlanksEnd(s, i + 1, n, true);
    } else if i < |s| && HexVal(s[i]).Some? {
      OnlyBlanksEnd(s, i + 1, n * 16 + HexVal(s[i]).value, cr);
    }
  }

  lemma ReadLineRest(a: seq<byte>, b: seq<byte>, i: nat)
    requires i <= |a| == |b| && a[i..] == b[i..]
    ensures ReadLine(a, i) == ReadLine(b, i)
  {
    BlanksRest(a, b, i);
    SizeRest(a, b, Blanks(a, i), 0, false);
  }

  lemma {:induction false} BlanksRest(a: seq<byte>, b: seq<byte>, i: nat)
    requires i <= |a| == |b| && a[i..] == b[i..]
    ensures Blanks(a, i) == Blanks(b, i) && a[Blanks(a, i)..] == b[Blanks(a, i)..]
    decreases |a| - i
  {
    if i < |a| {
      assert a[i] == a[i..][0] == b[i..][0] == b[i];
      assert a[i + 1..] == a[i..][1..] == b[i + 1..];
      if a[i] == SP {
        BlanksRest(a, b, i + 1);
      }
    }
  }

  lemma {:induction false} SizeRest(a: seq<byte>, b: seq<byte>, i: nat, n: nat, cr: bool)
    requires i <= |a| == |b| && a[i..] == b[i..]
    ensures SizeFrom(a, i, n, cr) == SizeFrom(b, i, n, cr)
    decreases |a| - i
  {
    if i < |a| {
      assert a[i] == a[i..][0] == b[i..][0] == b[i];
      assert a[i + 1..] == a[i..][1..] == b[i + 1..];
      if a[i] == CR {
        SizeRest(a, b, i + 1, n, true);
      } else if HexVal(a[i]).Some? {
        SizeRest(a, b, i + 1, n * 16 + HexVal(a[i]).value, cr);
      }
    }
  }

  lemma CountedGrows(s: seq<byte>, h: nat, cuts: seq<nat>, k: nat)
    requires Within(s, h, cuts) && k < |cuts|
    ensures var before, d := CountedAgain(s, h, cuts[..k]), ReadUpTo(s, h, cuts[k]);
            CountedAgain(s, h, cuts[..k + 1]) ==
              if d.InChunk? then Again(before.lines + d.line, before.sizes + d.len) else before
  {
    hide Chunks;
    assert cuts[..k + 1][..k] == cuts[..k];
  }

  lemma {:induction false} CountedBelow(s: seq<byte>, h: nat, cuts: seq<nat>, k: nat)
    requires Within(s, h, cuts) && k <= |cuts|
    ensures CountedAgain(s, h, cuts[..k]).lines <= CountedAgain(s, h, cuts).lines
    decreases |cuts| - k
  {
    if k < |cuts| {
      CountedGrows(s, h, cuts, k);
      CountedBelow(s, h, cuts, k + 1);
    } else {
      assert cuts[..k] == cuts;
    }
  }

  /** What a read that ends at `c` finds of a body of the standard's form. */
  lemma CutRead(s: seq<byte>, h: nat, payload: seq<byte>, c: nat)
    requires h <= c <= |s| && InForm(s, h, payload)
    ensures var d := ReadUpTo(s, h, c);
            && !d.Malformed? && !d.Huge? && (d.Between? && c > h ==> s[c - 1] == LF)
            && (d.Body? && c < |s| ==> d.tail < 2)
            && (c == |s| ==> d.Body? && d.payload == payload && d.tail == 2)
  {
    hide Chunks;
    var cs: seq<Chunk>, last: seq<byte> :|
      ChunksOk(cs) && Zeros(last) && s[h..] == ChunkTexts(cs) + (last + [CR, LF]) + [CR, LF] && payload == DataOf(cs);
    PrefixRead(s, h, cs, last, c);
    if c == |s| {
      assert s[..c] == s;
      CompleteIff(s, h, payload);
    }
  }

  lemma {:induction false} LinesZero(s: seq<byte>, h: nat, cuts: seq<nat>)
    requires Within(s, h, cuts) && AllMissing(s, h, cuts)
    ensures CountedAgain(s, h, cuts).lines == 0 <==> AllBetween(s, h, cuts)
    ensures CountedAgain(s, h, cuts).sizes == 0 <==> AllBetween(s, h, cuts)
    decreases |cuts|
  {
    hide Chunks;
    if cuts != [] {
      var less := cuts[..|cuts| - 1];
      LinesZero(s, h, less);
      assert forall k :: 0 <= k < |less| ==> less[k] == cuts[k];
    }
  }

  lemma NothingYet(r: ChunkReader, s: seq<byte>, h: nat, cuts: seq<nat>)
    requires h <= |s| <= r.src.Length && Within(s, h, cuts) && s == r.src[..|s|]
    requires r.Saved() && r.g.from == h && r.g.text == r.src[..h] && r.g.clean
    ensures Midway(r, s, h, cuts, 0)
  {
    hide Chunks;
    assert cuts[..0] == [];
    assert r.src[h..|s|] == r.src[..|s|][h..];
    assert s[..h] == r.src[..h];
  }

  lemma SoFar(r: ChunkReader, s: seq<byte>, h: nat, cuts: seq<nat>, k: nat)
    requires h <= |s| && k < |cuts| && Within(s, h, cuts) && Midway(r, s, h, cuts, k)
    ensures var early := cuts[..|cuts| - 1];
            && r.g.drift <= CountedAgain(s, h, early).lines
            && (k + 1 == |cuts| ==> && Again(r.g.drift, r.g.extra) == CountedAgain(s, h, early)
                                    && r.g.clean == AllBetween(s, h, early) && AllMissing(s, h, early))
  {
    hide Chunks, CountedAgain, AllBetween, AllMissing;
    var early := cuts[..|cuts| - 1];
    assert cuts[..k] == early[..k];
    CountedBelow(s, h, early, k);
    if k + 1 == |cuts| {
      assert early[..k] == early;
    }
  }

  lemma StoppedEarly(s: seq<byte>, h: nat, cuts: seq<nat>, k: nat)
    requires Within(s, h, cuts) && k + 1 < |cuts|
    requires !ReadUpTo(s, h, cuts[k]).Between? && !ReadUpTo(s, h, cuts[k]).InChunk?
    ensures var early := cuts[..|cuts| - 1]; !AllMissing(s, h, early) && !AllBetween(s, h, early)
  {
    hide Chunks;
    assert cuts[..|cuts| - 1][k] == cuts[k];
  }

  /** What was sent in pieces is received in one read: on a buffer with a head and the chunks of a finished response the
      reader answers 0, leaves the joined pieces right behind the untouched head, and the buffer's length is that of
      both. */
  method ReceivePieces(buf: array<byte>, recvLen: nat, headerLen: nat, ghost pieces: seq<seq<byte>>)
    returns (ret: int, r: ChunkReader)
    requires headerLen <= recvLen <= buf.Length && Pieces(pieces) && buf[headerLen..recvLen] == Frames(pieces) + LAST
    modifies buf
    ensures ret == 0 && r.src == buf && r.recvLen == headerLen + |Joined(pieces)| <= buf.Length
    ensures buf[..headerLen] == old(buf[..headerLen]) && buf[headerLen..r.recvLen] == Joined(pieces)
    ensures r.rspContentLen == |Joined(pieces)|
  {
    hide Chunks, Frames, InForm;
    r := new ChunkReader(buf, recvLen, headerLen);
    assert buf[..recvLen][headerLen..] == buf[headerLen..recvLen];
    FramesRead(buf[..recvLen], headerLen, pieces);
    ghost var g := r.g;
    ret := r.CheckBodyChunk();
    AllRead(r, ret, g, Joined(pieces));
  }

  /** A body is refused whose size line goes on behind its digits with anything but CRLF, a further digit or the end of
      the buffer. */
  method RefuseBody(buf: array<byte>, recvLen: nat, headerLen: nat, ghost cs: seq<Chunk>, ghost t: seq<byte>,
                    ghost n: nat,
                    ghost bad: seq<byte>, ghost rest: seq<byte>) returns (ret: int)
    requires headerLen <= recvLen <= buf.Length && ChunksOk(cs) && RefusedEnd(t, bad)
    requires ValueFrom(0, 16, t) == Some(n) && n < INT_LIMIT
    requires buf[headerLen..recvLen] == ChunkTexts(cs) + (t + bad + rest)
    modifies buf
    ensures ret == -1
  {
    hide Chunks, ChunkTexts, RefusedEnd, ValueFrom;
    var r := new ChunkReader(buf, recvLen, headerLen);
    assert buf[..recvLen][headerLen..] == buf[headerLen..recvLen];
    SizeRefused(buf[..recvLen], headerLen, cs, t, n, bad, rest);
    ret := r.CheckBodyChunk();
  }
}
