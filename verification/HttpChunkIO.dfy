/** The writer of the chunked transfer coding: hc_http_write and hc_http_finish of src/http/http_util.c. */
module HttpChunkIO {
  import opened Bytes
  import opened NumText
  import opened HttpChunk

  // ---------------------------------------------------------------------------
  // The writer
  // ---------------------------------------------------------------------------

  class Response {
    /** The response head for chunked and for plain bodies of a length. */
    const head: (bool, nat) -> seq<byte>
    const isHead: bool
    var finished: bool
    var tranEnc: bool
    var srvBufLen: nat
    /** All that has been written to the connection. */
    var sent: seq<byte>

    constructor (head: (bool, nat) -> seq<byte>, isHead: bool)
      ensures this.head == head && this.isHead == isHead && !finished && !tranEnc && srvBufLen == 0 && sent == []
    {
      this.head, this.isHead := head, isHead;
      finished, tranEnc, srvBufLen, sent := false, false, 0, [];
    }

    /** What goes out before the body: the head, once. */
    ghost function Opening(chunked: bool, n: nat): seq<byte>
      reads this
    {
      if srvBufLen == 0 then head(chunked, n) else []
    }

    /** The size line of a chunk, formed at the end of a buffer of 20 bytes. */
    method SizeText(n: nat) returns (line: seq<byte>)
      requires n < INT_LIMIT
      ensures line == Text(n, 16) + [CR, LF]
    {
      var tmpBuf := new byte[20];
      Width(n, 16);
      var at, len := NumToStr(n, 16, tmpBuf, 17);
      ghost var text := tmpBuf[at..18];
      tmpBuf[at + len] := CR;
      tmpBuf[at + len + 1] := LF;
      line := tmpBuf[at..at + len + 2];
      assert line[..len] == text && line == line[..len] + [CR, LF];
    }

    method SendHead(n: nat)
      modifies this`srvBufLen, this`sent
      ensures sent == old(sent) + old(Opening(tranEnc, n))
      ensures srvBufLen == if old(srvBufLen) == 0 then |head(tranEnc, n)| else old(srvBufLen)
    {
      if 0 == srvBufLen {
        var text := head(tranEnc, n);
        srvBufLen := |text|;
        sent := sent + text;
      }
    }

    /** A size line, the data, and the line end once more. */
    method SendChunk(data: seq<byte>)
      requires |data| < INT_LIMIT
      modifies this`sent
      ensures sent == old(sent) + ChunkText(data)
    {
      hide Text;
      var line := SizeText(|data|);
      ghost var was := sent;
      sent := sent + line;
      sent := sent + data;
      sent := sent + line[|line| - 2..];
      assert line[|line| - 2..] == [CR, LF];
      assert sent == was + (line + data + [CR, LF]);
    }

    /** hc_http_write: a chunk, or the closing chunk for empty data. */
    method Write(data: seq<byte>)
      requires |data| < INT_LIMIT
      modifies this
      ensures old(finished) ==> unchanged(this)
      ensures !old(finished) ==>
        && tranEnc && finished == (!isHead && data == [])
        && srvBufLen == (if old(srvBufLen) == 0 then |head(true, |data|)| else old(srvBufLen))
        && sent == old(sent) + old(Opening(true, |data|)) +
               (if isHead then [] else if data == [] then LAST else ChunkText(data))
    {
      hide ChunkText;
      if finished {
        return;
      }
      tranEnc := true;
      SendHead(|data|);
      if isHead {
        return;
      }
      if 0 < |data| {
        SendChunk(data);
      } else {
        sent := sent + LAST;
        finished := true;
      }
    }

    /** The end of a chunked body: a last chunk, if there is data, and the closing chunk. */
    method SendEnding(data: seq<byte>)
      requires |data| < INT_LIMIT
      modifies this`sent
      ensures sent == old(sent) + LastPart(data)
    {
      hide Text;
      if 0 < |data| {
        var line := SizeText(|data|);
        ghost var was := sent;
        sent := sent + line;
        sent := sent + data;
        sent := sent + ([CR, LF] + LAST);
        assert sent == was + (line + data + [CR, LF] + LAST);
        assert ChunkText(data) == line + data + [CR, LF];
      } else {
        sent := sent + LAST;
        assert LastPart(data) == LAST;
      }
    }

    /** hc_http_finish: the rest of the body and, after chunks, the closing chunk. */
    method Finish(data: seq<byte>)
      requires |data| < INT_LIMIT
      modifies this
      ensures old(finished) ==> unchanged(this)
      ensures !old(finished) ==>
        && finished && tranEnc == old(tranEnc)
        && sent == old(sent) + old(Opening(tranEnc, |data|)) +
               (if isHead then [] else if tranEnc then LastPart(data) else data)
    {
      hide LastPart;
      if finished {
        return;
      }
      finished := true;
      SendHead(|data|);
      if isHead {
        return;
      }
      if tranEnc {
        SendEnding(data);
      } else if 0 < |data| {
        sent := sent + data;
      }
    }

    /** One more piece, when the head has gone out. */
    method WriteMore(piece: seq<byte>)
      requires 0 < |piece| < INT_LIMIT && !finished && srvBufLen > 0 && !isHead
      modifies this
      ensures sent == old(sent) + ChunkText(piece) && !finished && tranEnc && srvBufLen > 0
    {
      hide ChunkText;
      Write(piece);
      assert sent == old(sent) + [] + ChunkText(piece);
    }

    /** A response made of pieces: the head, one chunk for each piece, and the closing chunk. */
    method SendAll(pieces: seq<seq<byte>>)
      requires Pieces(pieces) && pieces != [] && !finished && srvBufLen == 0 && !isHead && sent == []
      requires head(true, |pieces[0]|) != []
      modifies this
      ensures finished && sent == head(true, |pieces[0]|) + (Frames(pieces) + LAST)
    {
      hide ChunkText, Frames, LastPart;
      ghost var h := head(true, |pieces[0]|);
      Write(pieces[0]);
      FramesBegin(h, pieces);
      for k := 1 to |pieces|
        invariant !finished && tranEnc && srvBufLen > 0 && sent == h + Frames(pieces[..k])
      {
        WriteMore(pieces[k]);
        FramesGrow(h, pieces, k);
      }
      Finish([]);
      FramesEnd(h, pieces);
    }
  }

  lemma FramesBegin(h: seq<byte>, pieces: seq<seq<byte>>)
    requires pieces != []
    ensures [] + h + ChunkText(pieces[0]) == h + Frames(pieces[..1])
  {
    hide ChunkText;
    FramesOne(pieces[0]);
    assert pieces[..1] == [pieces[0]];
  }

  lemma FramesGrow(h: seq<byte>, pieces: seq<seq<byte>>, k: nat)
    requires k < |pieces|
    ensures h + Frames(pieces[..k]) + ChunkText(pieces[k]) == h + Frames(pieces[..k + 1])
  {
    hide ChunkText, Frames;
    FramesLast(pieces[..k], pieces[k]);
    assert pieces[..k + 1] == pieces[..k] + [pieces[k]];
    assert h + Frames(pieces[..k]) + ChunkText(pieces[k]) == h + (Frames(pieces[..k]) + ChunkText(pieces[k]));
  }

  lemma FramesEnd(h: seq<byte>, pieces: seq<seq<byte>>)
    ensures h + Frames(pieces[..|pieces|]) + [] + LastPart([]) == h + (Frames(pieces) + LAST)
  {
    hide ChunkText, Frames;
    assert pieces[..|pieces|] == pieces;
    LastPartEmpty();
    Reassociate(h, Frames(pieces), LAST);
  }

  lemma LastPartEmpty()
    ensures LastPart([]) == LAST
  {
    assert [] + LAST == LAST;
  }

  lemma Reassociate(a: seq<byte>, b: seq<byte>, c: seq<byte>)
    ensures a + b + [] + c == a + (b + c)
  {}

  function LastPart(data: seq<byte>): seq<byte> {
    (if data == [] then [] else ChunkText(data)) + LAST
  }

  lemma FramesOne(p: seq<byte>)
    ensures Frames([p]) == ChunkText(p)
  {
    assert Frames([p]) == ChunkText(p) + Frames([p][1..]);
  }

  lemma {:induction false} FramesLast(pieces: seq<seq<byte>>, p: seq<byte>)
    ensures Frames(pieces + [p]) == Frames(pieces) + ChunkText(p)
    decreases |pieces|
  {
    if pieces == [] {
      assert Frames([p]) == ChunkText(p) + Frames([p][1..]);
    } else {
      assert (pieces + [p])[1..] == pieces[1..] + [p];
      FramesLast(pieces[1..], p);
    }
  }
}
