/** The coroutine memory pool of src/coroutine/co_memblock.c: one byte arena whose block headers lie
    in band, in front of the bytes they describe. The ghost field `blocks` is the list those headers spell out. */
module CoMemPool {
  import opened Bytes
  import opened MemBlocks
  import opened MemRuns

  /** Arenas fit in memory, so that 64-bit sums of an address and a 32-bit length never wrap. */
  const ARENA_LIMIT: nat := 0x8000_0000_0000_0000

  const SENTINEL: nat := 15

  datatype Header = Header(status: nat, kind: nat, lenData: nat, lenBlock: nat, topPre: nat, check: nat)

  /** The 32 header bytes: a byte of two 4-bit fields, padding, a 32-bit len_data and three 64-bit words. */
  function Decode(h: seq<byte>): (r: Header)
    requires |h| == HEADER
  {
    Header(h[0] % 16, h[0] / 16, FromLe(h[4..8]), FromLe(h[8..16]), FromLe(h[16..24]), FromLe(h[24..32]))
  }

  /** Storing one field changes that field and no other. */
  lemma FieldStored(h: seq<byte>, off: nat, n: nat, v: nat)
    requires |h| == HEADER && v < Pow256(n)
    requires (off == 4 && n == 4) || (n == 8 && (off == 8 || off == 16 || off == 24))
    ensures Decode(Overwrite(h, off, ToLe(v, n)))
         == if off == 4 then Decode(h).(lenData := v)
            else if off == 8 then Decode(h).(lenBlock := v)
            else if off == 16 then Decode(h).(topPre := v)
            else Decode(h).(check := v)
  {
    var r := Overwrite(h, off, ToLe(v, n));
    LoadUndoesStore(v, n);
    assert r[off..off + n] == ToLe(v, n);
    assert off != 4 ==> r[4..8] == h[4..8];
    assert off != 8 ==> r[8..16] == h[8..16];
    assert off != 16 ==> r[16..24] == h[16..24];
    assert off != 24 ==> r[24..32] == h[24..32];
  }

  class MemPool {
    var top: nat
    const max: nat
    const data: array<byte>
    ghost var blocks: seq<Block>

    ghost function State(): Pool
      reads this
    {
      Pool(blocks, top, max)
    }

    ghost function Slice(p: nat, n: nat): (s: seq<byte>)
      reads data
      ensures p + n <= data.Length ==> |s| == n
    {
      if p + n <= data.Length then data[p..p + n] else []
    }

    ghost function Hdr(p: nat): Header
      reads data
    {
      if p + HEADER <= data.Length then Decode(data[p..p + HEADER]) else Header(0, 0, 0, 0, 0, 0)
    }

    /** Header `h` and the bytes behind it are those of block `i`. */
    static ghost predicate Describes(h: Header, bytes: seq<byte>, bs: seq<Block>, i: nat)
      requires i < |bs|
    {
      && h.lenBlock == bs[i].len
      && (i > 0 ==> h.topPre == bs[i - 1].start)
      && match bs[i].use
         case Free => h.status == 0
         case Live(kind, payload) =>
           h.status == 1 && h.kind == kind && h.lenData == |payload| && h.check == bs[i].start && bytes == payload
    }

    static function Held(b: Block): nat {
      if b.use.Live? then |b.use.payload| else 0
    }

    /** The header of block `i` is in the arena as the block list says, and so are a live block's bytes. */
    ghost predicate Holds(bs: seq<Block>, i: nat)
      requires i < |bs|
      reads data
    {
      Describes(Hdr(bs[i].start), Slice(bs[i].start + HEADER, Held(bs[i])), bs, i)
    }

    ghost predicate Represents(bs: seq<Block>)
      reads data
    {
      && data.Length == max + HEADER
      && Hdr(max).status == SENTINEL
      && forall i :: 0 <= i < |bs| ==> Holds(bs, i)
    }

    ghost predicate Valid()
      reads this, data
    {
      max < ARENA_LIMIT && Shaped(State()) && Represents(blocks)
    }

    // -------------------------------------------------------------------------
    // Header fields: loads, and one C assignment each
    // -------------------------------------------------------------------------

    function Status(p: nat): (v: nat)
      requires p + HEADER <= data.Length
      reads data
      ensures v == Hdr(p).status
    {
      data[p] % 16
    }

    function Kind(p: nat): (v: nat)
      requires p + HEADER <= data.Length
      reads data
      ensures v == Hdr(p).kind && v < 16
    {
      data[p] / 16
    }

    function LenBlock(p: nat): (v: nat)
      requires p + HEADER <= data.Length
      reads data
      ensures v == Hdr(p).lenBlock
    {
      SliceOfSlice(data[..], p, HEADER, 8, 16);
      FromLe(data[p + 8..p + 16])
    }

    function TopPre(p: nat): (v: nat)
      requires p + HEADER <= data.Length
      reads data
      ensures v == Hdr(p).topPre
    {
      SliceOfSlice(data[..], p, HEADER, 16, 24);
      FromLe(data[p + 16..p + 24])
    }

    function LenData(p: nat): (v: nat)
      requires p + HEADER <= data.Length
      reads data
      ensures v == Hdr(p).lenData
    {
      SliceOfSlice(data[..], p, HEADER, 4, 8);
      FromLe(data[p + 4..p + 8])
    }

    function Check(p: nat): (v: nat)
      requires p + HEADER <= data.Length
      reads data
      ensures v == Hdr(p).check
    {
      SliceOfSlice(data[..], p, HEADER, 24, 32);
      FromLe(data[p + 24..p + 32])
    }

    /** Bytes stored within [p, p + n) leave every header and every payload outside that range as they were. */
    method Poke(p: nat, ghost n: nat, off: nat, bytes: seq<byte>)
      requires off + |bytes| <= n && p + n <= data.Length
      modifies data
      ensures Slice(p, n) == Overwrite(old(Slice(p, n)), off, bytes)
      ensures forall q: nat {:trigger Hdr(q)} :: q + HEADER <= p || p + n <= q ==> Hdr(q) == old(Hdr(q))
      ensures forall q: nat, m: nat {:trigger Slice(q, m)} ::
                q + m <= p || p + n <= q ==> Slice(q, m) == old(Slice(q, m))
    {
      ghost var was := data[p..p + n];
      CopyIn(data, p + off, bytes);
      SliceOfSlice(data[..], p, n, off, off + |bytes|);
      assert data[..][p..p + n] == data[p..p + n] && data[..][p + off..p + off + |bytes|]
          == data[p + off..p + off + |bytes|];
      OverwriteIs(was, data[p..p + n], off, bytes);
      forall q: nat, m: nat {:trigger Slice(q, m)} | q + m <= p || p + n <= q ensures Slice(q, m) == old(Slice(q, m)) {}
      forall q: nat | q + HEADER <= p || p + n <= q ensures Hdr(q) == old(Hdr(q)) {
        assert Slice(q, HEADER) == old(Slice(q, HEADER));
      }
    }

    method PutField(p: nat, off: nat, n: nat, v: nat)
      requires p + HEADER <= data.Length && v < Pow256(n)
      requires (off == 4 && n == 4) || (n == 8 && (off == 8 || off == 16 || off == 24))
      modifies data
      ensures Hdr(p) == var h := old(Hdr(p));
                        if off == 4 then h.(lenData := v) else if off == 8 then h.(lenBlock := v)
                        else if off == 16 then h.(topPre := v) else h.(check := v)
      ensures forall q: nat {:trigger Hdr(q)} :: q + HEADER <= p || p + HEADER <= q ==> Hdr(q) == old(Hdr(q))
      ensures forall q: nat, m: nat {:trigger Slice(q, m)} ::
                q + m <= p || p + HEADER <= q ==> Slice(q, m) == old(Slice(q, m))
    {
      FieldStored(data[p..p + HEADER], off, n, v);
      Poke(p, HEADER, off, ToLe(v, n));
    }

    method PutStatus(p: nat, status: nat, kind: nat)
      requires p + HEADER <= data.Length && status < 16 && kind < 16
      modifies data
      ensures Hdr(p) == old(Hdr(p)).(status := status, kind := kind)
      ensures forall q: nat {:trigger Hdr(q)} :: q + HEADER <= p || p + HEADER <= q ==> Hdr(q) == old(Hdr(q))
      ensures forall q: nat, m: nat {:trigger Slice(q, m)} ::
                q + m <= p || p + HEADER <= q ==> Slice(q, m) == old(Slice(q, m))
    {
      Poke(p, HEADER, 0, [kind * 16 + status]);
      assert forall lo, hi {:trigger data[p..p + HEADER][lo..hi]} ::
          1 <= lo <= hi <= HEADER ==> data[p..p + HEADER][lo..hi] == old(data[p..p + HEADER])[lo..hi];
    }

    // -------------------------------------------------------------------------
    // The three operations of the pool, and a payload write by a block's owner
    // -------------------------------------------------------------------------

    constructor (size: nat)
      requires 1 + size + HEADER < ARENA_LIMIT
      ensures Valid() && fresh(data)
      ensures State() == Pool([Block(1, size + HEADER, Free)], 1, 1 + size + HEADER)
    {
      top := 1;
      max := 1 + size + HEADER;
      data := new byte[1 + HEADER + size + HEADER](_ => 0);
      blocks := [Block(1, size + HEADER, Free)];
      new;
      Pow256Widths();
      assert data[1] == 0;
      PutField(1, 8, 8, size + HEADER);
      PutStatus(max, SENTINEL, Kind(max));
    }

    // -------------------------------------------------------------------------
    // Changes to the arena that change one or two entries of the block list
    // -------------------------------------------------------------------------

    lemma BlockHeader(bs: seq<Block>, k: nat)
      requires Gapless(bs, max) && Represents(bs) && k < |bs|
      ensures bs[k].End() + HEADER <= max + HEADER == data.Length && Hdr(bs[k].start).lenBlock == bs[k].len
              && (Hdr(bs[k].start).status == 0 <==> bs[k].use.Free?)
      ensures Hdr(max).status == SENTINEL
      ensures k > 0 ==> Hdr(bs[k].start).topPre == bs[k - 1].start
      ensures bs[k].use.Live? ==>
                var n := |bs[k].use.payload|;
                && Hdr(bs[k].start).lenData == n && Hdr(bs[k].start).check == bs[k].start
                && bs[k].start + HEADER + n <= bs[k].End() && Slice(bs[k].start + HEADER, n) == bs[k].use.payload
    {
      hide Decode, Hdr, Slice;
      InArena(bs, max, k);
      assert Holds(bs, k);
    }

    /** A live block's header and payload, found by its address. */
    lemma LiveHeader(st: nat)
      requires Valid() && IsLive(blocks, st)
      ensures var n := |blocks[IndexOf(blocks, st)].use.payload|;
        && st + HEADER + n <= max < data.Length && Hdr(st).status != 0 && Hdr(st).check == st && Hdr(st).lenData == n
        && Slice(st + HEADER, n) == data[st + HEADER..st + HEADER + n] == blocks[IndexOf(blocks, st)].use.payload
    {
      hide Decode, Hdr, Represents;
      BlockHeader(blocks, IndexOf(blocks, st));
    }

    /** The header at `next`, the block or sentinel behind block `k`, points back to it. */
    method LinkBack(next: nat, pos: nat, ghost bs: seq<Block>, ghost k: nat)
      requires Gapless(bs, max) && max < ARENA_LIMIT && Represents(bs) && k < |bs|
      requires pos == bs[k].start && next == bs[k].End()
      modifies data
      ensures Represents(bs)
      ensures forall q: nat, m: nat {:trigger Slice(q, m)} ::
                q + m <= next || next + HEADER <= q ==> Slice(q, m) == old(Slice(q, m))
    {
      hide Decode, Hdr, Slice, Pow256, Gapless, Status, Kind, LenBlock, TopPre, SplitAt, JoinAt;
      Pow256Widths();
      NextBlock(bs, max, k);
      Apart(bs, max, k);
      PutField(next, 16, 8, pos);
      forall i | 0 <= i < |bs| ensures Holds(bs, i) {
        assert old(Holds(bs, i));
        if k + 1 < |bs| { InOrder(bs, max, k + 1, i); }
      }
    }

    /** The free block `k` at `pos` becomes a live one of `n` bytes. */
    method Occupy(pos: nat, n: nat, kind: nat, ghost bs: seq<Block>, ghost k: nat)
      requires Gapless(bs, max) && max < ARENA_LIMIT && Represents(bs) && k < |bs|
      requires pos == bs[k].start && Fits(bs[k], n) && n < 0x1_0000_0000
      modifies data
      ensures |Slice(pos + HEADER, n)| == n
      ensures Represents(SetUse(bs, k, Live(kind % 16, Slice(pos + HEADER, n))))
    {
      hide Decode, Hdr, Slice, Pow256, Gapless, Status, Kind, LenBlock, TopPre, SplitAt, JoinAt;
      Pow256Widths();
      NextBlock(bs, max, k);
      Apart(bs, max, k);
      assert Holds(bs, k);
      PutStatus(pos, 1, kind % 16);
      PutField(pos, 4, 4, n);
      PutField(pos, 24, 8, pos);
      ghost var r := SetUse(bs, k, Live(kind % 16, Slice(pos + HEADER, n)));
      forall i | 0 <= i < |r| ensures Holds(r, i) {
        assert old(Holds(bs, i));
      }
    }

    /** The live block `k` at `st` becomes free; its other header fields and its bytes stay. */
    method Vacate(st: nat, ghost bs: seq<Block>, ghost k: nat)
      requires Gapless(bs, max) && max < ARENA_LIMIT && Represents(bs) && k < |bs| && st == bs[k].start
      modifies data
      ensures Represents(SetUse(bs, k, Free))
      ensures Hdr(st) == old(Hdr(st)).(status := 0, check := 0)
      ensures forall q: nat {:trigger Hdr(q)} :: q + HEADER <= st || st + HEADER <= q ==> Hdr(q) == old(Hdr(q))
      ensures forall q: nat, m: nat {:trigger Slice(q, m)} ::
                q + m <= st || st + HEADER <= q ==> Slice(q, m) == old(Slice(q, m))
    {
      hide Decode, Hdr, Slice, Pow256, Gapless, Status, Kind, LenBlock, TopPre, SplitAt, JoinAt;
      Pow256Widths();
      NextBlock(bs, max, k);
      Apart(bs, max, k);
      assert Holds(bs, k);
      PutField(st, 24, 8, 0);
      PutStatus(st, 0, Kind(st));
      ghost var r := SetUse(bs, k, Free);
      forall i | 0 <= i < |r| ensures Holds(r, i) {
        assert old(Holds(bs, i));
      }
    }

    method CutHeaders(pos: nat, len: nat, lenBlock: nat)
      requires HEADER <= len && len + HEADER <= lenBlock
      requires pos + lenBlock + HEADER <= data.Length <= ARENA_LIMIT + HEADER
      modifies data
      ensures Hdr(pos) == old(Hdr(pos)).(lenBlock := len)
      ensures Hdr(pos + len).status == 0 && Hdr(pos + len).lenBlock == lenBlock - len && Hdr(pos + len).topPre == pos
      ensures Hdr(pos + lenBlock) == old(Hdr(pos + lenBlock)).(topPre := pos + len)
      ensures forall q: nat {:trigger Hdr(q)} ::
                q + HEADER <= pos || pos + lenBlock + HEADER <= q ==> Hdr(q) == old(Hdr(q))
      ensures forall q: nat, m: nat {:trigger Slice(q, m)} ::
                q + m <= pos || pos + lenBlock + HEADER <= q ==> Slice(q, m) == old(Slice(q, m))
    {
      hide Decode, Hdr, Slice, Pow256, Gapless, Status, Kind, LenBlock, TopPre, SplitAt, JoinAt;
      Pow256Widths();
      var rest, next := pos + len, pos + lenBlock;
      PutField(pos, 8, 8, len);
      PutField(next, 16, 8, rest);
      PutField(rest, 16, 8, pos);
      PutStatus(rest, 0, Kind(rest));
      PutField(rest, 8, 8, lenBlock - len);
    }

    /** The free block `k` at `pos` is cut after `len` bytes. */
    method SplitOff(pos: nat, len: nat, ghost bs: seq<Block>, ghost k: nat)
      requires Gapless(bs, max) && max < ARENA_LIMIT && Represents(bs) && k < |bs|
      requires pos == bs[k].start && bs[k].use.Free? && HEADER <= len && len + HEADER < bs[k].len
      modifies data
      ensures Represents(SplitAt(bs, k, len))
    {
      hide Decode, Hdr, Slice, Pow256, Gapless, Status, Kind, LenBlock, TopPre, SplitAt, JoinAt;
      Pow256Widths();
      NextBlock(bs, max, k);
      Apart(bs, max, k);
      assert Holds(bs, k);
      ghost var r := SplitAt(bs, k, len);
      SplitLayout(bs, k, len);
      var lenBlock := LenBlock(pos);
      CutHeaders(pos, len, lenBlock);
      forall i | 0 <= i < k ensures Holds(r, i) {
        assert old(Holds(bs, i)) && (i > 0 ==> r[i - 1] == bs[i - 1]);
      }
      forall i | k + 1 < i < |r| ensures Holds(r, i) {
        assert old(Holds(bs, i - 1)) && (i > k + 2 ==> r[i - 1] == bs[i - 2]);
        InOrder(bs, max, k + 1, i - 1);
      }
    }

    method JoinHeaders(pos: nat, mid: nat)
      requires pos + HEADER <= mid && mid + Hdr(mid).lenBlock + HEADER <= data.Length <= ARENA_LIMIT + HEADER
      requires HEADER <= Hdr(mid).lenBlock && Hdr(pos).lenBlock + Hdr(mid).lenBlock < ARENA_LIMIT
      modifies data
      ensures var next := mid + old(Hdr(mid)).lenBlock;
        && Hdr(pos) == old(Hdr(pos)).(lenBlock := old(Hdr(pos)).lenBlock + old(Hdr(mid)).lenBlock)
        && Hdr(next) == old(Hdr(next)).(topPre := pos)
        && (forall q: nat {:trigger Hdr(q)} :: Clear(pos, q) && Clear(next, q) ==> Hdr(q).status == old(Hdr(q)).status)
        && (forall q: nat {:trigger Hdr(q)} ::
              q + HEADER <= pos || (pos + HEADER <= q && q + HEADER <= next) || next + HEADER <= q ==>
                  Hdr(q) == old(Hdr(q)))
        && (forall q: nat, m: nat {:trigger Slice(q, m)} ::
              q + m <= pos || (pos + HEADER <= q && q + m <= next) || next + HEADER <= q ==>
                  Slice(q, m) == old(Slice(q, m)))
    {
      hide Decode, Hdr, Slice, Pow256, Status, Kind, LenBlock, TopPre;
      Pow256Widths();
      PutField(mid + LenBlock(mid), 16, 8, pos);
      PutField(pos, 8, 8, LenBlock(pos) + LenBlock(mid));
    }

    /** The free blocks `k` at `pos` and `k + 1` at `mid` become one. */
    method Join(pos: nat, mid: nat, ghost bs: seq<Block>, ghost k: nat)
      requires Gapless(bs, max) && max < ARENA_LIMIT && Represents(bs) && FreePair(bs, k)
      requires pos == bs[k].start && mid == bs[k + 1].start
      modifies data
      ensures Represents(JoinAt(bs, k))
      ensures Hdr(pos) == old(Hdr(pos)).(lenBlock := bs[k].len + bs[k + 1].len)
      ensures forall q: nat {:trigger Hdr(q)} ::
                Clear(pos, q) && Clear(bs[k + 1].End(), q) ==> Hdr(q).status == old(Hdr(q)).status
      ensures var next := bs[k + 1].End();
        && (forall q: nat {:trigger Hdr(q)} ::
              q + HEADER <= pos || (pos + HEADER <= q && q + HEADER <= next) || next + HEADER <= q ==>
                  Hdr(q) == old(Hdr(q)))
        && (forall q: nat, m: nat {:trigger Slice(q, m)} ::
              q + m <= pos || (pos + HEADER <= q && q + m <= next) || next + HEADER <= q ==>
                  Slice(q, m) == old(Slice(q, m)))
    {
      hide Decode, Hdr, Slice, Pow256, Gapless, Status, Kind, LenBlock, TopPre, SplitAt, JoinAt, Clear, Describes, Held;
      Pow256Widths();
      JoinedApart(bs, max, k);
      assert Holds(bs, k) && Holds(bs, k + 1);
      DescribedFree(Hdr(pos), Slice(pos + HEADER, Held(bs[k])), bs, k);
      DescribedFree(Hdr(mid), Slice(mid + HEADER, Held(bs[k + 1])), bs, k + 1);
      ghost var r := JoinAt(bs, k);
      JoinLayout(bs, k);
      JoinHeaders(pos, mid);
      assert Represents(r) by {
        forall i | 0 <= i < |r| ensures Holds(r, i) {
          ghost var from := if i <= k then i else i + 1;
          assert old(Holds(bs, from));
          JoinDescribes(old(Hdr(bs[from].start)), old(Slice(bs[from].start + HEADER, Held(bs[from]))), bs, k, from);
        }
      }
    }

    static lemma DescribedFree(h: Header, bytes: seq<byte>, bs: seq<Block>, i: nat)
      requires i < |bs| && bs[i].use.Free? && Describes(h, bytes, bs, i)
      ensures h.lenBlock == bs[i].len && h.status == 0
    {}

    /** What a join leaves apart from the three headers it looks at. */
    static lemma JoinedApart(bs: seq<Block>, max: nat, k: nat)
      requires Gapless(bs, max) && k + 1 < |bs|
      ensures forall i {:trigger bs[i]} :: 0 <= i < |bs| ==> bs[i].start + HEADER + Held(bs[i]) <= bs[i].End() <= max
      ensures forall i {:trigger bs[i]} :: 0 <= i < k ==> bs[i].End() <= bs[k].start
      ensures forall i {:trigger bs[i]} :: k + 1 < i < |bs| ==> bs[k + 1].End() <= bs[i].start
      ensures forall i {:trigger bs[i]} :: k + 2 < i < |bs| ==> bs[k + 1].End() + HEADER <= bs[i].start
      ensures bs[k + 1].End() == max || bs[k + 1].End() + HEADER <= max
      ensures bs[k].End() == bs[k + 1].start && (k + 2 < |bs| ==> bs[k + 2].start == bs[k + 1].End())
    {
      Apart(bs, max, k);
      Apart(bs, max, k + 1);
      NextBlock(bs, max, k + 1);
      if k + 2 < |bs| {
        Apart(bs, max, k + 2);
      }
    }

    /** The old header of block `from`, with the join's changes, is that of its place in the joined list. */
    static lemma JoinDescribes(h: Header, bytes: seq<byte>, bs: seq<Block>, k: nat, from: nat)
      requires FreePair(bs, k) && from < |bs| && from != k + 1 && Describes(h, bytes, bs, from)
      ensures var r, i := JoinAt(bs, k), if from <= k then from else from - 1;
        && i < |r| && r[i].start == bs[from].start && Held(r[i]) == Held(bs[from])
        && (from == k ==> Describes(h.(lenBlock := bs[k].len + bs[k + 1].len), bytes, r, i))
        && (from == k + 2 ==> Describes(h.(topPre := bs[k].start), bytes, r, i))
        && (from != k && from != k + 2 ==> Describes(h, bytes, r, i))
    {
      JoinLayout(bs, k);
    }

    // -------------------------------------------------------------------------
    // The operations of the pool
    // -------------------------------------------------------------------------

    /** The next-fit loop; 0 when no free block can hold the request. */
    method Search(n: nat) returns (r: nat)
      requires Valid() && n < 0x1_0000_0000
      requires |blocks| >= 2 || Fits(blocks[0], n)
      ensures var k := Choice(blocks, n, StartBlock(State(), n));
              r == if k < |blocks| then blocks[k].start else 0
    {
      hide Decode, Hdr, Slice, Status, Kind, LenBlock, TopPre, Gapless, Boundary, FirstFit, Choice, StartBlock,
           NoneFits, Unvisited;
      ghost var bs := blocks;
      FirstBlock(bs, max);
      var pos := top;
      if pos + n + HEADER >= max {
        pos := 1;
      }
      var start := pos;
      var flag := 0;
      ghost var s0 := StartBlock(State(), n);
      ghost var steps := 0;
      ghost var p := At(s0, 0);
      SeenAtStart(bs, n, s0);
      while true
        invariant p == SearchAfter(bs, n, s0, steps) && p.At? && Seen(bs, n, s0, p)
        invariant pos == bs[p.k].start && flag == p.wraps
        decreases Unvisited(bs, p)
      {
        assert Holds(bs, p.k);
        NextBlock(bs, max, p.k);
        InOrder(bs, max, s0, p.k + 1);
        StepSeen(bs, n, s0, p);
        steps, p := steps + 1, SearchStep(bs, n, s0, p);
        var lenBlock := LenBlock(pos);
        if Status(pos) != 0 {
          pos := pos + lenBlock;
          if pos >= max {
            pos := 1;
            flag := flag + 1;
          } else if flag != 0 {
            if start <= pos {
              return 0;
            }
          }
        } else if n <= lenBlock - HEADER {
          break;
        } else {
          pos := pos + lenBlock;
          if pos >= max {
            pos := 1;
            flag := flag + 1;
          } else if flag == 1 && start <= pos {
            return 0;
          }
        }
      }
      r := pos;
    }

    /** The rest of the chosen block is split off when it is longer than a header; where the next block then begins. */
    method CutOff(pos: nat, n: nat, ghost bs: seq<Block>, ghost k: nat) returns (newTop: nat, ghost r: seq<Block>)
      requires Gapless(bs, max) && max < ARENA_LIMIT && Represents(bs)
      requires k < |bs| && pos == bs[k].start && Fits(bs[k], n)
      modifies data
      ensures r == if HEADER < bs[k].len - n - HEADER then SplitAt(bs, k, n + HEADER) else bs
      ensures Gapless(r, max) && Represents(r) && k < |r| && r[k].start == pos && r[k].use.Free? && Fits(r[k], n)
      ensures newTop == r[k].End()
    {
      hide Decode, Hdr, Slice, Status, Kind, LenBlock, TopPre, SplitAt, Represents, Gapless;
      NextBlock(bs, max, k);
      BlockHeader(bs, k);
      r := bs;
      var lenBlock := LenBlock(pos);
      var sizeLeft := lenBlock - n - HEADER;
      if HEADER < sizeLeft {
        SplitOff(pos, n + HEADER, bs, k);
        SplitGapless(bs, max, k, n + HEADER);
        SplitLayout(bs, k, n + HEADER);
        r := SplitAt(bs, k, n + HEADER);
        newTop := pos + n + HEADER;
      } else {
        newTop := pos + lenBlock;
      }
    }

    method Malloc(n: nat, kind: nat) returns (r: nat)
      requires Valid() && n < 0x1_0000_0000
      requires |blocks| >= 2 || Fits(blocks[0], n)
      modifies this`top, this`blocks, data
      ensures Valid()
      ensures r == 0 ==> unchanged(this) && unchanged(data)
      ensures var payload := if r == 0 then seq(n, _ => 0) else Slice(r + HEADER, n);
              |payload| == n && (State(), r) == MemBlocks.Malloc(old(State()), n, kind % 16, payload)
    {
      hide Decode, Hdr, Slice, Status, Kind, LenBlock, TopPre, Choice, FirstFit, StartBlock, Boundary, SplitAt,
           Represents, Gapless;
      ghost var bs := blocks;
      ghost var k := Choice(bs, n, StartBlock(State(), n));
      Apart(bs, max, StartBlock(State(), n));
      r := Search(n);
      if r != 0 {
        var newTop;
        newTop, bs := CutOff(r, n, bs, k);
        top := newTop;
        LinkBack(top, r, bs, k);
        Occupy(r, n, kind, bs, k);
        blocks := SetUse(bs, k, Live(kind % 16, Slice(r + HEADER, n)));
        MallocShaped(old(State()), n, kind % 16, Slice(r + HEADER, n));
      }
    }

    /** A freed block joins a free predecessor. */
    method JoinBack(st: nat, ghost bs: seq<Block>, ghost k: nat) returns (newSt: nat, ghost r: seq<Block>, ghost j: nat)
      requires Gapless(bs, max) && max < ARENA_LIMIT && Represents(bs)
      requires k < |bs| && st == bs[k].start && bs[k].use.Free?
      modifies data
      ensures if k > 0 && FreePair(bs, k - 1) then r == JoinAt(bs, k - 1) && j == k - 1 else r == bs && j == k
      ensures Gapless(r, max) && Represents(r) && j < |r| && newSt == r[j].start && r[j].use.Free?
      ensures r[j].End() == bs[k].End()
      ensures (newSt == st || newSt + HEADER <= st) && Hdr(st).status == 0 && Hdr(st).lenData == old(Hdr(st)).lenData
      ensures forall q: nat {:trigger Hdr(q)} ::
                Settled(bs, max, q) ==> Settled(r, max, q) && Hdr(q).status == old(Hdr(q)).status
      ensures forall q: nat, m: nat {:trigger Slice(q, m)} ::
                st + HEADER <= q && q + m <= bs[k].End() ==> Slice(q, m) == old(Slice(q, m))
    {
      hide Decode, Hdr, Slice, Status, Kind, LenBlock, TopPre, Gapless, JoinAt, Represents, Settled;
      BlockHeader(bs, k);
      NextBlock(bs, max, k);
      StartsBehindFirst(bs, max, k);
      newSt, r, j := st, bs, k;
      if st > 1 {
        BlockHeader(bs, k - 1);
        NextBlock(bs, max, k - 1);
        var pre := TopPre(st);
        if Status(pre) == 0 {
          Join(pre, st, bs, k - 1);
          JoinGapless(bs, max, k - 1);
          JoinLayout(bs, k - 1);
          newSt, r, j := pre, JoinAt(bs, k - 1), k - 1;
          forall q: nat | Settled(bs, max, q) ensures Settled(r, max, q) && Clear(pre, q) && Clear(bs[k].End(), q) {
            JoinSettled(bs, max, k - 1, q);
            SettledAtJoin(bs, max, k - 1, q);
          }
        }
      }
    }

    /** The block at `newSt` joins a free successor. */
    method JoinFront(newSt: nat, newEnd: nat, ghost bs: seq<Block>, ghost k: nat) returns (ghost r: seq<Block>)
      requires Gapless(bs, max) && max < ARENA_LIMIT && Represents(bs)
      requires k < |bs| && newSt == bs[k].start && bs[k].use.Free? && newEnd == bs[k].End()
      modifies data
      ensures r == if FreePair(bs, k) then JoinAt(bs, k) else bs
      ensures Gapless(r, max) && Represents(r) && k < |r| && r[k].start == newSt
      ensures forall q: nat {:trigger Hdr(q)} :: newSt + HEADER <= q && q + HEADER <= newEnd ==> Hdr(q) == old(Hdr(q))
      ensures Hdr(newSt).status == 0 && Hdr(newSt).lenData == old(Hdr(newSt)).lenData
      ensures forall q: nat {:trigger Hdr(q)} :: Settled(bs, max, q) ==> Hdr(q).status == old(Hdr(q)).status
      ensures forall q: nat, m: nat {:trigger Slice(q, m)} ::
                newSt + HEADER <= q && q + m <= newEnd ==> Slice(q, m) == old(Slice(q, m))
    {
      hide Decode, Hdr, Slice, Status, Kind, LenBlock, TopPre, Gapless, JoinAt, Represents, Settled;
      BlockHeader(bs, k);
      NextBlock(bs, max, k);
      if k + 1 < |bs| {
        BlockHeader(bs, k + 1);
        NextBlock(bs, max, k + 1);
      }
      r := bs;
      if Status(newEnd) == 0 {
        Join(newSt, newEnd, bs, k);
        forall q: nat | Settled(bs, max, q) ensures Clear(newSt, q) && Clear(bs[k + 1].End(), q) {
          SettledAtJoin(bs, max, k, q);
        }
        JoinGapless(bs, max, k);
        JoinLayout(bs, k);
        r := JoinAt(bs, k);
      }
    }

    /** The header writes of a release: the block at `st` becomes free and joins its free neighbours. */
    method ReleaseHeaders(st: nat, newEnd: nat, ghost bs: seq<Block>, ghost k: nat)
      returns (newSt: nat, ghost r: seq<Block>, ghost j: nat)
      requires Gapless(bs, max) && max < ARENA_LIMIT && Represents(bs)
      requires k < |bs| && st == bs[k].start && newEnd == bs[k].End() && bs[k].use.Live?
      modifies data
      ensures r == Release(bs, k) && j == ReleasedAt(bs, k)
      ensures Gapless(r, max) && Represents(r) && j < |r| && newSt == r[j].start
      ensures Hdr(st).status == 0 && Hdr(st).lenData == old(Hdr(st)).lenData
      ensures forall m: nat {:trigger Slice(st + HEADER, m)} ::
                st + HEADER + m <= newEnd ==> Slice(st + HEADER, m) == old(Slice(st + HEADER, m))
      ensures forall q: nat {:trigger Hdr(q)} ::
                Settled(SetUse(bs, k, MemBlocks.Free), max, q) && (q + HEADER <= st || st + HEADER <= q) ==>
                    Hdr(q).status == old(Hdr(q)).status
    {
      hide Decode, Hdr, Slice, Status, Kind, LenBlock, TopPre, Gapless, Boundary, JoinAt, Represents, Settled;
      BlockHeader(bs, k);
      NextBlock(bs, max, k);
      Vacate(st, bs, k);
      FreeWellSized(bs, max, k);
      SetUseGapless(bs, max, k, MemBlocks.Free);
      label Vacated:
      newSt, r, j := JoinBack(st, SetUse(bs, k, MemBlocks.Free), k);
      label Back:
      r := JoinFront(newSt, newEnd, r, j);
      forall q: nat | Settled(SetUse(bs, k, MemBlocks.Free), max, q) && (q + HEADER <= st || st + HEADER <= q)
        ensures Hdr(q).status == old(Hdr(q)).status
      {
        assert old@Vacated(Hdr(q)) == old(Hdr(q));
        assert old@Back(Hdr(q)).status == old@Vacated(Hdr(q)).status;
      }
    }

    /** Releasing a live block. A header whose status is already 0 is left alone, so a second release does nothing.
        The released bytes and the length field stay in place until they are allocated again. */
    method FreeAt(st: nat)
      requires Valid() && st + HEADER <= data.Length
      requires Status(st) == 0 || IsLive(blocks, st)
      modifies this`top, this`blocks, data
      ensures Valid()
      ensures old(Status(st)) == 0 ==> unchanged(this) && unchanged(data)
      ensures old(Status(st)) != 0 ==> State() == FreeBlock(old(State()), st)
      ensures Hdr(st).status == 0 && Hdr(st).lenData == old(Hdr(st)).lenData
      ensures Slice(st + HEADER, Hdr(st).lenData) == old(Slice(st + HEADER, Hdr(st).lenData))
      ensures old(Status(st)) != 0 ==> Released(st)
      ensures forall q: nat {:trigger Released(q)} :: old(Released(q)) ==> Released(q)
    {
      hide Decode, Hdr, Slice, Status, Kind, LenBlock, TopPre, Gapless, Boundary, JoinAt, Represents, Settled, Stale;
      if Status(st) == 0 {
        return;
      }
      ghost var bs, k := blocks, IndexOf(blocks, st);
      BlockHeader(bs, k);
      NextBlock(bs, max, k);
      var newEnd := st + LenBlock(st);
      ghost var r, j;
      var newSt;
      newSt, r, j := ReleaseHeaders(st, newEnd, bs, k);
      ReleaseTiled(bs, max, k);
      FreeShaped(old(State()), st);
      BlockHeader(r, j);
      if top > newSt && top < newSt + LenBlock(newSt) {
        top := newSt;
      }
      blocks := r;
      ReleaseStale(bs, max, k, st);
      forall q: nat {:trigger Released(q)} | old(Released(q)) ensures Released(q) {
        FreeApart(bs, max, k, q);
        ReleaseStale(bs, max, k, q);
        assert Hdr(q).status == old(Hdr(q)).status;
      }
    }

    /** The header at `q` has been left behind by a release: it lies in a free block and still says so. */
    ghost predicate Released(q: nat)
      reads this, data
    {
      Stale(blocks, q) && Hdr(q).status == 0
    }

    /** The owner of the live block at `st` stores bytes into its payload. */
    method Write(st: nat, off: nat, bytes: seq<byte>)
      requires Valid() && InPayload(blocks, st, off, |bytes|)
      modifies this`blocks, data
      ensures Valid() && State() == WriteBlock(old(State()), st, off, bytes)
      ensures forall q: nat {:trigger Released(q)} :: old(Released(q)) ==> Released(q)
    {
      hide Decode, Hdr, Slice, Gapless, Boundary, Stale;
      ghost var bs, k := blocks, IndexOf(blocks, st);
      BlockHeader(bs, k);
      NextBlock(bs, max, k);
      Apart(bs, max, k);
      WriteShaped(State(), st, off, bytes);
      ghost var r := WriteBlock(State(), st, off, bytes).blocks;
      Poke(st + HEADER, |bs[k].use.payload|, off, bytes);
      forall i | 0 <= i < |r| ensures Holds(r, i) {
        assert old(Holds(bs, i));
      }
      blocks := r;
      forall q: nat {:trigger Released(q)} | old(Released(q)) ensures Released(q) {
        FreeApart(bs, max, k, q);
        WriteStale(old(State()), st, off, bytes, q);
        assert Hdr(q) == old(Hdr(q));
      }
    }

    /** A release or a payload write that is legal on the block list. */
    method Perform(op: Op)
      requires Valid() && !op.MallocOp? && Legal(State(), op)
      modifies this`top, this`blocks, data
      ensures Valid() && State() == Step(old(State()), op)
      ensures forall q: nat {:trigger Released(q)} :: old(Released(q)) ==> Released(q)
    {
      hide Represents, Shaped, Released, Hdr, FreeBlock, WriteBlock;
      match op {
        case FreeOp(st) =>
          LiveHeader(st);
          FreeAt(st);
        case WriteOp(st, off, bytes) =>
          Write(st, off, bytes);
      }
    }

    /** Over any run of releases and payload writes, headers left behind by a release stay so. */
    method PerformAll(ops: seq<Op>)
      requires Valid() && LegalRun(State(), ops) && forall i :: 0 <= i < |ops| ==> !ops[i].MallocOp?
      modifies this`top, this`blocks, data
      ensures Valid() && State() == Run(old(State()), ops)
      ensures forall q: nat {:trigger Released(q)} :: old(Released(q)) ==> Released(q)
    {
      hide Valid, Released, Step, Legal, Shaped;
      assert ops[0..] == ops;
      for i := 0 to |ops|
        invariant Valid() && LegalRun(State(), ops[i..]) && Run(old(State()), ops) == Run(State(), ops[i..])
        invariant forall q: nat {:trigger Released(q)} :: old(Released(q)) ==> Released(q)
      {
        assert ops[i..][0] == ops[i] && ops[i..][1..] == ops[i + 1..];
        Perform(ops[i]);
      }
    }
  }
}
