/** The block list that the coroutine memory pool keeps in its arena, as a value: which blocks tile the
    arena, which are free, what the live ones hold, and what one allocation, release or write does to it. */
module MemBlocks {
  import opened Bytes

  /** sizeof(HC_CoMemBlock): every block begins with a header of this many bytes. */
  const HEADER: nat := 32

  datatype Use = Free | Live(kind: nat, payload: seq<byte>)

  datatype Block = Block(start: nat, len: nat, use: Use) {
    function End(): nat {
      start + len
    }
  }

  datatype Pool = Pool(blocks: seq<Block>, top: nat, max: nat)

  /** One block's own shape: a live block wastes at most one header's worth of bytes. */
  predicate WellSized(b: Block) {
    && b.len >= HEADER
    && (b.use.Live? ==>
          && b.use.kind < 16
          && |b.use.payload| < 0x1_0000_0000
          && |b.use.payload| + HEADER <= b.len <= |b.use.payload| + 2 * HEADER)
  }

  predicate Abut(a: Block, b: Block) {
    a.End() == b.start
  }

  /** The blocks cover [1, max) in order, without gap or overlap. */
  ghost predicate Gapless(bs: seq<Block>, max: nat) {
    && |bs| > 0 && bs[0].start == 1 && bs[|bs| - 1].End() == max
    && (forall i :: 0 <= i < |bs| ==> WellSized(bs[i]))
    && (forall i, j :: 0 <= i < |bs| && j == i + 1 < |bs| ==> Abut(bs[i], bs[j]))
  }

  predicate FreePair(bs: seq<Block>, i: nat) {
    i + 1 < |bs| && bs[i].use.Free? && bs[i + 1].use.Free?
  }

  /** The blocks tile [1, max), and no two neighbours are both free. */
  ghost predicate Tiled(bs: seq<Block>, max: nat) {
    Gapless(bs, max) && forall i :: 0 <= i < |bs| ==> !FreePair(bs, i)
  }

  /** Blocks lie one behind the other, so their byte ranges are pairwise disjoint. */
  lemma {:induction false} Ordered(bs: seq<Block>, max: nat, i: nat, j: nat)
    requires Gapless(bs, max) && i < j < |bs|
    ensures bs[i].start < bs[i].End() <= bs[j].start
    decreases j
  {
    assert WellSized(bs[i]);
    assert Abut(bs[j - 1], bs[j]);
    if i < j - 1 {
      Ordered(bs, max, i, j - 1);
      assert WellSized(bs[j - 1]);
    }
  }

  /** `top` is the start of a block or of the sentinel behind the last one. */
  ghost predicate Boundary(bs: seq<Block>, max: nat, top: nat) {
    top == max || exists i :: 0 <= i < |bs| && bs[i].start == top
  }

  /** The heap-shape invariant. */
  ghost predicate Shaped(s: Pool) {
    Tiled(s.blocks, s.max) && Boundary(s.blocks, s.max, s.top)
  }

  function IndexOf(bs: seq<Block>, st: nat): (k: nat)
    ensures k <= |bs|
    ensures k < |bs| ==> bs[k].start == st
    ensures forall j :: 0 <= j < k ==> bs[j].start != st
  {
    if bs == [] then 0
    else if bs[0].start == st then 0
    else 1 + IndexOf(bs[1..], st)
  }

  ghost predicate IsLive(bs: seq<Block>, st: nat) {
    var k := IndexOf(bs, st);
    k < |bs| && bs[k].use.Live?
  }

  lemma FirstBlock(bs: seq<Block>, max: nat)
    requires Gapless(bs, max)
    ensures |bs| > 0 && bs[0].start == 1
  {}

  lemma InArena(bs: seq<Block>, max: nat, i: nat)
    requires Gapless(bs, max) && i < |bs|
    ensures 1 <= bs[i].start && bs[i].start + HEADER <= bs[i].End() <= max
    ensures bs[i].End() == max ==> i == |bs| - 1
  {
    assert WellSized(bs[i]);
    if i > 0 { Ordered(bs, max, 0, i); }
    if i < |bs| - 1 {
      Ordered(bs, max, i, |bs| - 1);
      assert WellSized(bs[|bs| - 1]);
    }
  }

  /** Stepping over block `k` leads to the next block or, from the last one, to the sentinel. */
  lemma NextBlock(bs: seq<Block>, max: nat, k: nat)
    requires Gapless(bs, max) && k < |bs|
    ensures 1 <= bs[k].start && bs[k].start + HEADER <= bs[k].End() <= max
    ensures if k + 1 < |bs| then bs[k].End() == bs[k + 1].start < max else bs[k].End() == max
  {
    InArena(bs, max, k);
    if k + 1 < |bs| {
      InArena(bs, max, k + 1);
      assert Abut(bs[k], bs[k + 1]);
    }
  }

  lemma InOrder(bs: seq<Block>, max: nat, i: nat, j: nat)
    requires Gapless(bs, max) && i < |bs| && j <= |bs|
    ensures j < |bs| ==> (bs[i].start <= bs[j].start <==> i <= j)
    ensures i < j < |bs| ==> bs[i].End() <= bs[j].start
  {
    if i < j < |bs| { Ordered(bs, max, i, j); }
    if j < i { Ordered(bs, max, j, i); }
  }

  lemma StartsBehindFirst(bs: seq<Block>, max: nat, k: nat)
    requires Gapless(bs, max) && k < |bs|
    ensures bs[k].start > 1 <==> k > 0
  {
    if k > 0 { Ordered(bs, max, 0, k); }
  }

  /** Seen from block `k`, every other block lies entirely before it or entirely behind it. */
  lemma Apart(bs: seq<Block>, max: nat, k: nat)
    requires Gapless(bs, max) && k < |bs|
    ensures forall i {:trigger bs[i]} :: 0 <= i < |bs| ==> WellSized(bs[i]) && 1 <= bs[i].start && bs[i].End() <= max
    ensures forall i {:trigger bs[i]} :: 0 <= i < k ==> bs[i].End() <= bs[k].start
    ensures forall i {:trigger bs[i]} :: k < i < |bs| ==> bs[k].End() <= bs[i].start
  {
    forall i | 0 <= i < |bs|
      ensures 1 <= bs[i].start && bs[i].End() <= max
      ensures i < k ==> bs[i].End() <= bs[k].start
      ensures k < i ==> bs[k].End() <= bs[i].start
    {
      InArena(bs, max, i);
      if i < k { Ordered(bs, max, i, k); }
      if k < i { Ordered(bs, max, k, i); }
    }
  }

  lemma IndexOfStart(bs: seq<Block>, max: nat, k: nat)
    requires Gapless(bs, max) && k < |bs|
    ensures IndexOf(bs, bs[k].start) == k
  {
    var i := IndexOf(bs, bs[k].start);
    if i < k {
      Ordered(bs, max, i, k);
    }
  }

  // ---------------------------------------------------------------------------
  // Next-fit search
  // ---------------------------------------------------------------------------

  predicate Fits(b: Block, n: nat) {
    b.use.Free? && n + HEADER <= b.len
  }

  function FirstFit(bs: seq<Block>, n: nat, lo: nat, hi: nat): (k: nat)
    requires lo <= hi <= |bs|
    ensures lo <= k <= hi
    ensures forall j :: lo <= j < k ==> !Fits(bs[j], n)
    ensures k < hi ==> Fits(bs[k], n)
    decreases hi - lo
  {
    if lo == hi || Fits(bs[lo], n) then lo else FirstFit(bs, n, lo + 1, hi)
  }

  /** The block a next-fit search from block `s0` takes; |bs| when nothing fits. */
  function Choice(bs: seq<Block>, n: nat, s0: nat): (k: nat)
    requires s0 < |bs|
    ensures k <= |bs|
    ensures k < |bs| ==> Fits(bs[k], n)
    ensures k == |bs| <==> forall j :: 0 <= j < |bs| ==> !Fits(bs[j], n)
  {
    var k := FirstFit(bs, n, s0, |bs|);
    if k < |bs| then k
    else
      var w := FirstFit(bs, n, 0, s0);
      if w < s0 then w else |bs|
  }

  /** Where the search begins: at the roving pointer unless the request could not end before `max`. */
  function SearchStart(s: Pool, n: nat): nat {
    if s.top + n + HEADER >= s.max then 1 else s.top
  }

  /** The block at which the search begins. */
  ghost function StartBlock(s: Pool, n: nat): (k: nat)
    requires Shaped(s)
    ensures k < |s.blocks| && s.blocks[k].start == SearchStart(s, n)
  {
    SearchStartIsBlock(s, n);
    IndexOf(s.blocks, SearchStart(s, n))
  }

  lemma SearchStartIsBlock(s: Pool, n: nat)
    requires Shaped(s)
    ensures IndexOf(s.blocks, SearchStart(s, n)) < |s.blocks|
  {
    if SearchStart(s, n) == 1 {
      IndexOfStart(s.blocks, s.max, 0);
    } else {
      var i :| 0 <= i < |s.blocks| && s.blocks[i].start == s.top;
      IndexOfStart(s.blocks, s.max, i);
    }
  }

  /** The search loop's state at the top of an iteration, or how it left the loop. */
  datatype Probe = At(k: nat, wraps: nat) | Found(k: nat) | NoSpace

  /** One iteration. The two branches test the wrap counter differently: `flag` after a live block,
      `1 == flag` after a free block that is too small. */
  function SearchStep(bs: seq<Block>, n: nat, s0: nat, p: Probe): Probe
    requires p.At? ==> p.k < |bs|
  {
    if !p.At? then p
    else if Fits(bs[p.k], n) then Found(p.k)
    else if p.k + 1 == |bs| then At(0, p.wraps + 1)
    else if s0 <= p.k + 1 && (if bs[p.k].use.Live? then p.wraps != 0 else p.wraps == 1) then NoSpace
    else At(p.k + 1, p.wraps)
  }

  function SearchAfter(bs: seq<Block>, n: nat, s0: nat, steps: nat): (p: Probe)
    requires s0 < |bs|
    ensures p.At? ==> p.k < |bs|
  {
    if steps == 0 then At(s0, 0) else SearchStep(bs, n, s0, SearchAfter(bs, n, s0, steps - 1))
  }

  ghost predicate NoneFits(bs: seq<Block>, n: nat, lo: nat, hi: nat) {
    forall j :: lo <= j < hi && j < |bs| ==> !Fits(bs[j], n)
  }

  /** What the loop knows at `p`: every block from `s0` on (and, after the wrap, from 0 on) was too small or live. */
  ghost predicate Seen(bs: seq<Block>, n: nat, s0: nat, p: Probe)
    requires s0 < |bs|
  {
    match p
    case At(k, wraps) =>
      && k < |bs|
      && (wraps == 0 ==> s0 <= k && NoneFits(bs, n, s0, k))
      && (wraps > 0 ==> (k < s0 || k == 0) && NoneFits(bs, n, s0, |bs|) && NoneFits(bs, n, 0, k))
      && (wraps > 1 ==> |bs| == 1)
    case Found(k) => k < |bs| && Choice(bs, n, s0) == k
    case NoSpace => Choice(bs, n, s0) == |bs|
  }

  lemma SeenAtStart(bs: seq<Block>, n: nat, s0: nat)
    requires s0 < |bs|
    ensures Seen(bs, n, s0, At(s0, 0))
  {}

  /** Blocks still to be looked at, before and after the wrap. */
  function Unvisited(bs: seq<Block>, p: Probe): int {
    if p.At? then (1 - p.wraps) * |bs| + |bs| - p.k else 0
  }

  lemma StepSeen(bs: seq<Block>, n: nat, s0: nat, p: Probe)
    requires s0 < |bs| && Seen(bs, n, s0, p)
    ensures Seen(bs, n, s0, SearchStep(bs, n, s0, p))
    ensures p.At? && (|bs| >= 2 || Fits(bs[0], n)) ==> 0 <= Unvisited(bs, SearchStep(bs, n, s0, p)) < Unvisited(bs, p)
  {
    if p.At? && p.wraps > 0 {
      assert p.wraps == 1 || |bs| == 1;
    }
  }

  lemma {:induction false} SearchSeen(bs: seq<Block>, n: nat, s0: nat, steps: nat)
    requires s0 < |bs|
    ensures Seen(bs, n, s0, SearchAfter(bs, n, s0, steps))
  {
    if steps > 0 {
      SearchSeen(bs, n, s0, steps - 1);
      StepSeen(bs, n, s0, SearchAfter(bs, n, s0, steps - 1));
    }
  }

  /** The search leaves its loop exactly when the arena has two blocks or its one block fits: a single
      block that is live or too small is looked at for ever. */
  lemma SearchTerminates(bs: seq<Block>, n: nat, s0: nat)
    requires s0 < |bs|
    ensures (exists steps :: !SearchAfter(bs, n, s0, steps).At?) <==> |bs| >= 2 || Fits(bs[0], n)
  {
    if |bs| >= 2 || Fits(bs[0], n) {
      SearchEnds(bs, n, s0, 0);
    } else {
      forall steps ensures SearchAfter(bs, n, s0, steps).At? {
        SearchSpins(bs, n, s0, steps);
      }
    }
  }

  lemma {:induction false} SearchEnds(bs: seq<Block>, n: nat, s0: nat, steps: nat)
    requires s0 < |bs| && (|bs| >= 2 || Fits(bs[0], n))
    ensures exists i :: !SearchAfter(bs, n, s0, i).At?
    decreases Unvisited(bs, SearchAfter(bs, n, s0, steps))
  {
    var p := SearchAfter(bs, n, s0, steps);
    SearchSeen(bs, n, s0, steps);
    if p.At? {
      StepSeen(bs, n, s0, p);
      assert SearchAfter(bs, n, s0, steps + 1) == SearchStep(bs, n, s0, p);
      SearchEnds(bs, n, s0, steps + 1);
    }
  }

  lemma {:induction false} SearchSpins(bs: seq<Block>, n: nat, s0: nat, steps: nat)
    requires s0 < |bs| == 1 && !Fits(bs[0], n)
    ensures SearchAfter(bs, n, s0, steps) == At(0, steps)
  {
    if steps > 0 {
      SearchSpins(bs, n, s0, steps - 1);
    }
  }

  // ---------------------------------------------------------------------------
  // The three changes to the list that allocation and release are made of
  // ---------------------------------------------------------------------------

  function SetUse(bs: seq<Block>, k: nat, use: Use): (r: seq<Block>)
    requires k < |bs|
  {
    bs[k := bs[k].(use := use)]
  }

  /** Free block `k` cut into one of `len` bytes and the rest. */
  function SplitAt(bs: seq<Block>, k: nat, len: nat): (r: seq<Block>)
    requires k < |bs| && len <= bs[k].len
  {
    bs[..k] + [Block(bs[k].start, len, Free), Block(bs[k].start + len, bs[k].len - len, Free)] + bs[k + 1..]
  }

  /** Free blocks `k` and `k + 1` made one. */
  function JoinAt(bs: seq<Block>, k: nat): (r: seq<Block>)
    requires k + 1 < |bs|
  {
    bs[..k] + [Block(bs[k].start, bs[k].len + bs[k + 1].len, Free)] + bs[k + 2..]
  }

  lemma SplitLayout(bs: seq<Block>, k: nat, len: nat)
    requires k < |bs| && len <= bs[k].len
    ensures var r := SplitAt(bs, k, len);
      && |r| == |bs| + 1
      && r[k] == Block(bs[k].start, len, Free) && r[k + 1] == Block(bs[k].start + len, bs[k].len - len, Free)
      && (forall i {:trigger r[i]} :: 0 <= i < k ==> r[i] == bs[i])
      && (forall i {:trigger r[i]} :: k + 1 < i < |r| ==> r[i] == bs[i - 1])
  {}

  lemma JoinLayout(bs: seq<Block>, k: nat)
    requires k + 1 < |bs|
    ensures var r := JoinAt(bs, k);
      && |r| == |bs| - 1
      && r[k] == Block(bs[k].start, bs[k].len + bs[k + 1].len, Free)
      && (forall i {:trigger r[i]} :: 0 <= i < k ==> r[i] == bs[i])
      && (forall i {:trigger r[i]} :: k < i < |r| ==> r[i] == bs[i + 1])
  {}

  lemma FreeWellSized(bs: seq<Block>, max: nat, k: nat)
    requires Gapless(bs, max) && k < |bs|
    ensures WellSized(bs[k]) && WellSized(bs[k].(use := Free))
  {}

  lemma SetUseGapless(bs: seq<Block>, max: nat, k: nat, use: Use)
    requires Gapless(bs, max) && k < |bs| && WellSized(bs[k].(use := use))
    ensures Gapless(SetUse(bs, k, use), max)
  {
    var r := SetUse(bs, k, use);
    forall i, j | 0 <= i < |r| && j == i + 1 < |r| ensures Abut(r[i], r[j]) {
      assert Abut(bs[i], bs[j]);
    }
  }

  lemma SplitGapless(bs: seq<Block>, max: nat, k: nat, len: nat)
    requires Gapless(bs, max) && k < |bs| && HEADER <= len && len + HEADER <= bs[k].len
    ensures Gapless(SplitAt(bs, k, len), max)
  {
    var r := SplitAt(bs, k, len);
    forall i | 0 <= i < |r| ensures WellSized(r[i]) {
      assert i < k ==> r[i] == bs[i];
      assert i > k + 1 ==> r[i] == bs[i - 1];
    }
    forall i, j | 0 <= i < |r| && j == i + 1 < |r| ensures Abut(r[i], r[j]) {
      if j <= k { assert Abut(bs[i], bs[j]); }
      if i > k { assert Abut(bs[i - 1], bs[j - 1]); }
    }
  }

  lemma JoinGapless(bs: seq<Block>, max: nat, k: nat)
    requires Gapless(bs, max) && k + 1 < |bs|
    ensures Gapless(JoinAt(bs, k), max)
  {
    var r := JoinAt(bs, k);
    assert Abut(bs[k], bs[k + 1]) && WellSized(bs[k]);
    forall i | 0 <= i < |r| ensures WellSized(r[i]) {
      assert r[i] == bs[if i < k then i else i + 1] || i == k;
    }
    forall i, j | 0 <= i < |r| && j == i + 1 < |r| ensures Abut(r[i], r[j]) {
      if j <= k { assert Abut(bs[i], bs[j]); }
      if i >= k { assert Abut(bs[i + 1], bs[j + 1]); }
    }
  }

  // ---------------------------------------------------------------------------
  // Live blocks
  // ---------------------------------------------------------------------------

  ghost function LiveBlocks(bs: seq<Block>): set<Block> {
    set b | b in bs && b.use.Live?
  }

  lemma SplitKeepsLive(bs: seq<Block>, k: nat, len: nat)
    requires k < |bs| && len <= bs[k].len && bs[k].use.Free?
    ensures LiveBlocks(SplitAt(bs, k, len)) == LiveBlocks(bs)
  {
    assert bs == bs[..k] + [bs[k]] + bs[k + 1..];
  }

  lemma JoinKeepsLive(bs: seq<Block>, k: nat)
    requires k + 1 < |bs| && bs[k].use.Free? && bs[k + 1].use.Free?
    ensures LiveBlocks(JoinAt(bs, k)) == LiveBlocks(bs)
  {
    assert bs == bs[..k] + [bs[k], bs[k + 1]] + bs[k + 2..];
  }

  lemma SetUseLive(bs: seq<Block>, max: nat, k: nat, use: Use)
    requires Gapless(bs, max) && k < |bs|
    ensures LiveBlocks(SetUse(bs, k, use))
         == LiveBlocks(bs) - {bs[k]} + if use.Live? then {bs[k].(use := use)} else {}
  {
    var r := SetUse(bs, k, use);
    forall b | b in LiveBlocks(bs) && b != bs[k] ensures b in r {
      var i :| 0 <= i < |bs| && bs[i] == b;
      assert r[i] == b;
    }
    forall i | 0 <= i < |r| && i != k ensures r[i] in bs && r[i] != bs[k] {
      Apart(bs, max, k);
      assert r[i] == bs[i] && WellSized(bs[k]) && WellSized(bs[i]);
    }
    assert r[k] == bs[k].(use := use);
  }

  // ---------------------------------------------------------------------------
  // Allocation
  // ---------------------------------------------------------------------------

  /** Block `k` taken for `payload`: the rest is split off as a free block when it is longer than a header. */
  function Place(bs: seq<Block>, k: nat, kind: nat, payload: seq<byte>): (r: seq<Block>)
    requires k < |bs| && Fits(bs[k], |payload|)
    ensures k < |r|
  {
    var need := |payload| + HEADER;
    var cut := if HEADER < bs[k].len - need then SplitAt(bs, k, need) else bs;
    SetUse(cut, k, Live(kind, payload))
  }

  lemma PlaceTiled(bs: seq<Block>, max: nat, k: nat, kind: nat, payload: seq<byte>)
    requires Tiled(bs, max) && k < |bs| && Fits(bs[k], |payload|)
    requires kind < 16 && |payload| < 0x1_0000_0000
    ensures Tiled(Place(bs, k, kind, payload), max)
  {
    var r := Place(bs, k, kind, payload);
    var need := |payload| + HEADER;
    if HEADER < bs[k].len - need {
      SplitGapless(bs, max, k, need);
      SetUseGapless(SplitAt(bs, k, need), max, k, Live(kind, payload));
    } else {
      SetUseGapless(bs, max, k, Live(kind, payload));
    }
    forall i | 0 <= i < |r| ensures !FreePair(r, i) {
      assert !FreePair(bs, i) && (i > 0 ==> !FreePair(bs, i - 1));
    }
  }

  /** One call of the allocator; `payload` is what the granted bytes happen to hold. */
  ghost function Malloc(s: Pool, n: nat, kind: nat, payload: seq<byte>): (r: (Pool, nat))
    requires Shaped(s) && |payload| == n
  {
    var k := Choice(s.blocks, n, StartBlock(s, n));
    if k == |s.blocks| then (s, 0)
    else
      var bs := Place(s.blocks, k, kind, payload);
      (Pool(bs, bs[k].End(), s.max), s.blocks[k].start)
  }

  lemma MallocShaped(s: Pool, n: nat, kind: nat, payload: seq<byte>)
    requires Shaped(s) && |payload| == n < 0x1_0000_0000 && kind < 16
    ensures Shaped(Malloc(s, n, kind, payload).0)
  {
    var k := Choice(s.blocks, n, StartBlock(s, n));
    if k < |s.blocks| {
      PlaceTiled(s.blocks, s.max, k, kind, payload);
      NextBlock(Place(s.blocks, k, kind, payload), s.max, k);
    }
  }

  /** How far the allocator has to go from address `from` to `at`, around the arena. */
  function Way(from: nat, at: nat, max: nat): int {
    if at >= from then at - from else at + max - from
  }

  /** Next fit: of all free blocks with room for a header and `n` bytes the one is granted that comes first from the
      roving pointer on, or from 1 on when no such block can end below `max` from there; the pointer then stands
      behind the block granted, which has the size asked for, or all of it when 32 bytes or less would be left. */
  lemma NextFit(s: Pool, n: nat, kind: nat, payload: seq<byte>)
    requires Shaped(s) && |payload| == n
    ensures var (t, st) := Malloc(s, n, kind, payload);
            var from := if s.top + n + 32 >= s.max then 1 else s.top;
            && (st == 0 <==> forall b :: b in s.blocks && b.use.Free? ==> b.len < n + 32)
            && (st != 0 ==> exists b ::
                  && b in s.blocks && b.start == st && b.use.Free? && b.len >= n + 32
                  && t.top == st + (if b.len > n + 64 then n + 32 else b.len)
                  && (forall c :: c in s.blocks && c.use.Free? && c.len >= n + 32 ==>
                        Way(from, st, s.max) <= Way(from, c.start, s.max)))
  {
    hide Gapless, Choice;
    var k := Choice(s.blocks, n, StartBlock(s, n));
    StartsInside(s.blocks, s.max);
    FittingBlocks(s.blocks, n, StartBlock(s, n));
    if k < |s.blocks| {
      Nearest(s.blocks, s.max, n, StartBlock(s, n));
      assert s.blocks[k] in s.blocks;
    }
  }

  lemma StartsInside(bs: seq<Block>, max: nat)
    requires Gapless(bs, max)
    ensures forall b :: b in bs ==> 1 <= b.start < max
  {
    forall b | b in bs ensures 1 <= b.start < max {
      var i :| 0 <= i < |bs| && bs[i] == b;
      InArena(bs, max, i);
    }
  }

  lemma FittingBlocks(bs: seq<Block>, n: nat, s0: nat)
    requires s0 < |bs|
    ensures Choice(bs, n, s0) == |bs| <==> forall b :: b in bs && b.use.Free? ==> b.len < n + 32
  {
    var k := Choice(bs, n, s0);
    if k < |bs| {
      assert bs[k] in bs;
    } else {
      forall b | b in bs && b.use.Free? ensures b.len < n + 32 {
        var i :| 0 <= i < |bs| && bs[i] == b;
        assert !Fits(bs[i], n);
      }
    }
  }

  lemma Nearest(bs: seq<Block>, max: nat, n: nat, s0: nat)
    requires Gapless(bs, max) && s0 < |bs| && Choice(bs, n, s0) < |bs|
    ensures var k := Choice(bs, n, s0);
            forall c :: c in bs && c.use.Free? && c.len >= n + 32 ==>
              Way(bs[s0].start, bs[k].start, max) <= Way(bs[s0].start, c.start, max)
  {
    hide Gapless, Choice, Way;
    var k := Choice(bs, n, s0);
    forall c | c in bs && c.use.Free? && c.len >= n + 32
      ensures Way(bs[s0].start, bs[k].start, max) <= Way(bs[s0].start, c.start, max)
    {
      var j :| 0 <= j < |bs| && bs[j] == c;
      FirstAround(bs, max, n, s0, j);
    }
  }

  /** No fitting block comes before the one chosen. */
  lemma FirstAround(bs: seq<Block>, max: nat, n: nat, s0: nat, j: nat)
    requires Gapless(bs, max) && s0 < |bs| && j < |bs| && Fits(bs[j], n)
    ensures var k := Choice(bs, n, s0);
            k < |bs| && Way(bs[s0].start, bs[k].start, max) <= Way(bs[s0].start, bs[j].start, max)
  {
    var k := Choice(bs, n, s0);
    InArena(bs, max, k);
    InArena(bs, max, j);
    if k != j { OrderedBetween(bs, max, k, j); }
    if k != s0 { OrderedBetween(bs, max, k, s0); }
    if j != s0 { OrderedBetween(bs, max, j, s0); }
  }

  lemma OrderedBetween(bs: seq<Block>, max: nat, i: nat, j: nat)
    requires Gapless(bs, max) && i < |bs| && j < |bs| && i != j
    ensures i < j <==> bs[i].start < bs[j].start
  {
    if i < j {
      Ordered(bs, max, i, j);
    } else {
      Ordered(bs, max, j, i);
    }
  }

  // ---------------------------------------------------------------------------
  // Release
  // ---------------------------------------------------------------------------

  /** Block `k` given back: marked free, then joined with a free predecessor and with a free successor. */
  function Release(bs: seq<Block>, k: nat): (r: seq<Block>)
    requires k < |bs|
  {
    var a := SetUse(bs, k, Free);
    var b := if k > 0 && FreePair(a, k - 1) then JoinAt(a, k - 1) else a;
    var j := ReleasedAt(bs, k);
    if FreePair(b, j) then JoinAt(b, j) else b
  }

  /** Where the block that holds the released bytes stands afterwards. */
  function ReleasedAt(bs: seq<Block>, k: nat): (j: nat)
    requires k < |bs|
  {
    if k > 0 && bs[k - 1].use.Free? then k - 1 else k
  }

  /** Joining at `j` removes the free pair there; the only one it can leave is the one that was at `j + 1`. */
  lemma JoinPairs(a: seq<Block>, j: nat)
    requires FreePair(a, j)
    requires forall i :: 0 <= i < |a| && FreePair(a, i) ==> i == j || i == j + 1
    ensures forall i :: 0 <= i < |JoinAt(a, j)| && FreePair(JoinAt(a, j), i) ==> i == j && FreePair(a, j + 1)
  {
    var r := JoinAt(a, j);
    forall i | 0 <= i < |r| && FreePair(r, i) ensures i == j && FreePair(a, j + 1) {
      if i < j {
        assert FreePair(a, i);
      } else {
        assert FreePair(a, i + 1);
      }
    }
  }

  lemma ReleaseTiled(bs: seq<Block>, max: nat, k: nat)
    requires Tiled(bs, max) && k < |bs| && bs[k].use.Live?
    ensures Tiled(Release(bs, k), max)
    ensures ReleasedAt(bs, k) < |Release(bs, k)|
    ensures LiveBlocks(Release(bs, k)) == LiveBlocks(bs) - {bs[k]}
  {
    hide Gapless, JoinAt, LiveBlocks;
    var a := SetUse(bs, k, Free);
    FreeWellSized(bs, max, k);
    SetUseGapless(bs, max, k, Free);
    SetUseLive(bs, max, k, Free);
    forall i | 0 <= i < |a| && FreePair(a, i) ensures i == k || i + 1 == k {
      assert !FreePair(bs, i);
    }
    var j := ReleasedAt(bs, k);
    if j < k {
      assert !FreePair(bs, j);
      JoinGapless(a, max, j);
      JoinKeepsLive(a, j);
      JoinPairs(a, j);
      JoinLayout(a, j);
    }
    var b := if j < k then JoinAt(a, j) else a;
    if FreePair(b, j) {
      JoinGapless(b, max, j);
      JoinKeepsLive(b, j);
      JoinPairs(b, j);
      JoinLayout(b, j);
    }
  }

  /** One call of free on the live block at `st`. A roving pointer inside the merged block falls back to its start. */
  ghost function FreeBlock(s: Pool, st: nat): (r: Pool)
    requires Shaped(s) && IsLive(s.blocks, st)
  {
    var k := IndexOf(s.blocks, st);
    ReleaseTiled(s.blocks, s.max, k);
    var r := Release(s.blocks, k);
    var m := r[ReleasedAt(s.blocks, k)];
    Pool(r, if m.start < s.top < m.End() then m.start else s.top, s.max)
  }

  /** The roving pointer stays where it is, unless it pointed into the free block that now holds the released address;
      then it falls back to that block's start. */
  lemma FreeTop(s: Pool, st: nat)
    requires Shaped(s) && IsLive(s.blocks, st)
    ensures var t := FreeBlock(s, st);
            exists m :: m in t.blocks && m.use.Free? && m.start <= st < m.End()
                        && t.top == if m.start < s.top < m.End() then m.start else s.top
  {
    hide Gapless;
    var k := IndexOf(s.blocks, st);
    ReleaseTiled(s.blocks, s.max, k);
    HoldsReleased(s.blocks, s.max, k);
    var r := Release(s.blocks, k);
    assert r[ReleasedAt(s.blocks, k)] in r;
  }

  lemma HoldsReleased(bs: seq<Block>, max: nat, k: nat)
    requires Gapless(bs, max) && k < |bs|
    ensures ReleasedAt(bs, k) < |Release(bs, k)|
    ensures var m := Release(bs, k)[ReleasedAt(bs, k)]; m.use.Free? && m.start <= bs[k].start < m.End()
  {
    if k > 0 {
      NextBlock(bs, max, k - 1);
    }
    assert WellSized(bs[k]) && (k > 0 ==> WellSized(bs[k - 1])) && (k + 1 < |bs| ==> WellSized(bs[k + 1]));
  }

  lemma JoinBoundary(bs: seq<Block>, max: nat, k: nat, top: nat)
    requires Gapless(bs, max) && k + 1 < |bs| && Boundary(bs, max, top)
    ensures Boundary(JoinAt(bs, k), max, top) || bs[k].start < top == bs[k + 1].start < bs[k + 1].End()
  {
    if top != max {
      var i :| 0 <= i < |bs| && bs[i].start == top;
      NextBlock(bs, max, k);
      NextBlock(bs, max, k + 1);
      var r := JoinAt(bs, k);
      if i <= k { assert r[i].start == top; }
      if i > k + 1 { assert r[i - 1].start == top; }
    }
  }

  lemma FreeShaped(s: Pool, st: nat)
    requires Shaped(s) && IsLive(s.blocks, st)
    ensures Shaped(FreeBlock(s, st))
  {
    hide Gapless, WellSized, LiveBlocks, JoinAt;
    var bs, max, k := s.blocks, s.max, IndexOf(s.blocks, st);
    var a := SetUse(bs, k, Free);
    FreeWellSized(bs, max, k);
    SetUseGapless(bs, max, k, Free);
    ReleaseTiled(bs, max, k);
    assert Boundary(a, max, s.top) by {
      if s.top != max {
        var i :| 0 <= i < |bs| && bs[i].start == s.top;
        assert a[i].start == s.top;
      }
    }
    var j := ReleasedAt(bs, k);
    if j < k {
      JoinBoundary(a, max, j, s.top);
      JoinGapless(a, max, j);
      JoinLayout(a, j);
      NextBlock(a, max, j);
    }
    var b := if j < k then JoinAt(a, j) else a;
    if FreePair(b, j) {
      if Boundary(b, max, s.top) {
        JoinBoundary(b, max, j, s.top);
      }
      JoinLayout(b, j);
      NextBlock(b, max, j);
    }
  }

  // ---------------------------------------------------------------------------
  // The owner of a live block writing into its payload
  // ---------------------------------------------------------------------------

  ghost predicate InPayload(bs: seq<Block>, st: nat, off: nat, len: nat) {
    IsLive(bs, st) && off + len <= |bs[IndexOf(bs, st)].use.payload|
  }

  ghost function WriteBlock(s: Pool, st: nat, off: nat, bytes: seq<byte>): (r: Pool)
    requires InPayload(s.blocks, st, off, |bytes|)
  {
    var k := IndexOf(s.blocks, st);
    var use := s.blocks[k].use;
    s.(blocks := SetUse(s.blocks, k, Live(use.kind, Overwrite(use.payload, off, bytes))))
  }

  lemma WriteShaped(s: Pool, st: nat, off: nat, bytes: seq<byte>)
    requires Shaped(s) && InPayload(s.blocks, st, off, |bytes|)
    ensures Shaped(WriteBlock(s, st, off, bytes))
  {
    var bs, k := s.blocks, IndexOf(s.blocks, st);
    var r := WriteBlock(s, st, off, bytes).blocks;
    FreeWellSized(bs, s.max, k);
    SetUseGapless(bs, s.max, k, r[k].use);
    forall i | 0 <= i < |r| ensures !FreePair(r, i) {
      assert !FreePair(bs, i);
    }
    if s.top != s.max {
      var i :| 0 <= i < |bs| && bs[i].start == s.top;
      assert r[i].start == s.top;
    }
  }

  // ---------------------------------------------------------------------------
  // Headers that a release has left behind
  // ---------------------------------------------------------------------------

  /** A whole header at `st` lies in free block `b`, and is that block's own header or apart from it. */
  predicate Covers(b: Block, st: nat) {
    b.use.Free? && b.start <= st && st + HEADER <= b.End() && (st == b.start || b.start + HEADER <= st)
  }

  /** The header at `st` lies in a free block. */
  ghost predicate Stale(bs: seq<Block>, st: nat) {
    exists k :: 0 <= k < |bs| && Covers(bs[k], st)
  }

  predicate Clear(p: nat, q: nat) {
    p == q || p + HEADER <= q || q + HEADER <= p
  }

  /** The header at `q` overlaps no block's header or the sentinel, unless it is that very header. */
  ghost predicate Settled(bs: seq<Block>, max: nat, q: nat) {
    Clear(max, q) && forall i :: 0 <= i < |bs| ==> Clear(bs[i].start, q)
  }

  lemma StaleSettled(bs: seq<Block>, max: nat, q: nat)
    requires Gapless(bs, max) && Stale(bs, q)
    ensures Settled(bs, max, q)
  {
    var k :| 0 <= k < |bs| && Covers(bs[k], q);
    Apart(bs, max, k);
  }

  /** Marking a live block free moves no header, and its own header is none of those left behind. */
  lemma FreeApart(bs: seq<Block>, max: nat, k: nat, q: nat)
    requires Gapless(bs, max) && k < |bs| && bs[k].use.Live? && Stale(bs, q)
    ensures q + HEADER <= bs[k].start || bs[k].End() <= q
    ensures Settled(SetUse(bs, k, Free), max, q)
  {
    var i :| 0 <= i < |bs| && Covers(bs[i], q);
    Apart(bs, max, i);
    StaleSettled(bs, max, q);
    var a := SetUse(bs, k, Free);
    forall j | 0 <= j < |a| ensures Clear(a[j].start, q) {
      assert Clear(bs[j].start, q);
    }
  }

  lemma SettledAtJoin(bs: seq<Block>, max: nat, k: nat, q: nat)
    requires Gapless(bs, max) && k + 1 < |bs| && Settled(bs, max, q)
    ensures Clear(bs[k].start, q) && Clear(bs[k + 1].End(), q)
  {
    NextBlock(bs, max, k + 1);
    assert Clear(bs[k].start, q) && (if k + 2 < |bs| then Clear(bs[k + 2].start, q) else Clear(max, q));
  }

  lemma JoinSettled(bs: seq<Block>, max: nat, k: nat, q: nat)
    requires k + 1 < |bs| && Settled(bs, max, q)
    ensures Settled(JoinAt(bs, k), max, q)
  {
    JoinLayout(bs, k);
    forall i | 0 <= i < |JoinAt(bs, k)| ensures Clear(JoinAt(bs, k)[i].start, q) {
      assert Clear(bs[if i <= k then i else i + 1].start, q);
    }
  }

  lemma JoinStale(bs: seq<Block>, max: nat, k: nat, q: nat)
    requires Gapless(bs, max) && FreePair(bs, k) && Stale(bs, q)
    ensures Stale(JoinAt(bs, k), q)
  {
    hide Gapless;
    var i :| 0 <= i < |bs| && Covers(bs[i], q);
    NextBlock(bs, max, k);
    NextBlock(bs, max, k + 1);
    JoinLayout(bs, k);
    var r := JoinAt(bs, k);
    assert Covers(r[if i <= k then i else i - 1], q);
  }

  /** Releasing a block leaves its own header, and every header left behind earlier, in a free block. */
  lemma ReleaseStale(bs: seq<Block>, max: nat, k: nat, q: nat)
    requires Tiled(bs, max) && k < |bs| && bs[k].use.Live? && (Stale(bs, q) || q == bs[k].start)
    ensures Stale(Release(bs, k), q)
  {
    hide Gapless, JoinAt;
    var a := SetUse(bs, k, Free);
    FreeWellSized(bs, max, k);
    SetUseGapless(bs, max, k, Free);
    NextBlock(a, max, k);
    if Stale(bs, q) {
      var i :| 0 <= i < |bs| && Covers(bs[i], q);
      assert Covers(a[i], q);
    } else {
      assert Covers(a[k], q);
    }
    var j := ReleasedAt(bs, k);
    if j < k {
      JoinStale(a, max, j, q);
      JoinGapless(a, max, j);
      JoinLayout(a, j);
    }
    var b := if j < k then JoinAt(a, j) else a;
    if FreePair(b, j) {
      JoinStale(b, max, j, q);
    }
  }

  lemma WriteStale(s: Pool, st: nat, off: nat, bytes: seq<byte>, q: nat)
    requires InPayload(s.blocks, st, off, |bytes|) && Stale(s.blocks, q)
    ensures Stale(WriteBlock(s, st, off, bytes).blocks, q)
  {
    var i :| 0 <= i < |s.blocks| && Covers(s.blocks[i], q);
    assert Covers(WriteBlock(s, st, off, bytes).blocks[i], q);
  }
}
