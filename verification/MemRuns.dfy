/** What the block list keeps over whole runs of allocations, releases and payload writes. */
module MemRuns {
  import opened Bytes
  import opened MemBlocks

  /** `junk` is what the granted bytes happen to hold. */
  datatype Op =
    | MallocOp(kind: nat, junk: seq<byte>)
    | FreeOp(st: nat)
    | WriteOp(st: nat, off: nat, bytes: seq<byte>)

  ghost predicate Legal(s: Pool, op: Op) {
    match op
    case MallocOp(kind, junk) =>
      kind < 16 && |junk| < 0x1_0000_0000 && |s.blocks| > 0 && (|s.blocks| >= 2 || Fits(s.blocks[0], |junk|))
    case FreeOp(st) => IsLive(s.blocks, st)
    case WriteOp(st, off, bytes) => InPayload(s.blocks, st, off, |bytes|)
  }

  ghost function Step(s: Pool, op: Op): (r: Pool)
    requires Shaped(s) && Legal(s, op)
  {
    match op
    case MallocOp(kind, junk) => Malloc(s, |junk|, kind, junk).0
    case FreeOp(st) => FreeBlock(s, st)
    case WriteOp(st, off, bytes) => WriteBlock(s, st, off, bytes)
  }

  lemma StepShaped(s: Pool, op: Op)
    requires Shaped(s) && Legal(s, op)
    ensures Shaped(Step(s, op)) && Step(s, op).max == s.max
  {
    match op
    case MallocOp(kind, junk) => MallocShaped(s, |junk|, kind, junk);
    case FreeOp(st) => FreeShaped(s, st);
    case WriteOp(st, off, bytes) => WriteShaped(s, st, off, bytes);
  }

  ghost predicate LegalRun(s: Pool, ops: seq<Op>)
    decreases |ops|
  {
    ops == [] || (Shaped(s) && Legal(s, ops[0]) && LegalRun(Step(s, ops[0]), ops[1..]))
  }

  ghost function Run(s: Pool, ops: seq<Op>): (r: Pool)
    requires LegalRun(s, ops)
    decreases |ops|
  {
    if ops == [] then s else Run(Step(s, ops[0]), ops[1..])
  }

  /** The heap shape survives every interleaving of the operations. */
  lemma {:induction false} RunShaped(s: Pool, ops: seq<Op>)
    requires Shaped(s) && LegalRun(s, ops)
    ensures Shaped(Run(s, ops)) && Run(s, ops).max == s.max
    decreases |ops|
  {
    if ops != [] {
      StepShaped(s, ops[0]);
      RunShaped(Step(s, ops[0]), ops[1..]);
    }
  }

  /** Payloads of two live blocks never share a byte, nor does a payload touch any block's header. */
  lemma PayloadsDisjoint(s: Pool, i: nat, j: nat, a: nat)
    requires Shaped(s) && i < |s.blocks| && j < |s.blocks| && s.blocks[i].use.Live?
    requires var b := s.blocks[i]; b.start + HEADER <= a < b.start + HEADER + |b.use.payload|
    ensures 1 <= a < s.max
    ensures !(s.blocks[j].start <= a < s.blocks[j].start + HEADER)
    ensures s.blocks[j].use.Live? && i != j ==>
              !(s.blocks[j].start + HEADER <= a < s.blocks[j].start + HEADER + |s.blocks[j].use.payload|)
  {
    Apart(s.blocks, s.max, i);
  }

  // ---------------------------------------------------------------------------
  // Live blocks over runs
  // ---------------------------------------------------------------------------

  lemma LiveAt(bs: seq<Block>, max: nat, b: Block)
    requires Gapless(bs, max) && b in LiveBlocks(bs)
    ensures IsLive(bs, b.start) && bs[IndexOf(bs, b.start)] == b
  {
    var i :| 0 <= i < |bs| && bs[i] == b;
    IndexOfStart(bs, max, i);
  }

  lemma MallocLive(s: Pool, kind: nat, junk: seq<byte>)
    requires Shaped(s) && kind < 16 && |junk| < 0x1_0000_0000
    ensures var (t, st) := Malloc(s, |junk|, kind, junk);
            && (st == 0 ==> t == s)
            && (st != 0 ==>
                  && (exists len :: LiveBlocks(t.blocks) == LiveBlocks(s.blocks) + {Block(st, len, Live(kind, junk))})
                  && (forall b :: b in LiveBlocks(s.blocks) ==> b.start != st))
  {
    var bs := s.blocks;
    var n := |junk|;
    var k := Choice(bs, n, StartBlock(s, n));
    if k < |bs| {
      InArena(bs, s.max, k);
      var need := n + HEADER;
      var cut := bs;
      if HEADER < bs[k].len - need {
        cut := SplitAt(bs, k, need);
        SplitGapless(bs, s.max, k, need);
        SplitKeepsLive(bs, k, need);
      }
      SetUseLive(cut, s.max, k, Live(kind, junk));
      forall b | b in LiveBlocks(bs) ensures b.start != bs[k].start {
        LiveAt(bs, s.max, b);
        IndexOfStart(bs, s.max, k);
      }
      assert LiveBlocks(Place(bs, k, kind, junk))
          == LiveBlocks(bs) + {Block(bs[k].start, cut[k].len, Live(kind, junk))};
    }
  }

  ghost predicate Touches(op: Op, st: nat) {
    (op.FreeOp? && op.st == st) || (op.WriteOp? && op.st == st)
  }

  lemma StepKeeps(s: Pool, op: Op, b: Block)
    requires Shaped(s) && Legal(s, op) && b in LiveBlocks(s.blocks) && !Touches(op, b.start)
    ensures b in LiveBlocks(Step(s, op).blocks)
  {
    LiveAt(s.blocks, s.max, b);
    match op
    case MallocOp(kind, junk) =>
      MallocLive(s, kind, junk);
    case FreeOp(st) =>
      ReleaseTiled(s.blocks, s.max, IndexOf(s.blocks, st));
    case WriteOp(st, off, bytes) =>
      var k := IndexOf(s.blocks, st);
      SetUseLive(s.blocks, s.max, k, WriteBlock(s, st, off, bytes).blocks[k].use);
  }

  /** A live block keeps its place, its length and every payload byte through any run in which nobody
      frees it or writes to it. */
  lemma {:induction false} RunKeeps(s: Pool, ops: seq<Op>, b: Block)
    requires Shaped(s) && LegalRun(s, ops) && b in LiveBlocks(s.blocks)
    requires forall i :: 0 <= i < |ops| ==> !Touches(ops[i], b.start)
    ensures b in LiveBlocks(Run(s, ops).blocks)
    decreases |ops|
  {
    if ops != [] {
      StepShaped(s, ops[0]);
      StepKeeps(s, ops[0], b);
      RunKeeps(Step(s, ops[0]), ops[1..], b);
    }
  }

  // ---------------------------------------------------------------------------
  // Releasing everything
  // ---------------------------------------------------------------------------

  /** With nothing live, coalescing has left one free block over the whole arena. */
  lemma NothingLive(s: Pool)
    requires Shaped(s) && LiveBlocks(s.blocks) == {}
    ensures s.blocks == [Block(1, s.max - 1, Free)]
  {
    var bs := s.blocks;
    assert forall i :: 0 <= i < |bs| && bs[i].use.Live? ==> bs[i] in LiveBlocks(bs);
    if |bs| > 1 {
      assert FreePair(bs, 0);
    }
    assert bs == [bs[0]];
  }

  ghost function Frees(order: seq<nat>): (ops: seq<Op>)
    ensures |ops| == |order| && forall i :: 0 <= i < |order| ==> ops[i] == FreeOp(order[i])
  {
    seq(|order|, i requires 0 <= i < |order| => FreeOp(order[i]))
  }

  ghost function LiveStarts(s: Pool): set<nat> {
    set b | b in LiveBlocks(s.blocks) :: b.start
  }

  lemma FreeStarts(s: Pool, st: nat)
    requires Shaped(s) && IsLive(s.blocks, st)
    ensures LiveStarts(FreeBlock(s, st)) == LiveStarts(s) - {st} && FreeBlock(s, st).max == s.max
  {
    var k := IndexOf(s.blocks, st);
    ReleaseTiled(s.blocks, s.max, k);
    var r := FreeBlock(s, st);
    forall b | b in LiveBlocks(s.blocks) && b.start == st ensures b == s.blocks[k] {
      LiveAt(s.blocks, s.max, b);
    }
  }

  lemma StartLive(s: Pool, st: nat)
    requires Shaped(s) && st in LiveStarts(s)
    ensures IsLive(s.blocks, st)
  {
    var b :| b in LiveBlocks(s.blocks) && b.start == st;
    LiveAt(s.blocks, s.max, b);
  }

  /** `order` names every live block once. */
  ghost predicate Enumerates(s: Pool, order: seq<nat>) {
    && (forall st :: st in LiveStarts(s) <==> st in order)
    && (forall i, j :: 0 <= i < j < |order| ==> order[i] != order[j])
  }

  lemma FreeFirst(s: Pool, order: seq<nat>)
    requires Shaped(s) && Enumerates(s, order) && order != []
    ensures IsLive(s.blocks, order[0])
    ensures var t := FreeBlock(s, order[0]);
            Shaped(t) && t.max == s.max && Enumerates(t, order[1..])
  {
    hide LiveStarts, FreeBlock, Shaped, IsLive;
    StartLive(s, order[0]);
    FreeShaped(s, order[0]);
    FreeStarts(s, order[0]);
  }

  /** Freeing every live block, in whatever order, gives back the one free block of the fresh arena. */
  lemma {:induction false} FreeAll(s: Pool, order: seq<nat>)
    requires Shaped(s) && Enumerates(s, order)
    ensures LegalRun(s, Frees(order))
    ensures Run(s, Frees(order)).blocks == [Block(1, s.max - 1, Free)]
    decreases |order|
  {
    hide LiveStarts, FreeBlock, Shaped, IsLive, Enumerates;
    if order == [] {
      NoStarts(s, order);
      NothingLive(s);
    } else {
      FreeFirst(s, order);
      assert Frees(order)[1..] == Frees(order[1..]);
      FreeAll(FreeBlock(s, order[0]), order[1..]);
    }
  }

  lemma NoStarts(s: Pool, order: seq<nat>)
    requires Enumerates(s, order) && order == []
    ensures LiveBlocks(s.blocks) == {}
  {
    assert forall b :: b in LiveBlocks(s.blocks) ==> b.start in LiveStarts(s);
  }
}
