/** Saving and resuming a coroutine, src/coroutine/co_context.c: the machine stack is a byte array indexed
    by address, a saved context is the payload of a pool block. */
module CoContext {
  import opened Bytes
  import opened MemBlocks
  import opened MemRuns
  import opened CoMemPool

  /** sizeof(HC_CoContext): rsp, r12..r15 and rbx, before the frame bytes. */
  const CONTEXT: nat := 48

  type word = x: int | 0 <= x < 0x1_0000_0000_0000_0000

  /** The callee-saved registers. */
  datatype Regs = Regs(r12: word, r13: word, r14: word, r15: word, rbx: word)

  function Words(rsp: nat, regs: Regs): (s: seq<byte>)
    ensures |s| == CONTEXT
  {
    ToLe(rsp, 8) + ToLe(regs.r12, 8) + ToLe(regs.r13, 8) + ToLe(regs.r14, 8)
    + ToLe(regs.r15, 8) + ToLe(regs.rbx, 8)
  }

  /** The bytes of a saved context. */
  function Saved(rsp: nat, regs: Regs, frame: seq<byte>): (s: seq<byte>)
    ensures |s| == CONTEXT + |frame|
  {
    Words(rsp, regs) + frame
  }

  lemma MiddleOf(s: seq<byte>, x: seq<byte>, y: seq<byte>, z: seq<byte>)
    requires s == x + y + z
    ensures s[|x|..|x| + |y|] == y
  {}

  lemma SixWords(a: seq<byte>, b: seq<byte>, c: seq<byte>, d: seq<byte>, e: seq<byte>, f: seq<byte>)
    requires |a| == |b| == |c| == |d| == |e| == |f| == 8
    ensures var s := a + b + c + d + e + f;
      s[0..8] == a && s[8..16] == b && s[16..24] == c && s[24..32] == d && s[32..40] == e && s[40..48] == f
  {
    var s := a + b + c + d + e + f;
    MiddleOf(s, [], a, b + c + d + e + f);
    MiddleOf(s, a, b, c + d + e + f);
    MiddleOf(s, a + b, c, d + e + f);
    MiddleOf(s, a + b + c, d, e + f);
    MiddleOf(s, a + b + c + d, e, f);
    MiddleOf(s, a + b + c + d + e, f, []);
  }

  lemma WordAt(rsp: nat, regs: Regs)
    requires rsp < 0x1_0000_0000_0000_0000
    ensures var s := Words(rsp, regs);
      && FromLe(s[0..8]) == rsp && FromLe(s[8..16]) == regs.r12 && FromLe(s[16..24]) == regs.r13
      && FromLe(s[24..32]) == regs.r14 && FromLe(s[32..40]) == regs.r15 && FromLe(s[40..48]) == regs.rbx
  {
    hide ToLe, FromLe, Pow256;
    Pow256Widths();
    var s := Words(rsp, regs);
    LoadUndoesStore(rsp, 8);
    LoadUndoesStore(regs.r12, 8);
    LoadUndoesStore(regs.r13, 8);
    LoadUndoesStore(regs.r14, 8);
    LoadUndoesStore(regs.r15, 8);
    LoadUndoesStore(regs.rbx, 8);
    SixWords(ToLe(rsp, 8), ToLe(regs.r12, 8), ToLe(regs.r13, 8), ToLe(regs.r14, 8), ToLe(regs.r15, 8),
             ToLe(regs.rbx, 8));
  }

  lemma SavedFields(mem: seq<byte>, p: nat, rsp: nat, regs: Regs, frame: seq<byte>)
    requires rsp < 0x1_0000_0000_0000_0000 && p + CONTEXT + |frame| <= |mem|
    requires mem[p..p + CONTEXT + |frame|] == Saved(rsp, regs, frame)
    ensures mem[p + CONTEXT..p + CONTEXT + |frame|] == frame
    ensures FromLe(mem[p..p + 8]) == rsp
    ensures FromLe(mem[p + 8..p + 16]) == regs.r12 && FromLe(mem[p + 16..p + 24]) == regs.r13
    ensures FromLe(mem[p + 24..p + 32]) == regs.r14 && FromLe(mem[p + 32..p + 40]) == regs.r15
    ensures FromLe(mem[p + 40..p + 48]) == regs.rbx
  {
    hide FromLe, Words;
    var n := CONTEXT + |frame|;
    assert Words(rsp, regs) == mem[p..p + n][..CONTEXT];
    assert frame == mem[p..p + n][CONTEXT..n];
    WordAt(rsp, regs);
    SliceOfSlice(mem, p, n, CONTEXT, n);
    WordSlice(mem, p, n, 0, 8);
    WordSlice(mem, p, n, 8, 16);
    WordSlice(mem, p, n, 16, 24);
    WordSlice(mem, p, n, 24, 32);
    WordSlice(mem, p, n, 32, 40);
    WordSlice(mem, p, n, 40, 48);
  }

  lemma WordSlice(mem: seq<byte>, p: nat, n: nat, lo: nat, hi: nat)
    requires CONTEXT <= n && p + n <= |mem| && lo <= hi <= CONTEXT
    ensures mem[p + lo..p + hi] == mem[p..p + n][..CONTEXT][lo..hi]
  {
    SliceOfSlice(mem, p, n, lo, hi);
    SliceOfSlice(mem[p..p + n], 0, CONTEXT, lo, hi);
  }

  /** The block at `top` is live and holds exactly this context. */
  ghost predicate Holding(s: Pool, top: nat, context: seq<byte>) {
    IsLive(s.blocks, top) && s.blocks[IndexOf(s.blocks, top)].use.payload == context
  }

  /** A saved context stays whole through any interleaving of other pool operations. */
  lemma SavedSurvives(s: Pool, ops: seq<Op>, top: nat, context: seq<byte>)
    requires Shaped(s) && LegalRun(s, ops) && Holding(s, top, context)
    requires forall i :: 0 <= i < |ops| ==> !Touches(ops[i], top)
    ensures Shaped(Run(s, ops)) && Holding(Run(s, ops), top, context)
  {
    var b := s.blocks[IndexOf(s.blocks, top)];
    assert b in LiveBlocks(s.blocks);
    RunKeeps(s, ops, b);
    RunShaped(s, ops);
    LiveAt(Run(s, ops).blocks, s.max, b);
  }

  lemma MallocGrants(s: Pool, junk: seq<byte>)
    requires Shaped(s) && |junk| < 0x1_0000_0000
    ensures var (t, top) := MemBlocks.Malloc(s, |junk|, 0, junk);
      && (top == 0 <==> Choice(s.blocks, |junk|, StartBlock(s, |junk|)) == |s.blocks|)
      && (top == 0 ==> t == s)
      && (top != 0 ==> Shaped(t) && Holding(t, top, junk)
                       && forall b :: b in LiveBlocks(s.blocks) ==> b.start != top && b in LiveBlocks(t.blocks))
  {
    MallocLive(s, 0, junk);
    MallocShaped(s, |junk|, 0, junk);
    var (t, top) := MemBlocks.Malloc(s, |junk|, 0, junk);
    var k := Choice(s.blocks, |junk|, StartBlock(s, |junk|));
    if k < |s.blocks| {
      InArena(s.blocks, s.max, k);
    }
    if top != 0 {
      var len :| LiveBlocks(t.blocks) == LiveBlocks(s.blocks) + {Block(top, len, Live(0, junk))};
      LiveAt(t.blocks, t.max, Block(top, len, Live(0, junk)));
    }
  }

  lemma WriteHolding(s: Pool, top: nat, payload: seq<byte>, off: nat, bytes: seq<byte>)
    requires Shaped(s) && Holding(s, top, payload) && off + |bytes| <= |payload|
    ensures InPayload(s.blocks, top, off, |bytes|)
    ensures var t := WriteBlock(s, top, off, bytes);
      && Shaped(t) && Holding(t, top, Overwrite(payload, off, bytes))
      && forall b :: b in LiveBlocks(s.blocks) && b.start != top ==> b in LiveBlocks(t.blocks)
  {
    var k := IndexOf(s.blocks, top);
    var t := WriteBlock(s, top, off, bytes);
    WriteShaped(s, top, off, bytes);
    SetUseLive(s.blocks, s.max, k, t.blocks[k].use);
    LiveAt(t.blocks, t.max, t.blocks[k]);
  }

  class Coroutines {
    const pool: MemPool
    /** The machine stack; it grows downwards from `base`. */
    const stack: array<byte>
    const base: nat
    var regs: Regs

    constructor (pool: MemPool, stack: array<byte>, base: nat)
      requires pool.Valid() && stack != pool.data && base <= stack.Length < ARENA_LIMIT
      ensures Valid() && this.pool == pool && this.stack == stack && this.base == base
    {
      this.pool, this.stack, this.base := pool, stack, base;
      regs := Regs(0, 0, 0, 0, 0);
    }

    ghost predicate Valid()
      reads this, pool, pool.data
    {
      pool.Valid() && stack != pool.data && base <= stack.Length < ARENA_LIMIT
    }

    /** Copies the frame [rsp, base) and the registers into a fresh block; 0 when the pool has no room. */
    method Save(rsp: nat) returns (top: nat)
      requires Valid() && rsp <= base
      requires base - rsp + CONTEXT < 0x8000_0000
      requires |pool.blocks| >= 2 || Fits(pool.blocks[0], base - rsp + CONTEXT)
      modifies pool`top, pool`blocks, pool.data
      ensures Valid()
      ensures top == 0
              <==> Choice(old(pool.blocks), base - rsp + CONTEXT, StartBlock(old(pool.State()), base - rsp + CONTEXT))
                   == |old(pool.blocks)|
      ensures top == 0 ==> pool.State() == old(pool.State())
      ensures top != 0 ==> Holding(pool.State(), top, Saved(rsp, regs, stack[rsp..base]))
      ensures top != 0 ==> forall b :: b in LiveBlocks(old(pool.blocks)) ==>
                && b.start != top
                && b in LiveBlocks(pool.blocks)
    {
      hide LiveBlocks, Shaped, IsLive, IndexOf, MemBlocks.Malloc, WriteBlock;
      var lenFrame := base - rsp;
      top := pool.Malloc(lenFrame + CONTEXT, 0);
      ghost var junk := if top == 0 then seq(lenFrame + CONTEXT, _ => 0)
          else pool.Slice(top + HEADER, lenFrame + CONTEXT);
      MallocGrants(old(pool.State()), junk);
      if top == 0 {
        return;
      }
      ghost var s0 := pool.State();
      var head, frame := Words(rsp, regs), stack[rsp..base];
      WriteHolding(s0, top, junk, 0, head);
      pool.Write(top, 0, head);
      WriteHolding(pool.State(), top, Overwrite(junk, 0, head), CONTEXT, frame);
      pool.Write(top, CONTEXT, frame);
      assert Overwrite(Overwrite(junk, 0, head), CONTEXT, frame) == Saved(rsp, regs, frame);
    }

    /** Where the caller's own frame, [rspCur, rbpCur), stands while the frame saved at `rsp` is copied back: it is
        moved out of the way when the two could meet. */
    static function OwnFrame(rsp: nat, rspCur: nat, rbpCur: nat): int {
      if rsp > rbpCur then rspCur
      else if rsp > rspCur then rspCur - (rbpCur - rspCur)
      else rsp - (rbpCur - rspCur)
    }

    /** The part of resume that follows the release of the block: moves the caller's own frame out of the way,
        then copies the saved frame and registers back. Both frames are whole afterwards. */
    method Restore(top: nat, rspCur: nat, rbpCur: nat, ghost rsp: nat, ghost saved: Regs, ghost frame: seq<byte>)
      requires top + HEADER + CONTEXT + |frame| <= pool.data.Length && stack != pool.data
      requires pool.data[top + HEADER..top + HEADER + CONTEXT + |frame|] == Saved(rsp, saved, frame)
      requires pool.Hdr(top).lenData == CONTEXT + |frame|
      requires rspCur <= rbpCur <= base <= stack.Length < ARENA_LIMIT && rsp + |frame| <= stack.Length
      requires OwnFrame(rsp, rspCur, rbpCur) >= 0
      modifies this`regs, stack
      ensures regs == saved && stack[rsp..rsp + |frame|] == frame
      ensures var at := OwnFrame(rsp, rspCur, rbpCur);
              && at + (rbpCur - rspCur) <= rsp && (at == rspCur || at + (rbpCur - rspCur) <= rspCur)
              && stack[at..at + (rbpCur - rspCur)] == old(stack[rspCur..rbpCur])
      ensures forall a :: rsp + |frame| <= a < stack.Length ==> stack[a] == old(stack[a])
    {
      hide MemPool.Hdr, MemPool.LenData, Words, FromLe, Saved;
      SavedFields(pool.data[..], top + HEADER, rsp, saved, frame);
      var p := top + HEADER;
      var rspSaved := FromLe(pool.data[p..p + 8]);
      MoveOwnFrame(rspSaved, rspCur, rbpCur);
      ghost var moved := stack[..rsp];
      var lenStack := pool.LenData(top) - CONTEXT;
      CopyIn(stack, rspSaved, pool.data[p + CONTEXT..p + CONTEXT + lenStack]);
      assert stack[..rsp] == moved;
      BelowKept(stack[..], moved, OwnFrame(rsp, rspCur, rbpCur), rbpCur - rspCur);
      regs := Regs(FromLe(pool.data[p + 8..p + 16]), FromLe(pool.data[p + 16..p + 24]),
          FromLe(pool.data[p + 24..p + 32]),
                   FromLe(pool.data[p + 32..p + 40]), FromLe(pool.data[p + 40..p + 48]));
    }

    static lemma BelowKept(now: seq<byte>, below: seq<byte>, at: nat, n: nat)
      requires at + n <= |below| <= |now| && now[..|below|] == below
      ensures now[at..at + n] == below[at..at + n]
    {
      assert now[..|below|][at..at + n] == now[at..at + n];
    }

    /** The caller's own frame, out of the way of a frame saved at `rsp`. */
    method MoveOwnFrame(rsp: nat, rspCur: nat, rbpCur: nat)
      requires rspCur <= rbpCur <= stack.Length && rsp <= stack.Length && OwnFrame(rsp, rspCur, rbpCur) >= 0
      modifies stack
      ensures var at := OwnFrame(rsp, rspCur, rbpCur);
              && at + (rbpCur - rspCur) <= rsp && stack[..rsp][at..at + (rbpCur - rspCur)] == old(stack[rspCur..rbpCur])
      ensures forall a :: rsp <= a < stack.Length ==> stack[a] == old(stack[a])
    {
      var lenStack := rbpCur - rspCur;
      ghost var own := stack[rspCur..rbpCur];
      if rsp <= rbpCur {
        var rspNew := if rsp > rspCur then rspCur - lenStack else rsp - lenStack;
        CopyIn(stack, rspNew, stack[rspCur..rbpCur]);
      }
      ghost var at: nat := OwnFrame(rsp, rspCur, rbpCur);
      assert stack[at..at + lenStack] == own;
    }

    /** Wakes the coroutine saved in the block at `top`; the caller's own frame is [rspCur, rbpCur). The block is
        released first and its bytes are read afterwards. A header that is no longer in use wakes nobody, and so
        does a length whose low 16 bits are zero, because the guard looks at it as a short int. */
    method Resume(top: nat, rspCur: nat, rbpCur: nat, ghost rsp: nat, ghost saved: Regs, ghost frame: seq<byte>)
      returns (resumed: bool)
      requires Valid() && top + HEADER <= pool.data.Length && rspCur <= rbpCur <= base
      requires pool.Hdr(top).status == 0 || (&& Holding(pool.State(), top, Saved(rsp, saved, frame))
                                             && rsp + |frame| <= stack.Length && OwnFrame(rsp, rspCur, rbpCur) >= 0)
      modifies this`regs, pool`top, pool`blocks, pool.data, stack
      ensures Valid()
      ensures resumed <==> old(pool.Hdr(top).status) != 0 && (CONTEXT + |frame|) % 0x1_0000 != 0
      ensures !resumed ==> unchanged(this) && unchanged(pool) && unchanged(pool.data) && unchanged(stack)
      ensures resumed ==> pool.State() == FreeBlock(old(pool.State()), top) && pool.Released(top)
      ensures forall q: nat {:trigger pool.Released(q)} :: old(pool.Released(q)) ==> pool.Released(q)
      ensures resumed ==> regs == saved && rsp + |frame| <= stack.Length && stack[rsp..rsp + |frame|] == frame
      ensures resumed ==> var at := OwnFrame(rsp, rspCur, rbpCur);
                          && 0 <= at && at + (rbpCur - rspCur) <= rsp
                          && stack[at..at + (rbpCur - rspCur)] == old(stack[rspCur..rbpCur])
      ensures resumed ==> forall a :: rsp + |frame| <= a < stack.Length ==> stack[a] == old(stack[a])
    {
      hide Shaped, LiveBlocks, FreeBlock, MemPool.Represents, MemPool.Hdr, MemPool.Released, Saved, Words;
      if pool.Hdr(top).status != 0 {
        pool.LiveHeader(top);
      }
      var lenData := pool.LenData(top);
      if pool.Check(top) != top || lenData % 0x1_0000 == 0 || pool.Status(top) == 0 {
        return false;
      }
      pool.FreeAt(top);
      Restore(top, rspCur, rbpCur, rsp, saved, frame);
      resumed := true;
    }

    /** A coroutine is resumed at most once: when its block has been released, a further resume changes nothing,
        whatever other blocks have been released or written to in between, as long as nothing has been allocated. */
    method ResumeAgain(top: nat, rspCur: nat, rbpCur: nat, ops: seq<Op>) returns (resumed: bool)
      requires Valid() && top + HEADER <= pool.data.Length && rspCur <= rbpCur <= base && pool.Released(top)
      requires LegalRun(pool.State(), ops) && forall i :: 0 <= i < |ops| ==> !ops[i].MallocOp?
      modifies this`regs, pool`top, pool`blocks, pool.data, stack
      ensures Valid() && !resumed && pool.Released(top)
      ensures pool.State() == Run(old(pool.State()), ops) && unchanged(this) && unchanged(stack)
    {
      hide Shaped, MemPool.Represents, MemPool.Hdr, Saved, Words, Run, Stale;
      pool.PerformAll(ops);
      assert pool.Released(top);
      assert pool.Hdr(top).status == 0;
      resumed := Resume(top, rspCur, rbpCur, 0, regs, []);
    }
  }
}
