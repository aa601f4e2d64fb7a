/** The connection pool on top of the coroutine stack pool: src/util/hc_data.c, src/coroutine/co_network.c and
    src/coroutine/co_context.c together. A coroutine that has to wait is saved in a block of the stack pool, and the
    callback that hands it a connection resumes it from that block. */
module ConnStack {
  import opened Bytes
  import opened MemBlocks
  import MemRuns
  import opened CoMemPool
  import opened CoContext
  import opened EventLoop
  import Rings
  import ConnRuns
  import opened ConnLinks
  import opened ConnPool

  /** What a saved coroutine goes on with. */
  datatype Context = Context(rsp: nat, regs: Regs, frame: seq<byte>)

  function ContextBytes(x: Context): seq<byte> {
    Saved(x.rsp, x.regs, x.frame)
  }

  /** Every waiter's block and every block that a scheduled callback resumes is in use, and no block is resumed twice.
      */
  ghost predicate Orderly(frames: set<nat>, cbs: seq<CallBack>, tops: set<nat>) {
    && frames <= tops
    && (forall k :: 0 <= k < |cbs| && cbs[k].fun == RESUME ==> cbs[k].arg1 in tops)
    && (forall j, k :: 0 <= j < k < |cbs| && cbs[j].fun == RESUME && cbs[k].fun == RESUME ==>
           cbs[j].arg1 != cbs[k].arg1)
  }

  /** The block at `top` holds the context, which is not of a length that is never resumed. */
  ghost predicate Keeps(s: MemBlocks.Pool, x: Context, top: nat, len: nat) {
    && Holding(s, top, ContextBytes(x)) && x.rsp + |x.frame| <= len && (CONTEXT + |x.frame|) % 0x1_0000 != 0
  }

  ghost predicate AllKept(contexts: map<nat, Context>, s: MemBlocks.Pool, len: nat) {
    forall top :: top in contexts ==> Keeps(s, contexts[top], top, len)
  }

  lemma NewIsFresh(frames: map<nat, nat>, cbs: seq<CallBack>, tops: set<nat>, top: nat)
    requires Orderly(frames.Keys, cbs, tops) && top !in tops
    ensures FreshTop(top, frames, cbs)
  {}

  lemma OneSaved(frames: set<nat>, cbs: seq<CallBack>, tops: set<nat>, top: nat)
    requires Orderly(frames, cbs, tops)
    ensures Orderly(frames, cbs, tops + {top}) && Orderly(frames + {top}, cbs, tops + {top})
  {}

  /** A callback has been run; if it resumed a coroutine, its block is free. */
  lemma OneRun(frames: set<nat>, cbs: seq<CallBack>, tops: set<nat>)
    requires Orderly(frames, cbs, tops) && cbs != []
    ensures cbs[0].fun == RESUME ==> Orderly(frames - {cbs[0].arg1}, cbs[1..], tops - {cbs[0].arg1})
    ensures cbs[0].fun != RESUME ==> Orderly(frames, cbs[1..], tops)
  {}

  lemma OneMore(frames: set<nat>, cbs: seq<CallBack>, tops: set<nat>, cb: CallBack)
    requires Orderly(frames, cbs, tops)
    requires cb.fun == RESUME ==> cb.arg1 in tops && NotScheduled(cbs, cb.arg1)
    ensures Orderly(frames, cbs + [cb], tops)
  {}

  ghost predicate NotScheduled(cbs: seq<CallBack>, top: nat) {
    forall k :: 0 <= k < |cbs| ==> !(cbs[k].fun == RESUME && cbs[k].arg1 == top)
  }

  lemma {:induction false} OursHas(cbs: seq<CallBack>, tops: set<nat>, k: nat) returns (m: nat)
    requires k < |cbs| && Mine(cbs[k], tops)
    ensures m < |Ours(cbs, tops)| && Ours(cbs, tops)[m] == cbs[k]
    decreases k
  {
    if k == 0 {
      m := 0;
    } else {
      m := OursHas(cbs[1..], tops, k - 1);
      if Mine(cbs[0], tops) {
        m := m + 1;
      }
    }
  }

  /** A scheduled callback that resumes a coroutine of the pool is one of the hand-overs. */
  lemma ScheduledIsHanded(l: Link, k: nat) returns (m: nat)
    requires Coupled(l) && k < |l.scheduled| && Mine(l.scheduled[k], l.frames.Keys)
    ensures m < |l.handed| && (ConnRuns.Firsts(l.handed) + Waiters(l))[m].top == l.scheduled[k].arg1
  {
    m := OursHas(l.scheduled, l.frames.Keys, k);
    assert Calls(l.handed)[m] == l.scheduled[k];
  }

  /** A coroutine that still waits is not about to be resumed. */
  lemma WaiterNotScheduled(l: Link)
    requires Coupled(l) && Waiters(l) != []
    ensures Waiters(l)[0].top in l.frames && NotScheduled(l.scheduled, Waiters(l)[0].top)
  {
    var top := Waiters(l)[0].top;
    assert (ConnRuns.Firsts(l.handed) + Waiters(l))[|l.handed|].top == top;
    forall k | 0 <= k < |l.scheduled| ensures !(l.scheduled[k].fun == RESUME && l.scheduled[k].arg1 == top) {
      if Mine(l.scheduled[k], l.frames.Keys) {
        var m := ScheduledIsHanded(l, k);
      }
    }
  }

  /** A further block leaves every context where it is. */
  lemma KeptBySave(contexts: map<nat, Context>, s: MemBlocks.Pool, t: MemBlocks.Pool, top: nat, x: Context, len: nat)
    requires AllKept(contexts, s, len) && Shaped(s) && Shaped(t) && Keeps(t, x, top, len)
    requires forall b :: b in LiveBlocks(s.blocks) ==> b.start != top && b in LiveBlocks(t.blocks)
    ensures top !in contexts && AllKept(contexts[top := x], t, len)
  {
    forall other | other in contexts ensures other != top && Keeps(t, contexts[other], other, len) {
      assert Keeps(s, contexts[other], other, len);
      var b := s.blocks[IndexOf(s.blocks, other)];
      assert b in LiveBlocks(s.blocks);
      MemRuns.LiveAt(t.blocks, t.max, b);
    }
  }

  /** Releasing one context's block leaves all others. */
  lemma KeptByRelease(contexts: map<nat, Context>, s: MemBlocks.Pool, top: nat, len: nat)
    requires AllKept(contexts, s, len) && Shaped(s) && top in contexts
    ensures AllKept(contexts - {top}, FreeBlock(s, top), len)
  {
    assert Keeps(s, contexts[top], top, len);
    var ops := [MemRuns.FreeOp(top)];
    forall other | other in contexts && other != top ensures Keeps(FreeBlock(s, top), contexts[other], other, len) {
      assert Keeps(s, contexts[other], other, len);
      assert MemRuns.Run(MemRuns.Step(s, ops[0]), ops[1..]) == FreeBlock(s, top);
      SavedSurvives(s, ops, other, ContextBytes(contexts[other]));
    }
  }

  lemma KeptThere(contexts: map<nat, Context>, s: MemBlocks.Pool, top: nat, len: nat)
    requires AllKept(contexts, s, len) && top in contexts
    ensures var x := contexts[top];
            && Holding(s, top, Saved(x.rsp, x.regs, x.frame)) && x.rsp + |x.frame| <= len
            && (CONTEXT + |x.frame|) % 0x1_0000 != 0
  {
    assert Keeps(s, contexts[top], top, len);
  }

  class System {
    const conns: ConnPool.Pool
    const co: Coroutines
    /** What has been saved in each block and not been resumed yet. */
    ghost var contexts: map<nat, Context>

    ghost function ConnObjects(): set<object> {
      {conns, conns.callbacks} + conns.Objects()
    }

    ghost function StackObjects(): set<object> {
      {co, co.pool, co.pool.data, co.stack}
    }

    ghost predicate Apart() {
      ConnObjects() !! StackObjects() && this !in ConnObjects() && this !in StackObjects()
    }

    ghost predicate Valid()
      reads this, conns, conns.callbacks, conns.Objects(), co, co.pool, co.pool.data
    {
      Apart() && conns.Valid() && Stacked()
    }

    /** The stack pool's side. */
    ghost predicate Stacked()
      requires conns.callbacks.Valid()
      reads this, conns, conns.callbacks, conns.callbacks.queue, conns.callbacks.queue.datas, conns.callbacks.recs
      reads co, co.pool, co.pool.data
    {
      && co.Valid() && Orderly(conns.frames.Keys, conns.callbacks.Scheduled(), contexts.Keys)
      && AllKept(contexts, co.pool.State(), co.stack.Length)
    }

    constructor (conns: ConnPool.Pool, co: Coroutines)
      requires conns.Valid() && conns.frames == map[] && co.Valid()
      requires {conns, conns.callbacks} + conns.Objects() !! {co, co.pool, co.pool.data, co.stack}
      requires forall k :: 0 <= k < |conns.callbacks.Scheduled()| ==> conns.callbacks.Scheduled()[k].fun != RESUME
      ensures Valid() && this.conns == conns && this.co == co && contexts == map[]
    {
      hide ConnPool.Pool.Valid, CallbackLoop.Valid, CallbackLoop.Scheduled, Coroutines.Valid;
      conns.Running();
      this.conns, this.co, contexts := conns, co, map[];
    }

    /** The stack pool's search ends for a frame of `len` bytes, and its context can be resumed. */
    ghost predicate Storable(len: int)
      reads this, co, co.pool
    {
      && 0 <= len && len + CONTEXT < 0x8000_0000 && (CONTEXT + len) % 0x1_0000 != 0
      && |co.pool.blocks| >= 1 && (|co.pool.blocks| >= 2 || Fits(co.pool.blocks[0], len + CONTEXT))
    }

    /** hc_co_context_save: the stack pool's side. */
    method SaveContext(rsp: nat) returns (top: nat)
      requires co.Valid() && AllKept(contexts, co.pool.State(), co.stack.Length) && rsp <= co.base
      requires Storable(co.base - rsp)
      requires this !in StackObjects()
      modifies this`contexts, co.pool`top, co.pool`blocks, co.pool.data
      ensures co.Valid() && AllKept(contexts, co.pool.State(), co.stack.Length)
      ensures top != 0 ==> top !in old(contexts)
      ensures contexts == if top == 0 then old(contexts)
                          else old(contexts)[top := Context(rsp, co.regs, old(co.stack[rsp..co.base]))]
    {
      hide Shaped, LiveBlocks, Holding, AllKept;
      ghost var s, x := co.pool.State(), Context(rsp, co.regs, co.stack[rsp..co.base]);
      top := co.Save(rsp);
      if top != 0 {
        KeptBySave(contexts, s, co.pool.State(), top, x, co.stack.Length);
        contexts := contexts[top := x];
      }
    }

    /** hc_co_context_save for any coroutine. */
    method Save(rsp: nat) returns (top: nat)
      requires Valid() && rsp <= co.base && Storable(co.base - rsp)
      modifies this`contexts, co.pool`top, co.pool`blocks, co.pool.data
      ensures Valid()
      ensures top != 0 ==> top !in old(contexts) && FreshTop(top, conns.frames, conns.callbacks.Scheduled())
      ensures contexts == if top == 0 then old(contexts)
                          else old(contexts)[top := Context(rsp, co.regs, old(co.stack[rsp..co.base]))]
    {
      hide Orderly, AllKept, CallbackLoop.Scheduled, CallbackLoop.Valid, ConnPool.Pool.Valid, Coroutines.Valid,
           Storable,
           MemPool.State, FreshTop;
      conns.Running();
      top := SaveContext(rsp);
      if top != 0 {
        NewIsFresh(conns.frames, conns.callbacks.Scheduled(), old(contexts).Keys, top);
        OneSaved(conns.frames.Keys, conns.callbacks.Scheduled(), old(contexts).Keys, top);
        assert contexts.Keys == old(contexts).Keys + {top};
      }
    }

    /** The registration of a coroutine that has been saved, or 0 that could not be. */
    method QueueUp(top: nat) returns (r: Outcome)
      requires Valid() && conns.places > 0 && !ConnRuns.HasStock(conns.State())
      requires top != 0 ==> top in contexts && FreshTop(top, conns.frames, conns.callbacks.Scheduled())
      modifies conns.Objects()
      ensures Valid() && r == if old(conns.Joins(top)) then Suspended(old(conns.callbacks.queue.FreeList())[0])
          else Refused
      ensures r.Suspended? ==> conns.State() == ConnRuns.Enqueue(old(conns.State()), r.waiter, top, conns.places)
    {
      hide Orderly, AllKept, CallbackLoop.Scheduled, CallbackLoop.Valid, ConnPool.Pool.Valid, Coroutines.Valid,
           Storable,
           MemPool.State, FreshTop, ConnRuns.Enqueue, ConnRuns.HasStock, ConnPool.Pool.State;
      conns.Running();
      ghost var frames := conns.frames.Keys;
      if top != 0 {
        OneSaved(frames, conns.callbacks.Scheduled(), contexts.Keys, top);
        assert contexts.Keys + {top} == contexts.Keys;
      }
      r := conns.QueueUp(top);
      conns.Running();
      assert conns.frames.Keys == if r.Suspended? then frames + {top} else frames;
    }

    /** hc_connpool_wait up to the point where the coroutine is suspended: it is saved only when it can be queued. */
    method Wait(rsp: nat) returns (r: Outcome, top: nat)
      requires Valid() && rsp <= co.base && Storable(co.base - rsp)
      requires conns.places > 0 && !ConnRuns.HasStock(conns.State())
      modifies this`contexts, co.pool`top, co.pool`blocks, co.pool.data, conns.Objects()
      ensures Valid() && !r.Got?
      ensures r.Suspended? ==>
                && top !in old(contexts)
                && contexts == old(contexts)[top := Context(rsp, co.regs, old(co.stack[rsp..co.base]))]
                && conns.State() == ConnRuns.Enqueue(old(conns.State()), r.waiter, top, conns.places)
      ensures r == Refused ==> contexts == old(contexts)
    {
      hide Orderly, AllKept, CallbackLoop.Scheduled, CallbackLoop.Valid, ConnPool.Pool.Valid, Coroutines.Valid,
           Storable,
           MemPool.State, ConnRuns.Enqueue, ConnRuns.HasStock, ConnPool.Pool.State, ConnPool.Pool.Joins, FreshTop,
           System.Stacked;
      var room := conns.HasRoom();
      top := 0;
      if room {
        top := Save(rsp);
      }
      r := QueueUp(top);
    }

    /** hc_connpool_get with all it does to a coroutine that has to wait: an open connection, or the coroutine is saved
        and queued, or nothing. Nothing is saved in vain. */
    method Get(rsp: nat) returns (r: Outcome, top: nat)
      requires Valid() && rsp <= co.base && Storable(co.base - rsp)
      modifies this`contexts, co.pool`top, co.pool`blocks, co.pool.data, conns.Objects()
      ensures Valid()
      ensures r.Got? <==> old(ConnRuns.HasStock(conns.State()))
      ensures r.Got? ==> (conns.State(), r.item) == ConnRuns.GetStock(old(conns.State()), conns.keep)
      ensures r.Suspended? ==>
                && top !in old(contexts)
                && contexts == old(contexts)[top := Context(rsp, co.regs, old(co.stack[rsp..co.base]))]
                && conns.State() == ConnRuns.Enqueue(old(conns.State()), r.waiter, top, conns.places)
      ensures !r.Suspended? ==> contexts == old(contexts)
    {
      hide Orderly, AllKept, CallbackLoop.Scheduled, CallbackLoop.Valid, ConnPool.Pool.Valid, Coroutines.Valid,
           Storable,
           MemPool.State, ConnRuns.GetStock, ConnRuns.Enqueue;
      top := 0;
      conns.Running();
      var ci := conns.TakeStock();
      conns.Running();
      if ci.Some? {
        return Got(ci.value), top;
      }
      if conns.places == 0 {
        return Refused, top;
      }
      r, top := Wait(rsp);
    }

    /** hc_connpool_recycle: a waiter's callback resumes it from the block that holds its context. */
    method Recycle(item: nat) returns (ret: int)
      requires Valid() && item in conns.used
      modifies conns.Objects()
      ensures Valid() && conns.State() == ConnRuns.Recycle(old(conns.State()), item, conns.keep)
      ensures old(conns.State().waiting) != [] ==> old(conns.State().waiting[0].top) in contexts
    {
      hide Orderly, AllKept, CallbackLoop.Scheduled, CallbackLoop.Valid, Coroutines.Valid, MemPool.State,
           ConnRuns.Recycle,
           ConnPool.Pool.Valid;
      conns.Running();
      ghost var cbs := conns.callbacks.Scheduled();
      ghost var waiting := conns.State().waiting;
      FirstWaiter();
      assert cbs + [] == cbs;
      ret := conns.Recycle(item);
      conns.Running();
      if waiting != [] {
        OneMore(conns.frames.Keys, cbs, contexts.Keys, CallBack(RESUME, waiting[0].top, item));
      }
    }

    lemma FirstWaiter()
      requires Valid()
      ensures conns.State().waiting != [] ==>
                && conns.State().waiting[0].top in contexts
                && NotScheduled(conns.callbacks.Scheduled(), conns.State().waiting[0].top)
    {
      hide AllKept, Coupled, Coroutines.Valid, Waiters, CallbackLoop.Scheduled, NotScheduled, CallbackLoop.Valid;
      if conns.State().waiting != [] {
        WaiterNotScheduled(conns.Links());
      }
    }

    /** Any other callback is added; one that resumes a coroutine names a block that holds one. */
    method Add(cb: CallBack)
      requires Valid()
      requires cb.fun == RESUME ==>
                 cb.arg1 in contexts && cb.arg1 !in conns.frames && NotScheduled(conns.callbacks.Scheduled(), cb.arg1)
      modifies conns.callbacks.queue, conns.callbacks.queue.datas, conns.callbacks.recs
      ensures Valid() && conns.State() == old(conns.State())
    {
      hide Orderly, AllKept, CallbackLoop.Scheduled, CallbackLoop.Valid, Coroutines.Valid, MemPool.State,
           ConnPool.Pool.Valid, ConnPool.Pool.State;
      conns.Running();
      OneMore(conns.frames.Keys, conns.callbacks.Scheduled(), contexts.Keys, cb);
      assert conns.callbacks.Scheduled() + [] == conns.callbacks.Scheduled();
      conns.AddOther(cb);
      conns.Running();
    }

    /** hc_co_context_resume on a block that holds a context: the coroutine goes on with its registers and its frame,
        and the block is free. */
    method Resume(top: nat, rspCur: nat, rbpCur: nat)
      requires co.Valid() && AllKept(contexts, co.pool.State(), co.stack.Length) && top in contexts
      requires this !in StackObjects() && rspCur <= rbpCur <= co.base
      requires Coroutines.OwnFrame(contexts[top].rsp, rspCur, rbpCur) >= 0
      modifies this`contexts, co`regs, co.pool`top, co.pool`blocks, co.pool.data, co.stack
      ensures co.Valid() && AllKept(contexts, co.pool.State(), co.stack.Length) && contexts == old(contexts) - {top}
      ensures var x := old(contexts)[top];
              && co.regs == x.regs && x.rsp + |x.frame| <= co.stack.Length
              && co.stack[x.rsp..x.rsp + |x.frame|] == x.frame
    {
      hide Shaped, LiveBlocks, AllKept, FreeBlock, MemPool.Represents, MemPool.Hdr, MemPool.Released;
      ghost var x := contexts[top];
      KeptThere(contexts, co.pool.State(), top, co.stack.Length);
      co.pool.LiveHeader(top);
      KeptByRelease(contexts, co.pool.State(), top, co.stack.Length);
      var resumed := co.Resume(top, rspCur, rbpCur, x.rsp, x.regs, x.frame);
      contexts := contexts - {top};
    }

    /** The next callback of the loop. A coroutine it resumes goes on with the registers and the frame it was saved
        with; if it waited for a connection, it has been waiting or on its way longest, and returns the connection it
        was handed unless its slot has become 0. The two pools share no state, so that it does not matter which of them
        comes first. */
    method RunNext(rspCur: nat, rbpCur: nat) returns (r: Ran, cb: CallBack)
      requires Valid() && conns.callbacks.Scheduled() != [] && rspCur <= rbpCur <= co.base
      requires var first := conns.callbacks.Scheduled()[0];
               first.fun == RESUME && first.arg1 in contexts ==>
                 Coroutines.OwnFrame(contexts[first.arg1].rsp, rspCur, rbpCur) >= 0
      modifies this`contexts, co`regs, co.pool`top, co.pool`blocks, co.pool.data, co.stack, conns.Objects()
      ensures cb == old(conns.callbacks.Scheduled())[0]
      ensures cb.fun == RESUME ==>
                && cb.arg1 in old(contexts) && contexts == old(contexts) - {cb.arg1}
                && var x := old(contexts)[cb.arg1];
                   && co.regs == x.regs && x.rsp + |x.frame| <= co.stack.Length
                   && co.stack[x.rsp..x.rsp + |x.frame|] == x.frame
      ensures cb.fun != RESUME ==> unchanged(this) && unchanged(co) && unchanged(co.pool) && unchanged(co.stack)
      ensures r.Other? <==> !(cb.fun == RESUME && cb.arg1 in old(conns.frames))
      ensures r.Other? ==> Valid() && conns.State() == old(conns.State())
      ensures !r.Other? ==>
                && old(conns.handed) != [] && cb == CallBack(RESUME, old(conns.handed)[0].0.top, old(conns.handed)[0].1)
                && r == (if old(ConnRuns.Finds(conns.State())) then Returned(cb.arg2) else ReturnedNothing)
                && (Valid() <==> !ConnRuns.Deliver(old(conns.State()), conns.places).broken)
                && (Valid() ==> conns.State() == ConnRuns.Deliver(old(conns.State()), conns.places))
    {
      hide Orderly, AllKept, CallbackLoop.Scheduled, CallbackLoop.Valid, ConnPool.Pool.Valid, Coroutines.Valid,
           MemPool.State, ConnRuns.Finds, ConnRuns.Deliver, ConnPool.Pool.State;
      conns.Running();
      ghost var frames, cbs, tops := conns.frames.Keys, conns.callbacks.Scheduled(), contexts.Keys;
      FirstKept();
      OneRun(frames, cbs, tops);
      r, cb := conns.RunNext();
      if cb.fun == RESUME {
        Resume(cb.arg1, rspCur, rbpCur);
        assert contexts.Keys == tops - {cb.arg1};
        assert conns.frames.Keys == frames - {cb.arg1};
      }
      if conns.Valid() {
        conns.Running();
      }
    }

    lemma FirstKept()
      requires Valid() && conns.callbacks.Scheduled() != []
      ensures var first := conns.callbacks.Scheduled()[0]; first.fun == RESUME ==> first.arg1 in contexts
    {
      hide AllKept, CallbackLoop.Scheduled, Coroutines.Valid;
    }
  }
}
