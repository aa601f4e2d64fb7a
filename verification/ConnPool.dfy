/** The connection pool of src/util/hc_data.c with its hand-over through the callback queue
    (src/coroutine/co_network.c). Connections and callback records are named by their indexes; None stands for NULL. */
module ConnPool {
  import opened Options
  import opened Rings
  import opened EventLoop
  import opened ConnRuns
  import opened ConnLinks

  datatype Outcome = Got(item: nat) | Refused | Suspended(waiter: nat)

  /** What the loop has run: a coroutine of the pool that returned a connection or nothing, or somebody else's
      callback. */
  datatype Ran = Returned(item: nat) | ReturnedNothing | Other

  lemma Room(s: Conn, all: multiset<nat>, keep: nat, item: nat)
    requires Sound(s, all, keep)
    ensures |s.idle| + |s.closed| <= |all|
    ensures item in s.used ==> |s.idle| + |s.closed| < |all|
  {
    assert |all| == |s.idle| + |s.closed| + |s.used| + |Items(s.handed)| + |s.lost|;
    assert item in s.used ==> |s.used| > 0 by {
      assert |s.used| == 0 ==> s.used == multiset{};
    }
  }

  lemma MoveOne(a: seq<nat>, b: seq<nat>, n: nat)
    requires n <= |b|
    ensures n < |b| ==> b[n..][0] == b[n] && b[n..][1..] == b[n + 1..] && a + b[..n] + [b[n]] == a + b[..n + 1]
  {}

  lemma ReopenNothing(s: Conn, len: nat)
    requires len > 0
    ensures s.closed == [] ==> ConnRuns.Reopen(s, len) == s
    ensures s.closed != [] ==> Min(len, |s.closed|) > 0
  {
    if s.closed == [] {
      assert s.idle + s.closed[..0] == s.idle;
    }
  }

  /** The numbers below |s| are all below `len` if and only if there are no more than that. */
  lemma NumbersBelow(s: seq<nat>, len: nat)
    requires s != [] && forall i :: 0 <= i < |s| ==> s[i] == i
    ensures (forall x :: x in multiset(s) ==> x < len) <==> |s| <= len
  {
    assert s[|s| - 1] in multiset(s);
  }

  class Pool {
    const keep: nat
    const max: nat
    /** How many connections the block allocated for them holds; a connection is named by its place there. */
    const blockLen: nat
    const idle: Queue<nat>
    const closed: Queue<nat>
    /** 0 when the pool has no wait queue; then no coroutine ever waits. */
    const places: nat
    const wait: Queue<Option<nat>>
    const callbacks: CallbackLoop
    /** The local wait_index in the frame saved in each block. */
    var frames: map<nat, nat>
    ghost var used: multiset<nat>
    ghost var handed: seq<(Ticket, nat)>
    ghost var lost: multiset<nat>
    ghost const all: multiset<nat>

    ghost predicate Apart() {
      && idle != closed && idle.datas != closed.datas
      && idle.datas != callbacks.queue.datas && closed.datas != callbacks.queue.datas
      && idle as object != wait as object && closed as object != wait as object
      && idle.datas as object != wait.datas as object && closed.datas as object != wait.datas as object
      && wait.datas as object != callbacks.queue.datas as object && wait.datas as object != callbacks.recs as object
    }

    ghost function Objects(): set<object> {
      {this, idle, idle.datas, closed, closed.datas, wait, wait.datas, callbacks.queue, callbacks.queue.datas,
          callbacks.recs}
    }

    ghost function Links(): Link
      requires wait.Valid() && callbacks.Valid()
      reads this, wait, wait.datas, callbacks, callbacks.queue, callbacks.queue.datas, callbacks.recs
    {
      Link(wait.Contents(), wait.outIndex, wait.max, callbacks.recs[..], callbacks.queue.borrowed, frames, handed,
           callbacks.Scheduled())
    }

    ghost function State(): Conn
      requires idle.Valid() && closed.Valid() && wait.Valid() && callbacks.Valid()
      reads this, idle, idle.datas, closed, closed.datas, wait, wait.datas, callbacks, callbacks.queue,
            callbacks.queue.datas, callbacks.recs
    {
      Conn(idle.Contents(), closed.Contents(), used, handed, Waiters(Links()), wait.inIndex, Cleared(wait.datas[..]),
          lost, false)
    }

    ghost predicate Queues()
      reads this, callbacks, Objects()
    {
      Apart() && idle.Valid() && closed.Valid() && wait.Valid() && callbacks.Valid()
    }

    ghost predicate InBlock() {
      forall x :: x in all ==> x < blockLen
    }

    ghost predicate Valid()
      reads this, callbacks, Objects()
    {
      && Queues() && idle.max == closed.max == max == |all| && keep <= max && InBlock()
      && Sound(State(), all, keep) && Coupled(Links())
      && (if places > 0 then wait.max == places else wait.Contents() == [])
    }

    lemma Running()
      requires Valid()
      ensures idle.Valid() && closed.Valid() && wait.Valid() && callbacks.Valid()
    {}

    /** hc_connpool_create: all connections start closed. They are allocated before `max` is raised to `keep`, and so
        lie inside their block if and only if it need not be raised. */
    constructor (keep: nat, max: nat, waitNum: nat, callbacks: CallbackLoop)
      requires (keep > 0 || max > 0) && callbacks.Valid()
      ensures this.keep == keep && this.callbacks == callbacks && this.places == waitNum && blockLen == max
      ensures this.max == if max < keep then keep else max
      ensures Valid() <==> keep <= max
      ensures Queues()
      ensures var s := State();
              && s.closed == seq(this.max, i requires 0 <= i < this.max => i) && s.idle == []
              && s.used == s.lost == multiset{}
              && s.handed == [] && s.waiting == [] && s.next == 0
    {
      hide Cyc, CallbackLoop.Valid, CallbackLoop.Scheduled, Sound, Coupled, Waiters, Queue.Valid, Queue.Contents,
           RecycleQueue.Valid, Cleared;
      blockLen := max;
      var n := if max < keep then keep else max;
      var q, r, w := NewQueues(n, waitNum);
      ghost var items := seq(n, i requires 0 <= i < n => i);
      FreshSound(items, keep, Cleared(w.datas[..]));
      FreshCoupled(w.max, callbacks.recs[..], callbacks.queue.borrowed, callbacks.Scheduled());
      this.keep, this.max, this.callbacks, places := keep, n, callbacks, waitNum;
      all := multiset(items);
      idle, closed, wait := q, r, w;
      used, handed, lost := multiset{}, [], multiset{};
      frames := map[];
      new;
      assert InBlock() <==> max >= n by {
        NumbersBelow(items, max);
      }
    }

    static method NewQueues(n: nat, waitNum: nat) returns (q: Queue<nat>, r: Queue<nat>, w: Queue<Option<nat>>)
      requires n > 0
      ensures fresh(q) && fresh(q.datas) && fresh(r) && fresh(r.datas) && fresh(w) && fresh(w.datas)
      ensures q != r && q.datas != r.datas && q as object != w as object && r as object != w as object
      ensures q.datas as object != w.datas as object && r.datas as object != w.datas as object
      ensures q.Valid() && r.Valid() && w.Valid() && q.max == r.max == n && w.max == if waitNum > 0 then waitNum else 1
      ensures q.Contents() == [] && r.Contents() == seq(n, i requires 0 <= i < n => i)
      ensures w.Contents() == [] && w.inIndex == w.outIndex == 0
    {
      q := new Queue<nat>(n);
      r := new Queue<nat>(n);
      r.InitDatas(seq(n, i requires 0 <= i < n => i));
      w := new Queue<Option<nat>>(if waitNum > 0 then waitNum else 1);
    }

    /** hc_connpool_add: moves up to `len` closed connections to the idle queue. */
    method Reopen(len: nat) returns (n: nat)
      requires Queues() && idle.max == closed.max && |idle.Contents()| + |closed.Contents()| <= idle.max
      modifies idle, idle.datas, closed
      ensures Queues() && n == Min(len, |old(closed.Contents())|)
      ensures State() == ConnRuns.Reopen(old(State()), len) && Links() == old(Links())
    {
      hide Pool.InBlock, Cyc, Waiters, CallbackLoop.Valid, CallbackLoop.Scheduled, Queue.Contents, Cleared;
      ghost var was := State();
      n := 0;
      while n < len
        invariant Queues() && Links() == old(Links())
        invariant n <= Min(len, |was.closed|) && |was.idle| + |was.closed| <= idle.max
        invariant idle.Contents() == was.idle + was.closed[..n] && closed.Contents() == was.closed[n..]
      {
        MoveOne(was.idle, was.closed, n);
        var r := closed.Out();
        if r == None {
          break;
        }
        var _ := idle.In(r.value);
        n := n + 1;
      }
    }

    /** Whether a coroutine saved under `top` (0 when saving fails) can be queued. */
    ghost predicate Joins(top: nat)
      requires wait.Valid() && callbacks.Valid()
      reads this, wait, wait.datas, callbacks, callbacks.queue, callbacks.queue.datas, callbacks.recs
    {
      |wait.Contents()| < wait.max && callbacks.queue.FreeList() != [] && top != 0
    }

    /** The beginning of hc_co_wait_callback: a record is prepared and named in the slot, or the slot is cleared. */
    method PrepareIn(waitIndex: nat) returns (r: Option<nat>)
      requires Apart() && wait.Valid() && callbacks.Valid()
      requires wait.Contents() != [] && waitIndex == Wrap(wait.outIndex + wait.curLen - 1, wait.max)
      modifies wait.datas, callbacks.queue, callbacks.recs
      ensures wait.Valid() && callbacks.Valid() && callbacks.Scheduled() == old(callbacks.Scheduled())
      ensures r == if old(callbacks.queue.FreeList()) != [] then Some(old(callbacks.queue.FreeList())[0]) else None
      ensures waitIndex < wait.datas.Length
      ensures wait.datas[..] == old(wait.datas[..])[waitIndex := r]
      ensures wait.Contents() == old(wait.Contents())[..|old(wait.Contents())| - 1] + [r]
      ensures r.Some? ==> && r.value !in old(callbacks.queue.borrowed) && callbacks.queue.GivesBack(r.value)
                          && callbacks.queue.borrowed == old(callbacks.queue.borrowed) + multiset{r.value}
                          && r.value < callbacks.recs.Length && callbacks.recs[r.value] == CallBack(RESUME, 0, 0)
      ensures r == None ==> callbacks.queue.borrowed == old(callbacks.queue.borrowed)
      ensures forall id :: 0 <= id < callbacks.recs.Length && id in old(callbacks.queue.borrowed) ==>
                callbacks.recs[..][id] == old(callbacks.recs[..])[id]
    {
      hide Pool.InBlock, Cyc, AllOnce, Parted, CallbackLoop.Scheduled, Split, Queue.Contents;
      r := callbacks.PrepareCallback(CallBack(RESUME, 0, 0));
      wait.PatchLast(waitIndex, r);
    }

    /** hc_co_wait_callback up to the point where the coroutine is saved, under `top`, or 0 when saving fails: a
        prepared record is left in the slot, or it is given back and the slot cleared. */
    method WaitCallback(waitIndex: nat, top: nat) returns (r: Outcome)
      requires Apart() && wait.Valid() && callbacks.Valid()
      requires wait.Contents() != [] && waitIndex == Wrap(wait.outIndex + wait.curLen - 1, wait.max)
      modifies wait.datas, callbacks.queue, callbacks.queue.datas, callbacks.recs
      ensures wait.Valid() && callbacks.Valid() && callbacks.Scheduled() == old(callbacks.Scheduled())
      ensures r == if old(callbacks.queue.FreeList()) != [] && top != 0
          then Suspended(old(callbacks.queue.FreeList())[0]) else Refused
      ensures wait.datas[..] == old(wait.datas[..])[waitIndex := if r.Suspended? then Some(r.waiter) else None]
      ensures wait.Contents() == old(wait.Contents())[..|old(wait.Contents())| - 1] +
          [if r.Suspended? then Some(r.waiter) else None]
      ensures r.Suspended? ==> r.waiter !in old(callbacks.queue.borrowed)
                               && callbacks.queue.borrowed == old(callbacks.queue.borrowed) + multiset{r.waiter}
                               && r.waiter < callbacks.recs.Length
                               && callbacks.recs[r.waiter] == CallBack(RESUME, top, 0)
      ensures r == Refused ==> callbacks.queue.borrowed == old(callbacks.queue.borrowed)
      ensures forall id :: 0 <= id < callbacks.recs.Length && id in old(callbacks.queue.borrowed) ==>
                callbacks.recs[..][id] == old(callbacks.recs[..])[id]
    {
      hide Pool.InBlock, Cyc, AllOnce, Parted, CallbackLoop.Scheduled, CallbackLoop.Valid, Split, Queue.Contents,
           Queue.Valid;
      var cb := PrepareIn(waitIndex);
      if cb == None {
        return Refused;
      }
      callbacks.SetArg1(cb.value, top);
      if top == 0 {
        GiveUp(waitIndex, cb.value);
        return Refused;
      }
      return Suspended(cb.value);
    }

    /** The record prepared last is given back and the slot cleared. */
    method GiveUp(waitIndex: nat, id: nat)
      requires Apart() && wait.Valid() && callbacks.Valid() && id in callbacks.queue.borrowed
      requires callbacks.queue.GivesBack(id)
      requires wait.Contents() != [] && waitIndex == Wrap(wait.outIndex + wait.curLen - 1, wait.max)
      modifies wait.datas, callbacks.queue, callbacks.queue.datas
      ensures wait.Valid() && callbacks.Valid() && callbacks.Scheduled() == old(callbacks.Scheduled())
      ensures wait.datas[..] == old(wait.datas[..])[waitIndex := None]
      ensures wait.Contents() == old(wait.Contents())[..|old(wait.Contents())| - 1] + [None]
      ensures callbacks.queue.borrowed == old(callbacks.queue.borrowed) - multiset{id}
    {
      hide Pool.InBlock, Cyc, AllOnce, Parted, CallbackLoop.Scheduled, Split, Queue.Contents;
      callbacks.CancelCallback(id);
      wait.PatchLast(waitIndex, None);
    }

    /** hc_connpool_wait up to the point where the coroutine is suspended: it is queued, or its place is given up again
        and left cleared. */
    method Wait(top: nat) returns (r: Outcome)
      requires Apart() && wait.Valid() && callbacks.Valid()
      modifies this`frames, wait, wait.datas, callbacks.queue, callbacks.queue.datas, callbacks.recs
      ensures wait.Valid() && callbacks.Valid() && callbacks.Scheduled() == old(callbacks.Scheduled())
      ensures wait.outIndex == old(wait.outIndex)
      ensures frames == if r.Suspended? then old(frames)[top := old(wait.inIndex)] else old(frames)
      ensures r == if old(Joins(top)) then Suspended(old(callbacks.queue.FreeList())[0]) else Refused
      ensures r.Suspended? ==> && wait.Contents() == old(wait.Contents()) + [Some(r.waiter)]
                               && wait.inIndex == Wrap(old(wait.inIndex) + 1, wait.max)
                               && old(wait.inIndex) < wait.max
                               && wait.datas[..] == old(wait.datas[..])[old(wait.inIndex) := Some(r.waiter)]
                               && r.waiter !in old(callbacks.queue.borrowed)
                               && callbacks.queue.borrowed == old(callbacks.queue.borrowed) + multiset{r.waiter}
                               && r.waiter < callbacks.recs.Length
                               && callbacks.recs[r.waiter] == CallBack(RESUME, top, 0)
      ensures r == Refused ==> && wait.Contents() == old(wait.Contents())
                               && wait.inIndex == old(wait.inIndex) < wait.max
                               && callbacks.queue.borrowed == old(callbacks.queue.borrowed)
                               && wait.datas[..] == if |old(wait.Contents())| < wait.max
                                                    then old(wait.datas[..])[old(wait.inIndex) := None]
                                                    else old(wait.datas[..])
      ensures forall id :: 0 <= id < callbacks.recs.Length && id in old(callbacks.queue.borrowed) ==>
                callbacks.recs[..][id] == old(callbacks.recs[..])[id]
    {
      hide Pool.InBlock, Cyc, CallbackLoop.Valid, CallbackLoop.Scheduled, RecycleQueue.Valid;
      var waitIndex := wait.In(None);
      if 0 > waitIndex {
        return Refused;
      }
      r := WaitCallback(waitIndex, top);
      if r == Refused {
        wait.CancelIn(None);
      } else {
        frames := frames[top := waitIndex];
      }
    }

    /** Whether a coroutine could be queued once it is saved. */
    method HasRoom() returns (room: bool)
      requires Valid()
      ensures forall top :: Joins(top) <==> room && top != 0
    {
      hide Pool.InBlock, Cyc, Sound, Coupled, Waiters, Split, Parted;
      room := wait.curLen < wait.max && callbacks.queue.reCurLen > 0;
    }

    /** Wait on a sound pool that has nothing to give. */
    method QueueUp(top: nat) returns (r: Outcome)
      requires Valid() && places > 0 && !HasStock(State())
      requires (top != 0 ==> FreshTop(top, frames, callbacks.Scheduled()))
      modifies this`frames, wait, wait.datas, callbacks.queue, callbacks.queue.datas, callbacks.recs
      ensures Valid() && callbacks.Scheduled() == old(callbacks.Scheduled())
      ensures r == if old(Joins(top)) then Suspended(old(callbacks.queue.FreeList())[0]) else Refused
      ensures r.Suspended? ==>
                && State() == Enqueue(old(State()), r.waiter, top, places)
                && r.waiter !in old(callbacks.queue.borrowed)
      ensures r == Refused ==> State() == Refuse(old(State()), places)
      ensures frames.Keys == old(frames.Keys) + if r.Suspended? then {top} else {}
    {
      hide Pool.InBlock, Cyc, CallbackLoop.Valid, CallbackLoop.Scheduled, RecycleQueue.Valid, Sound, Coupled, Waiters,
           FreshTop,
           Cleared;
      ghost var was, i := Links(), wait.inIndex;
      ClearedSet(wait.datas[..], i, None);
      r := Wait(top);
      OthersChanged(was, callbacks.recs[..]);
      if r.Suspended? {
        ClearedSet(old(wait.datas[..]), i, Some(r.waiter));
        Enqueued(was.(recs := callbacks.recs[..]), r.waiter, top);
        StepSound(old(State()), OpWait(r.waiter, top), all, keep, places);
      } else {
        StepSound(old(State()), OpRefuse, all, keep, places);
      }
    }

    /** The oldest idle connection, or else the oldest of those reopened. */
    method TakeOpen() returns (r: Option<nat>)
      requires Queues() && idle.max == closed.max && |idle.Contents()| + |closed.Contents()| <= idle.max
      modifies this`used, idle, idle.datas, closed
      ensures Queues() && Links() == old(Links())
      ensures r.Some? <==> old(HasStock(State()))
      ensures r.Some? ==> (State(), r.value) == GetStock(old(State()), keep)
      ensures r == None ==> State() == old(State())
    {
      hide Pool.InBlock, Cyc, Waiters, CallbackLoop.Valid, CallbackLoop.Scheduled, Queue.Contents, Cleared;
      ReopenNothing(State(), StepNum(keep));
      r := idle.Out();
      if r == None {
        var n := Reopen(StepNum(keep));
        if 0 < n {
          r := idle.Out();
        }
      }
      if r.Some? {
        used := used + multiset{r.value};
      }
    }

    /** TakeOpen on a sound pool. */
    method TakeStock() returns (r: Option<nat>)
      requires Valid()
      modifies this`used, idle, idle.datas, closed
      ensures Valid() && callbacks.Scheduled() == old(callbacks.Scheduled()) && frames == old(frames)
      ensures r.Some? <==> old(HasStock(State()))
      ensures r.Some? ==> (State(), r.value) == GetStock(old(State()), keep)
      ensures r == None ==> State() == old(State())
    {
      hide Pool.InBlock, Cyc, CallbackLoop.Valid, RecycleQueue.Valid, Sound, Coupled, Waiters, Queue.Valid,
           Queue.Contents, GetStock;
      Room(State(), all, keep, 0);
      if HasStock(State()) {
        GetSound(State(), all, keep);
      }
      r := TakeOpen();
    }

    /** hc_connpool_get: an open connection, or else a place in the wait queue when the pool has one. A block under
        which the coroutine is saved, `top`, holds no other coroutine. */
    method Get(top: nat) returns (r: Outcome)
      requires Valid() && (top != 0 ==> FreshTop(top, frames, callbacks.Scheduled()))
      modifies Objects()
      ensures Valid() && callbacks.Scheduled() == old(callbacks.Scheduled())
      ensures r.Got? <==> old(HasStock(State()))
      ensures r.Got? ==> (State(), r.item) == GetStock(old(State()), keep)
      ensures old(idle.Contents()) != [] ==>
                && r == Got(old(idle.Contents())[0]) && idle.Contents() == old(idle.Contents())[1..]
                && closed.Contents() == old(closed.Contents())
      ensures old(idle.Contents()) == [] && old(closed.Contents()) != [] ==>
                var was := old(closed.Contents());
                var half := if keep < 2 then 1 else keep / 2;
                var m := if half < |was| then half else |was|;
                r == Got(was[0]) && 1 <= m && idle.Contents() == was[1..m] && closed.Contents() == was[m..]
      ensures r.Suspended? <==> !old(HasStock(State())) && places > 0 && old(Joins(top))
      ensures r.Suspended? ==> State() == Enqueue(old(State()), r.waiter, top, places)
      ensures r == Refused ==> State() == if places > 0 then Refuse(old(State()), places) else old(State())
    {
      hide Pool.InBlock, Cyc, CallbackLoop.Valid, CallbackLoop.Scheduled, RecycleQueue.Valid, Sound, Coupled, Waiters,
           Queue.Valid,
           Queue.Contents, GetStock, FreshTop;
      if HasStock(State()) {
        StockTaken(State(), keep);
      }
      var ci := TakeStock();
      if ci.Some? {
        return Got(ci.value);
      }
      if places == 0 {
        return Refused;
      }
      r := QueueUp(top);
    }

    /** The first part of hc_connpool_recycle: the longest waiter's record is filled in and queued. */
    method HandOver(item: nat) returns (handedOver: bool)
      requires Valid()
      modifies this`handed, wait, callbacks.queue, callbacks.queue.datas, callbacks.recs
      ensures Queues() && idle.Contents() == old(idle.Contents()) && closed.Contents() == old(closed.Contents())
      ensures Coupled(Links()) && |wait.Contents()| <= |old(wait.Contents())| && wait.inIndex == old(wait.inIndex)
      ensures handedOver <==> old(wait.Contents()) != []
      ensures handedOver ==> && State().waiting == old(State().waiting)[1..]
                             && handed == old(handed) + [(old(State().waiting[0]), item)]
                             && callbacks.Scheduled() == old(callbacks.Scheduled()) +
                                    [CallBack(RESUME, old(State().waiting[0].top), item)]
      ensures !handedOver ==>
                && unchanged(this)
                && unchanged(wait)
                && unchanged(callbacks.queue)
                && unchanged(callbacks.queue.datas)
                              && unchanged(callbacks.recs)
    {
      hide Pool.InBlock, Cyc, CallbackLoop.Valid, CallbackLoop.Scheduled, RecycleQueue.Valid, Sound, Coupled, Waiters;
      handedOver := false;
      if places > 0 {
        ghost var was := Links();
        if wait.Contents() != [] {
          HandedOver(was, item);
        }
        var cb := wait.Out();
        if cb.Some? && cb.value.Some? {
          callbacks.HeldBelow(cb.value.value);
          callbacks.CallbackIn(cb.value.value, item);
          handed := handed + [(Waiters(was)[0], item)];
          assert Links() == HandOn(was, item);
          handedOver := true;
        }
      }
    }

    /** The rest of hc_connpool_recycle: the connection is kept open while fewer than `keep` are idle. */
    method PutBack(item: nat) returns (r: int)
      requires Queues() && idle.max == closed.max == max && keep <= max && |closed.Contents()| < max
      modifies idle, idle.datas, closed, closed.datas
      ensures Queues() && Links() == old(Links())
      ensures r == if keep <= |old(idle.Contents())| then 1 else 0
      ensures idle.Contents() == if r == 1 then old(idle.Contents()) else old(idle.Contents()) + [item]
      ensures closed.Contents() == if r == 1 then old(closed.Contents()) + [item] else old(closed.Contents())
    {
      hide Pool.InBlock, Cyc, CallbackLoop.Valid, CallbackLoop.Scheduled, Waiters;
      if keep <= idle.curLen {
        var _ := closed.In(item);
        return 1;
      }
      var _ := idle.In(item);
      return 0;
    }

    /** hc_connpool_recycle: to the longest waiter, or else to the idle or the closed connections. */
    method Recycle(item: nat) returns (r: int)
      requires Valid() && item in used
      modifies Objects()
      ensures Valid() && State() == ConnRuns.Recycle(old(State()), item, keep) && frames == old(frames)
      ensures used == old(used) - multiset{item} && lost == old(lost)
      ensures old(wait.Contents()) != [] ==>
                && idle.Contents() == old(idle.Contents()) && closed.Contents() == old(closed.Contents())
                && |wait.Contents()| == |old(wait.Contents())| - 1
                && |handed| == |old(handed)| + 1 && handed[|old(handed)|].1 == item
      ensures old(wait.Contents()) == [] && |old(idle.Contents())| < keep ==>
                && idle.Contents() == old(idle.Contents()) + [item] && closed.Contents() == old(closed.Contents())
      ensures old(wait.Contents()) == [] && |old(idle.Contents())| >= keep ==>
                && idle.Contents() == old(idle.Contents()) && closed.Contents() == old(closed.Contents()) + [item]
      ensures r == 1 <==> old(State().waiting) == [] && keep <= |old(idle.Contents())|
      ensures r == 0 || r == 1
      ensures callbacks.Scheduled() == old(callbacks.Scheduled()) +
                                       if old(State().waiting) == [] then []
                                       else [CallBack(RESUME, old(State().waiting[0].top), item)]
    {
      hide Pool.InBlock, Cyc, CallbackLoop.Valid, CallbackLoop.Scheduled, RecycleQueue.Valid, Sound, Coupled, Waiters,
           Queue.Valid,
           Queue.Contents, Cleared;
      Room(State(), all, keep, item);
      RecycleSound(State(), item, all, keep);
      var handedOver := HandOver(item);
      used := used - multiset{item};
      if handedOver {
        return 0;
      }
      r := PutBack(item);
    }

    /** Somebody else's callback is added. */
    method AddOther(cb: CallBack)
      requires Valid() && !Mine(cb, frames.Keys)
      modifies callbacks.queue, callbacks.queue.datas, callbacks.recs
      ensures Valid() && State() == old(State())
      ensures frames == old(frames)
      ensures callbacks.Scheduled() == old(callbacks.Scheduled()) + if old(callbacks.queue.FreeList()) == [] then []
          else [cb]
    {
      hide Pool.InBlock, Cyc, CallbackLoop.Scheduled, Sound, Coupled, Waiters, Queue.Valid, Queue.Contents, Split,
           Parted, AllOnce;
      ghost var was := Links();
      FreeOnce(callbacks.queue.Pending(), callbacks.queue.FreeList(), callbacks.queue.borrowed, callbacks.queue.all,
               callbacks.recs.Length);
      var r := callbacks.AddCallback(cb);
      if r.Some? {
        OtherAdded(was, callbacks.recs[..], cb);
      }
    }

    /** What hc_connpool_wait does when the coroutine saved under `top` has been resumed with `item`: it returns the
        connection, unless its slot has become 0; then it takes back the registration made last and returns nothing.
        hc_co_wait_callback's own check in between looks at the block the callback was run with, which is not 0. */
    method Resumed(top: nat, item: nat) returns (r: Ran)
      requires Queues() && Sound(State(), all, keep) && top in frames && frames[top] < wait.max
      requires handed != [] && handed[0] == (Ticket(handed[0].0.waiter, frames[top], top), item)
      requires Coupled(Links().(handed := handed[1..], frames := frames - {top}))
      requires if places > 0 then wait.max == places else wait.Contents() == []
      requires idle.max == closed.max == max == |all| && keep <= max && InBlock()
      modifies this, wait, wait.datas
      ensures r == if old(Finds(State())) then Returned(item) else ReturnedNothing
      ensures old(frames[top]) < wait.datas.Length && (r == Returned(item) <==> old(wait.datas[frames[top]]) != None)
      ensures frames == old(frames) - {top}
      ensures callbacks.Scheduled() == old(callbacks.Scheduled())
      ensures Valid() <==> !Deliver(old(State()), places).broken
      ensures Valid() ==> State() == Deliver(old(State()), places)
    {
      hide Pool.InBlock, Cyc, CallbackLoop.Valid, CallbackLoop.Scheduled, RecycleQueue.Valid, Sound, Coupled, Waiters,
           Queue.Contents;
      DeliverSound(State(), all, keep, places);
      var waitIndex := frames[top];
      ghost var was := Links();
      frames := frames - {top};
      handed := handed[1..];
      SameWaiters(was, Links());
      if wait.datas[waitIndex] == None {
        lost := lost + multiset{item};
        TakeBack();
        return ReturnedNothing;
      }
      used := used + multiset{item};
      return Returned(item);
    }

    /** The cancellation of a resumed waiter: the last registration goes, or the length becomes negative. */
    method TakeBack()
      requires Apart() && wait.Valid() && callbacks.Valid() && Coupled(Links())
      modifies wait, wait.datas
      ensures callbacks.Valid() && callbacks.Scheduled() == old(callbacks.Scheduled())
      ensures wait.Valid() <==> old(wait.Contents()) != []
      ensures wait.Valid() ==> && Coupled(Links())
                               && Waiters(Links()) == old(Waiters(Links()))[..|old(wait.Contents())| - 1]
                               && |wait.Contents()| == |old(wait.Contents())| - 1
                               && wait.inIndex == Before(old(wait.inIndex), wait.max)
                               && Cleared(wait.datas[..]) == (if old(wait.inIndex) > 0
                                                              then old(Cleared(wait.datas[..])
                                                                       + {wait.inIndex - 1})
                                                              else old(Cleared(wait.datas[..])))
    {
      hide Pool.InBlock, Cyc, CallbackLoop.Valid, CallbackLoop.Scheduled, RecycleQueue.Valid, Coupled, Waiters, Cleared;
      if wait.curLen > 0 {
        Struck(Links());
      }
      if wait.inIndex > 0 {
        ClearedSet(wait.datas[..], wait.inIndex - 1, None);
      }
      wait.CancelIn(None);
    }

    /** The next callback of the loop. If it resumes a coroutine of the pool, it is the oldest hand-over, and its waiter
        goes on with the connection it was given; all others leave the pool alone. */
    method RunNext() returns (r: Ran, cb: CallBack)
      requires Valid() && callbacks.Scheduled() != []
      modifies Objects()
      ensures cb == old(callbacks.Scheduled())[0]
      ensures r.Other? <==> !old(Mine(callbacks.Scheduled()[0], frames.Keys))
      ensures r.Other? ==> && Valid() && State() == old(State()) && frames == old(frames)
                           && callbacks.Scheduled() == old(callbacks.Scheduled())[1..]
      ensures !r.Other? ==> && old(handed) != [] && cb == CallBack(RESUME, old(handed)[0].0.top, old(handed)[0].1)
                            && frames == old(frames) - {cb.arg1}
                            && r == (if old(Finds(State())) then Returned(old(handed)[0].1) else ReturnedNothing)
                            && (Valid() <==> !Deliver(old(State()), places).broken)
                            && (Valid() ==> && State() == Deliver(old(State()), places)
                                            && callbacks.Scheduled() == old(callbacks.Scheduled())[1..])
    {
      hide Pool.InBlock, Cyc, CallbackLoop.Valid, CallbackLoop.Scheduled, RecycleQueue.Valid, Sound, Coupled, Waiters,
           Finds, Deliver;
      ghost var was := Links();
      cb := callbacks.Next();
      if !(cb.fun == RESUME && cb.arg1 in frames) {
        OtherRun(was);
        return Other, cb;
      }
      Delivered(was);
      r := Resumed(cb.arg1, cb.arg2);
    }
  }
}
