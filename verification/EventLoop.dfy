/** The callback half of src/coroutine/co_ioloop.c: records that name a function and two arguments, queued through a
    recycle queue and run in turns. A record is named by its index; event handlers and callbacks are arbitrary scripts
    of queue operations. */
module EventLoop {
  import opened Options
  import opened Rings

  datatype CallBack = CallBack(fun: nat, arg1: nat, arg2: nat)

  /** What a handler or a callback may do with the queue. Prepared records are held in a list by the code that prepared
      them; `k` picks one of that list. A withdrawal is a preparation with its cancellation, which the code only uses
      right behind it. */
  datatype QueueOp =
    | Add(cb: CallBack)
    | Prepare(cb: CallBack)
    | Fire(k: nat, arg: nat)
    | Withdraw(cb: CallBack)

  ghost predicate Once(all: multiset<nat>, id: nat, n: nat) {
    all[id] <= 1 && (all[id] == 1 ==> id < n)
  }

  /** Each record id below `n`, and no other, is in at most one place. */
  ghost predicate AllOnce(all: multiset<nat>, n: nat) {
    forall id :: Once(all, id, n)
  }

  ghost function Fetch(recs: seq<CallBack>, ids: seq<nat>): (s: seq<CallBack>)
    ensures |s| == |ids|
  {
    seq(|ids|, i requires 0 <= i < |ids| => if ids[i] < |recs| then recs[ids[i]] else CallBack(0, 0, 0))
  }

  lemma FetchAppend(recs: seq<CallBack>, ids: seq<nat>, id: nat)
    requires id < |recs|
    ensures Fetch(recs, ids + [id]) == Fetch(recs, ids) + [recs[id]]
  {}

  lemma FetchElsewhere(recs: seq<CallBack>, ids: seq<nat>, id: nat, cb: CallBack)
    requires id < |recs| && id !in ids
    ensures Fetch(recs[id := cb], ids) == Fetch(recs, ids)
  {}

  lemma InBag(s: seq<nat>, x: nat)
    ensures x in s <==> multiset(s)[x] > 0
  {}

  lemma FreeOnce(pending: seq<nat>, free: seq<nat>, borrowed: multiset<nat>, all: multiset<nat>, n: nat)
    requires Parted(pending, free, borrowed, all) && AllOnce(all, n)
    ensures free != [] ==> free[0] < n && free[0] !in pending && free[0] !in borrowed
  {
    if free != [] {
      assert Once(all, free[0], n) && free[0] in multiset(free);
      InBag(pending, free[0]);
    }
  }

  lemma FirstFreeOnce(pending: seq<nat>, free: seq<nat>, borrowed: multiset<nat>, all: multiset<nat>, n: nat)
    requires Parted(pending, free, borrowed, all) && AllOnce(all, n) && free != []
    ensures free[0] < n && free[0] !in free[1..]
  {
    FreeOnce(pending, free, borrowed, all, n);
    BagTail(free);
    assert Once(all, free[0], n);
    InBag(free[1..], free[0]);
  }

  lemma BorrowedOnce(pending: seq<nat>, free: seq<nat>, borrowed: multiset<nat>, all: multiset<nat>, n: nat, id: nat)
    requires Parted(pending, free, borrowed, all) && AllOnce(all, n) && id in borrowed
    ensures id < n && id !in pending && borrowed[id] == 1
  {
    assert Once(all, id, n);
    InBag(pending, id);
  }

  lemma PendingBelow(pending: seq<nat>, free: seq<nat>, borrowed: multiset<nat>, all: multiset<nat>, n: nat)
    requires Parted(pending, free, borrowed, all) && AllOnce(all, n)
    ensures pending != [] ==> pending[0] < n
  {
    if pending != [] {
      assert Once(all, pending[0], n) && pending[0] in multiset(pending);
    }
  }

  function NextSlot(i: nat, max: nat): nat {
    if i + 1 == max then 0 else i + 1
  }

  class CallbackLoop {
    const queue: RecycleQueue<nat>
    const recs: array<CallBack>

    ghost predicate Valid()
      reads this, queue, queue.datas, recs
    {
      && queue.datas as object != recs as object
      && queue.Valid() && queue.max == recs.Length && AllOnce(queue.all, recs.Length)
    }

    /** The callbacks waiting to run, in order, with the values they would run with. */
    ghost function Scheduled(): seq<CallBack>
      requires Valid()
      reads this, queue, queue.datas, recs
    {
      Fetch(recs[..], queue.Pending())
    }

    constructor (size: nat)
      requires size > 0
      ensures Valid() && Scheduled() == [] && fresh(queue) && fresh(queue.datas) && fresh(recs)
      ensures recs.Length == size && queue.borrowed == multiset{}
    {
      recs := new CallBack[size](_ => CallBack(0, 0, 0));
      queue := new RecycleQueue<nat>(seq(size, i requires 0 <= i < size => i));
      new;
      Identity(size);
    }

    static lemma Identity(n: nat)
      ensures AllOnce(multiset(seq(n, i requires 0 <= i < n => i)), n)
    {
      if n > 0 {
        Identity(n - 1);
        var s, t := seq(n, i requires 0 <= i < n => i), seq(n - 1, i requires 0 <= i < n - 1 => i);
        assert s == t + [n - 1];
        forall id ensures Once(multiset(s), id, n) {
          assert Once(multiset(t), id, n - 1);
        }
      }
    }

    /** hc_co_prepare_callback: a record taken off the free list and filled in, not yet queued. */
    method PrepareCallback(cb: CallBack) returns (r: Option<nat>)
      requires Valid()
      modifies queue`reCurLen, queue`reOutIndex, queue`borrowed, recs
      ensures Valid() && Scheduled() == old(Scheduled())
      ensures old(queue.FreeList()) == [] ==> r == None && unchanged(queue) && recs[..] == old(recs[..])
      ensures old(queue.FreeList()) != [] ==> r == Some(old(queue.FreeList())[0]) && r.value < recs.Length
                                              && r.value !in old(queue.borrowed)
                                              && recs[..] == old(recs[..])[r.value := cb]
                                              && queue.borrowed == old(queue.borrowed) + multiset{r.value}
                                              && queue.FreeList() == old(queue.FreeList())[1..]
                                              && queue.Pending() == old(queue.Pending())
                                              && queue.reOutIndex == NextSlot(old(queue.reOutIndex), queue.max)
                                              && queue.GivesBack(r.value)
    {
      hide Cyc, Split, AllOnce;
      FreeOnce(queue.Pending(), queue.FreeList(), queue.borrowed, queue.all, recs.Length);
      r := queue.GetData();
      if r.Some? {
        FetchElsewhere(recs[..], queue.Pending(), r.value, cb);
        recs[r.value] := cb;
      }
    }

    /** A store into the first argument of a record that is not queued. */
    method SetArg1(id: nat, arg: nat)
      requires Valid() && id in queue.borrowed && id < recs.Length
      modifies recs
      ensures Valid() && Scheduled() == old(Scheduled())
      ensures recs[..] == old(recs[..])[id := old(recs[id]).(arg1 := arg)]
    {
      hide Cyc, Split, AllOnce;
      BorrowedOnce(queue.Pending(), queue.FreeList(), queue.borrowed, queue.all, recs.Length, id);
      FetchElsewhere(recs[..], queue.Pending(), id, recs[id].(arg1 := arg));
      recs[id] := recs[id].(arg1 := arg);
    }

    /** hc_co_callback_in: the second argument is filled in and the record queued. */
    method CallbackIn(id: nat, arg: nat)
      requires Valid() && id in queue.borrowed && id < recs.Length
      modifies queue`curLen, queue`inIndex, queue`borrowed, queue.datas, recs
      ensures Valid() && Scheduled() == old(Scheduled()) + [old(recs[id]).(arg2 := arg)]
      ensures recs[..] == old(recs[..])[id := old(recs[id]).(arg2 := arg)]
      ensures queue.borrowed == old(queue.borrowed) - multiset{id}
      ensures queue.FreeList() == old(queue.FreeList()) && queue.Pending() == old(queue.Pending()) + [id]
    {
      hide Cyc, Split, AllOnce;
      BorrowedOnce(queue.Pending(), queue.FreeList(), queue.borrowed, queue.all, recs.Length, id);
      FetchElsewhere(recs[..], queue.Pending(), id, recs[id].(arg2 := arg));
      recs[id] := recs[id].(arg2 := arg);
      FetchAppend(recs[..], queue.Pending(), id);
      queue.In(id);
    }

    /** hc_co_add_callback. */
    method AddCallback(cb: CallBack) returns (r: Option<nat>)
      requires Valid()
      modifies queue, queue.datas, recs
      ensures Valid() && queue.borrowed == old(queue.borrowed)
      ensures old(queue.FreeList()) == [] ==> r == None && Scheduled() == old(Scheduled())
      ensures old(queue.FreeList()) == [] ==> unchanged(queue) && unchanged(queue.datas) && unchanged(recs)
      ensures old(queue.FreeList()) != [] ==> r == Some(old(queue.FreeList())[0]) && r.value < recs.Length
                                              && Scheduled() == old(Scheduled()) + [cb]
                                              && recs[..] == old(recs[..])[r.value := cb]
                                              && queue.FreeList() == old(queue.FreeList())[1..]
                                              && queue.Pending() == old(queue.Pending()) + [r.value]
                                              && queue.reOutIndex == NextSlot(old(queue.reOutIndex), queue.max)
    {
      hide Cyc, Split, AllOnce;
      FreeOnce(queue.Pending(), queue.FreeList(), queue.borrowed, queue.all, recs.Length);
      r := queue.GetData();
      if r.Some? {
        FetchElsewhere(recs[..], queue.Pending(), r.value, cb);
        recs[r.value] := cb;
        FetchAppend(recs[..], queue.Pending(), r.value);
        queue.In(r.value);
      }
    }

    method Waiting() returns (n: nat)
      requires Valid()
      ensures n == |Scheduled()|
    {
      n := queue.curLen;
    }

    lemma HeldBelow(id: nat)
      requires Valid() && id in queue.borrowed
      ensures id < recs.Length
    {
      hide Cyc, Split;
      BorrowedOnce(queue.Pending(), queue.FreeList(), queue.borrowed, queue.all, recs.Length, id);
    }

    /** The next callback of a turn: taken off the queue with its values; its record is free again at once. */
    method Next() returns (cb: CallBack)
      requires Valid() && Scheduled() != []
      modifies queue`curLen, queue`outIndex, queue`reCurLen
      ensures Valid() && cb == old(Scheduled())[0] && Scheduled() == old(Scheduled())[1..]
      ensures queue.borrowed == old(queue.borrowed)
      ensures old(queue.Pending()) != [] && queue.Pending() == old(queue.Pending())[1..]
      ensures queue.FreeList() == old(queue.FreeList()) + [old(queue.Pending())[0]]
    {
      hide Cyc, Split, AllOnce;
      PendingBelow(queue.Pending(), queue.FreeList(), queue.borrowed, queue.all, recs.Length);
      var r := queue.Out();
      cb := recs[r.value];
    }

    /** hc_co_cancel_callback. */
    method CancelCallback(id: nat)
      requires Valid() && id in queue.borrowed
      modifies queue`reCurLen, queue`reOutIndex, queue`borrowed, queue`before, queue.datas
      ensures queue.borrowed == old(queue.borrowed) - multiset{id}
      ensures Valid() <==> old(queue.GivesBack(id))
      ensures Valid() ==> Scheduled() == old(Scheduled()) && queue.FreeList() == [id] + old(queue.FreeList())
                          && queue.Pending() == old(queue.Pending())
      ensures queue.reOutIndex == if old(queue.reOutIndex) > 0 then old(queue.reOutIndex) - 1 else queue.max - 1
    {
      hide Cyc, Split, AllOnce, Parted;
      queue.CancelData(id);
    }
  }

  // ---------------------------------------------------------------------------
  // What scripts of queue operations do
  // ---------------------------------------------------------------------------

  /** The callback queue and the prepared records that other code holds. */
  datatype Loop = Loop(free: seq<nat>, pending: seq<nat>, handles: seq<nat>, recs: seq<CallBack>)

  function Rec(recs: seq<CallBack>, id: nat): CallBack {
    if id < |recs| then recs[id] else CallBack(0, 0, 0)
  }

  function SetRec(recs: seq<CallBack>, id: nat, cb: CallBack): seq<CallBack> {
    if id < |recs| then recs[id := cb] else recs
  }

  function Without(s: seq<nat>, k: nat): seq<nat>
    requires k < |s|
  {
    s[..k] + s[k + 1..]
  }

  /** The first free record filled in. */
  function Filled(l: Loop, cb: CallBack): Loop
    requires l.free != []
  {
    l.(free := l.free[1..], recs := SetRec(l.recs, l.free[0], cb))
  }

  function Step(l: Loop, op: QueueOp): Loop {
    match op
    case Add(cb) => if l.free == [] then l else Filled(l, cb).(pending := l.pending + [l.free[0]])
    case Prepare(cb) => if l.free == [] then l else Filled(l, cb).(handles := l.handles + [l.free[0]])
    case Fire(k, arg) =>
      if k >= |l.handles| then l
      else
        var id := l.handles[k];
        l.(handles := Without(l.handles, k), pending := l.pending + [id],
           recs := SetRec(l.recs, id, Rec(l.recs, id).(arg2 := arg)))
    case Withdraw(cb) => if l.free == [] then l else l.(recs := SetRec(l.recs, l.free[0], cb))
  }

  /** The callbacks one operation queues: an added one if a record is free, a prepared one with its argument. */
  function QueuedBy(l: Loop, op: QueueOp): seq<CallBack> {
    match op
    case Add(cb) => if l.free == [] then [] else [cb]
    case Fire(k, arg) => if k >= |l.handles| then [] else [Rec(l.recs, l.handles[k]).(arg2 := arg)]
    case _ => []
  }

  function AfterScript(l: Loop, script: seq<QueueOp>): Loop
    decreases |script|
  {
    if script == [] then l else AfterScript(Step(l, script[0]), script[1..])
  }

  /** The callbacks a script queues, in order. */
  function QueuedByScript(l: Loop, script: seq<QueueOp>): seq<CallBack>
    decreases |script|
  {
    if script == [] then [] else QueuedBy(l, script[0]) + QueuedByScript(Step(l, script[0]), script[1..])
  }

  function AfterEvents(l: Loop, events: seq<seq<QueueOp>>): Loop
    decreases |events|
  {
    if events == [] then l else AfterEvents(AfterScript(l, events[0]), events[1..])
  }

  function QueuedByEvents(l: Loop, events: seq<seq<QueueOp>>): seq<CallBack>
    decreases |events|
  {
    if events == [] then [] else QueuedByScript(l, events[0]) + QueuedByEvents(AfterScript(l, events[0]), events[1..])
  }

  /** The first pending record has been run and is free. */
  function Taken(l: Loop): Loop {
    if l.pending == [] then l else l.(pending := l.pending[1..], free := l.free + [l.pending[0]])
  }

  /** What the `i`-th callback of a turn does. */
  function Body(bodies: seq<seq<QueueOp>>, i: nat): seq<QueueOp> {
    if i < |bodies| then bodies[i] else []
  }

  function AfterBodies(l: Loop, bodies: seq<seq<QueueOp>>, i: nat, n: nat): Loop
    decreases n - i
  {
    if i >= n then l else AfterBodies(AfterScript(Taken(l), Body(bodies, i)), bodies, i + 1, n)
  }

  function QueuedByBodies(l: Loop, bodies: seq<seq<QueueOp>>, i: nat, n: nat): seq<CallBack>
    decreases n - i
  {
    if i >= n then []
    else
      QueuedByScript(Taken(l), Body(bodies, i)) +
      QueuedByBodies(AfterScript(Taken(l), Body(bodies, i)), bodies, i + 1, n)
  }

  /** What the event handlers of a turn and then its `n` callbacks queue, in order. */
  function QueuedInTurn(l: Loop, events: seq<seq<QueueOp>>, bodies: seq<seq<QueueOp>>, n: nat): seq<CallBack> {
    QueuedByEvents(l, events) + QueuedByBodies(AfterEvents(l, events), bodies, 0, n)
  }

  // ---------------------------------------------------------------------------
  // What turns leave, told by the operations alone
  // ---------------------------------------------------------------------------

  /** Scripts that keep no record: each one they take is queued or withdrawn at once. */
  predicate AllAdd(script: seq<QueueOp>) {
    forall i :: 0 <= i < |script| ==> script[i].Add? || script[i].Withdraw?
  }

  predicate OnlyAdds(scripts: seq<seq<QueueOp>>) {
    forall i :: 0 <= i < |scripts| ==> AllAdd(scripts[i])
  }

  /** The callbacks a script adds, in order. */
  function Added(script: seq<QueueOp>): seq<CallBack> {
    if script == [] then []
    else
      match script[0]
      case Add(cb) => [cb] + Added(script[1..])
      case _ => Added(script[1..])
  }

  /** The callbacks of several scripts, one script after another. */
  function AddedBy(scripts: seq<seq<QueueOp>>): seq<CallBack> {
    if scripts == [] then [] else Added(scripts[0]) + AddedBy(scripts[1..])
  }

  /** Records that are not free keep what is stored in them. */
  ghost predicate Kept(l: Loop, m: Loop, id: nat) {
    && (id !in l.free ==> id !in m.free && Rec(m.recs, id) == Rec(l.recs, id))
    && |m.recs| == |l.recs| && m.handles == l.handles
  }

  lemma {:induction false} ScriptAdds(l: Loop, script: seq<QueueOp>, id: nat)
    requires AllAdd(script) && |Added(script)| <= |l.free|
    ensures QueuedByScript(l, script) == Added(script) && |AfterScript(l, script).free| == |l.free| - |Added(script)|
    ensures Kept(l, AfterScript(l, script), id)
    decreases |script|
  {
    if script != [] {
      ScriptAdds(Step(l, script[0]), script[1..], id);
    }
  }

  lemma {:induction false} EventsAdd(l: Loop, events: seq<seq<QueueOp>>, id: nat)
    requires OnlyAdds(events) && |AddedBy(events)| <= |l.free|
    ensures QueuedByEvents(l, events) == AddedBy(events)
    ensures |AfterEvents(l, events).free| == |l.free| - |AddedBy(events)| && Kept(l, AfterEvents(l, events), id)
    decreases |events|
  {
    if events != [] {
      ScriptAdds(l, events[0], id);
      EventsAdd(AfterScript(l, events[0]), events[1..], id);
    }
  }

  /** The bodies of the `i`-th to the last of `n` callbacks. */
  function BodiesFrom(bodies: seq<seq<QueueOp>>, i: nat, n: nat): seq<seq<QueueOp>> {
    if i <= n <= |bodies| then bodies[i..n] else if i <= |bodies| <= n then bodies[i..] else []
  }

  lemma {:induction false} BodiesAdd(l: Loop, bodies: seq<seq<QueueOp>>, i: nat, n: nat)
    requires OnlyAdds(bodies) && |AddedBy(BodiesFrom(bodies, i, n))| <= |l.free|
    ensures QueuedByBodies(l, bodies, i, n) == AddedBy(BodiesFrom(bodies, i, n))
    decreases n - i
  {
    if i < n {
      var body := Body(bodies, i);
      var rest := BodiesFrom(bodies, i + 1, n);
      if i < |bodies| {
        assert BodiesFrom(bodies, i, n)[0] == body && BodiesFrom(bodies, i, n)[1..] == rest;
      } else {
        assert BodiesFrom(bodies, i, n) == [] && rest == [];
      }
      ScriptAdds(Taken(l), body, 0);
      BodiesAdd(AfterScript(Taken(l), body), bodies, i + 1, n);
    }
  }

  /** Handlers that add callbacks: theirs come first, whatever the bodies do; and if these add some, too, theirs come
      next, and nothing else. */
  lemma TurnAdds(l: Loop, events: seq<seq<QueueOp>>, bodies: seq<seq<QueueOp>>, n: nat)
    requires OnlyAdds(events) && |AddedBy(events)| <= |l.free|
    ensures var q := QueuedInTurn(l, events, bodies, n);
            && |AddedBy(events)| <= |q| && q[..|AddedBy(events)|] == AddedBy(events)
            && (OnlyAdds(bodies) && |AddedBy(events)| + |AddedBy(BodiesFrom(bodies, 0, n))| <= |l.free| ==>
                  q == AddedBy(events) + AddedBy(BodiesFrom(bodies, 0, n)))
  {
    EventsAdd(l, events, 0);
    if OnlyAdds(bodies) && |AddedBy(events)| + |AddedBy(BodiesFrom(bodies, 0, n))| <= |l.free| {
      BodiesAdd(AfterEvents(l, events), bodies, 0, n);
    }
  }

  lemma ScriptOne(l: Loop, op: QueueOp)
    ensures AfterScript(l, [op]) == Step(l, op) && QueuedByScript(l, [op]) == QueuedBy(l, op)
  {
    assert [op][1..] == [];
    assert QueuedByScript(l, [op]) == QueuedBy(l, op) + QueuedByScript(Step(l, op), []);
    assert AfterScript(Step(l, op), []) == Step(l, op);
  }

  /** A record the first handler prepares and the first body fires is queued behind what the other handlers add, with
      the function and the first argument it was prepared with and the second argument it is fired with. */
  lemma TurnFires(l: Loop, cb: CallBack, more: seq<seq<QueueOp>>, arg: nat, bodies: seq<seq<QueueOp>>, n: nat)
    requires l.free != [] && l.free[0] < |l.recs| && l.free[0] !in l.free[1..]
    requires OnlyAdds(more) && |AddedBy(more)| < |l.free|
    requires n > 0 && bodies != [] && bodies[0] != [] && bodies[0][0] == Fire(|l.handles|, arg)
    ensures var q := QueuedInTurn(l, [[Prepare(cb)]] + more, bodies, n);
            && |AddedBy(more)| < |q| && q[..|AddedBy(more)|] == AddedBy(more)
            && q[|AddedBy(more)|] == CallBack(cb.fun, cb.arg1, arg)
  {
    var events, id := [[Prepare(cb)]] + more, l.free[0];
    var first := AfterScript(l, [Prepare(cb)]);
    ScriptOne(l, Prepare(cb));
    assert events[1..] == more;
    EventsAdd(first, more, id);
    var after := Taken(AfterEvents(l, events));
    assert after.handles == l.handles + [id] && Rec(after.recs, id) == cb;
    var rest := bodies[0][1..];
    assert QueuedByScript(after, bodies[0])
        == [CallBack(cb.fun, cb.arg1, arg)] + QueuedByScript(Step(after, bodies[0][0]), rest);
  }

  /** The loop together with the code around it: `handles` are the prepared records other code holds. */
  class CoLoop {
    const callbacks: CallbackLoop
    var handles: seq<nat>

    ghost predicate Valid()
      reads this, callbacks, callbacks.queue, callbacks.queue.datas, callbacks.recs
    {
      callbacks.Valid() && multiset(handles) == callbacks.queue.borrowed
    }

    ghost function Scheduled(): seq<CallBack>
      requires Valid()
      reads this, callbacks, callbacks.queue, callbacks.queue.datas, callbacks.recs
    {
      callbacks.Scheduled()
    }

    ghost function State(): Loop
      requires Valid()
      reads this, callbacks, callbacks.queue, callbacks.queue.datas, callbacks.recs
    {
      Loop(callbacks.queue.FreeList(), callbacks.queue.Pending(), handles, callbacks.recs[..])
    }

    constructor (size: nat)
      requires size > 0
      ensures Valid() && Scheduled() == []
    {
      callbacks := new CallbackLoop(size);
      handles := [];
    }

    method PerformAdd(cb: CallBack)
      requires Valid()
      modifies callbacks.queue, callbacks.queue.datas, callbacks.recs
      ensures Valid() && State() == Step(old(State()), Add(cb))
      ensures Scheduled() == old(Scheduled()) + QueuedBy(old(State()), Add(cb))
    {
      hide Cyc, Split, Parted, AllOnce, CallbackLoop.Scheduled;
      var r := callbacks.AddCallback(cb);
    }

    method PerformPrepare(cb: CallBack)
      requires Valid()
      modifies this`handles, callbacks.queue, callbacks.recs
      ensures Valid() && Scheduled() == old(Scheduled()) && State() == Step(old(State()), Prepare(cb))
    {
      hide Cyc, Split, Parted, AllOnce, CallbackLoop.Scheduled;
      var r := callbacks.PrepareCallback(cb);
      if r.Some? {
        BagAppend(handles, r.value);
        handles := handles + [r.value];
      }
    }

    method PerformFire(k: nat, arg: nat)
      requires Valid() && k < |handles|
      modifies this`handles, callbacks.queue, callbacks.queue.datas, callbacks.recs
      ensures Valid() && State() == Step(old(State()), Fire(k, arg))
      ensures Scheduled() == old(Scheduled()) + QueuedBy(old(State()), Fire(k, arg))
    {
      hide Cyc, Split, Parted, AllOnce, CallbackLoop.Scheduled, CallbackLoop.Valid;
      TakeHandle(handles, k);
      var id := handles[k];
      callbacks.HeldBelow(id);
      callbacks.CallbackIn(id, arg);
      handles := Without(handles, k);
    }

    /** hc_co_wait_callback when the coroutine cannot be saved: the record just prepared is cancelled. It goes back to
        the slot it came from, also when the free list now begins at slot 0. */
    method PerformWithdraw(cb: CallBack)
      requires Valid()
      modifies callbacks.queue, callbacks.queue.datas, callbacks.recs
      ensures Valid() && Scheduled() == old(Scheduled()) && State() == Step(old(State()), Withdraw(cb))
    {
      hide Cyc, Split, Parted, AllOnce, CallbackLoop.Scheduled;
      var r := callbacks.PrepareCallback(cb);
      if r.Some? {
        callbacks.CancelCallback(r.value);
      }
    }

    method Perform(op: QueueOp)
      requires Valid()
      modifies this, callbacks.queue, callbacks.queue.datas, callbacks.recs
      ensures Valid() && State() == Step(old(State()), op)
      ensures Scheduled() == old(Scheduled()) + QueuedBy(old(State()), op)
    {
      hide CallbackLoop.Valid, CallbackLoop.Scheduled;
      match op {
        case Add(cb) =>
          PerformAdd(cb);
        case Prepare(cb) =>
          PerformPrepare(cb);
        case Fire(k, arg) =>
          if k < |handles| {
            PerformFire(k, arg);
          }
        case Withdraw(cb) =>
          PerformWithdraw(cb);
      }
    }

    method PerformAll(script: seq<QueueOp>)
      requires Valid()
      modifies this, callbacks.queue, callbacks.queue.datas, callbacks.recs
      ensures Valid() && State() == AfterScript(old(State()), script)
      ensures Scheduled() == old(Scheduled()) + QueuedByScript(old(State()), script)
    {
      hide Valid, Scheduled, State, Step, QueuedBy;
      ghost var queued: seq<CallBack> := [];
      assert script[0..] == script;
      for i := 0 to |script|
        invariant Valid() && Scheduled() == old(Scheduled()) + queued
        invariant AfterScript(old(State()), script) == AfterScript(State(), script[i..])
        invariant QueuedByScript(old(State()), script) == queued + QueuedByScript(State(), script[i..])
      {
        assert script[i..][1..] == script[i + 1..];
        queued := queued + QueuedBy(State(), script[i]);
        Perform(script[i]);
      }
    }

    method PerformEvents(events: seq<seq<QueueOp>>)
      requires Valid()
      modifies this, callbacks.queue, callbacks.queue.datas, callbacks.recs
      ensures Valid() && State() == AfterEvents(old(State()), events)
      ensures Scheduled() == old(Scheduled()) + QueuedByEvents(old(State()), events)
    {
      hide Valid, Scheduled, State, AfterScript, QueuedByScript;
      ghost var queued: seq<CallBack> := [];
      assert events[0..] == events;
      for i := 0 to |events|
        invariant Valid() && Scheduled() == old(Scheduled()) + queued
        invariant AfterEvents(old(State()), events) == AfterEvents(State(), events[i..])
        invariant QueuedByEvents(old(State()), events) == queued + QueuedByEvents(State(), events[i..])
      {
        assert events[i..][1..] == events[i + 1..];
        queued := queued + QueuedByScript(State(), events[i]);
        PerformAll(events[i]);
      }
    }

    method Waiting() returns (n: nat)
      requires Valid()
      ensures n == |Scheduled()|
    {
      n := callbacks.Waiting();
    }

    /** The next callback of a turn: the first one scheduled. */
    method TakeNext() returns (cb: CallBack)
      requires Valid() && Scheduled() != []
      modifies callbacks.queue
      ensures Valid() && cb == old(Scheduled())[0] && Scheduled() == old(Scheduled())[1..]
      ensures State() == Taken(old(State()))
    {
      hide Cyc, Split, Parted, AllOnce, CallbackLoop.Scheduled;
      cb := callbacks.Next();
    }

    /** The next callback of a turn, and what its body does. */
    method RunNext(body: seq<QueueOp>) returns (cb: CallBack)
      requires Valid() && Scheduled() != []
      modifies this, callbacks.queue, callbacks.queue.datas, callbacks.recs
      ensures Valid() && State() == AfterScript(Taken(old(State())), body)
      ensures cb == old(Scheduled())[0]
      ensures Scheduled() == old(Scheduled())[1..] + QueuedByScript(Taken(old(State())), body)
    {
      hide Valid, Scheduled, State, AfterScript, QueuedByScript, Taken;
      cb := TakeNext();
      PerformAll(body);
    }

    /** One turn of hc_co_ioloop_start: the number of callbacks to run is fixed before the event handlers run. It runs
        exactly the callbacks that were waiting when the turn began, in order and with the values they held then; what
        is left afterwards is exactly what handlers and callbacks have queued meanwhile, in order. So of handlers and
        callbacks that only add others, those of the handlers are scheduled first, and then those of the callbacks. */
    method RunTurn(events: seq<seq<QueueOp>>, bodies: seq<seq<QueueOp>>) returns (ran: seq<CallBack>)
      requires Valid()
      modifies this, callbacks.queue, callbacks.queue.datas, callbacks.recs
      ensures Valid()
      ensures ran == old(Scheduled())
      ensures Scheduled() == QueuedInTurn(old(State()), events, bodies, |old(Scheduled())|)
      ensures OnlyAdds(events) && |AddedBy(events)| <= |old(State()).free| ==>
                |AddedBy(events)| <= |Scheduled()| && Scheduled()[..|AddedBy(events)|] == AddedBy(events)
      ensures OnlyAdds(events) && OnlyAdds(bodies) ==>
                var late := AddedBy(BodiesFrom(bodies, 0, |old(Scheduled())|));
                |AddedBy(events)| + |late| <= |old(State()).free| ==> Scheduled() == AddedBy(events) + late
    {
      hide Valid, Scheduled, State, AfterScript, QueuedByScript, Taken, AddedBy, OnlyAdds, BodiesFrom;
      var cbNum := Waiting();
      ran := [];
      ghost var was := Scheduled();
      PerformEvents(events);
      ghost var queued := QueuedByEvents(old(State()), events);
      for i := 0 to cbNum
        invariant Valid() && cbNum == |was|
        invariant ran == was[..i] && Scheduled() == was[i..] + queued
        invariant QueuedInTurn(old(State()), events, bodies, cbNum) ==
            queued + QueuedByBodies(State(), bodies, i, cbNum)
      {
        DropFirst(was, i, queued);
        ghost var more := QueuedByScript(Taken(State()), Body(bodies, i));
        var cb := RunNext(Body(bodies, i));
        ran := ran + [cb];
        Reassociate(was[i + 1..], queued, more);
        Reassociate(queued, more, QueuedByBodies(State(), bodies, i + 1, cbNum));
        queued := queued + more;
      }
      if OnlyAdds(events) && |AddedBy(events)| <= |old(State()).free| {
        TurnAdds(old(State()), events, bodies, cbNum);
      }
    }

    /** A turn in which the first handler prepares a record and the first callback fires it: it is scheduled behind what
        the other handlers have added, with the values it was prepared with and the argument it is fired with. */
    method RunFiring(cb: CallBack, more: seq<seq<QueueOp>>, arg: nat, bodies: seq<seq<QueueOp>>)
      returns (ran: seq<CallBack>)
      requires Valid() && Scheduled() != [] && OnlyAdds(more) && |AddedBy(more)| < |callbacks.queue.FreeList()|
      requires bodies != [] && bodies[0] != [] && bodies[0][0] == Fire(|handles|, arg)
      modifies this, callbacks.queue, callbacks.queue.datas, callbacks.recs
      ensures Valid() && ran == old(Scheduled()) && |AddedBy(more)| < |Scheduled()|
      ensures Scheduled()[..|AddedBy(more)|] == AddedBy(more)
      ensures Scheduled()[|AddedBy(more)|] == CallBack(cb.fun, cb.arg1, arg)
    {
      hide CallbackLoop.Scheduled, AddedBy, OnlyAdds, QueuedInTurn, Parted, Split, Cyc, AllOnce;
      FirstFreeOnce(callbacks.queue.Pending(), callbacks.queue.FreeList(), callbacks.queue.borrowed,
          callbacks.queue.all,
                    callbacks.recs.Length);
      TurnFires(State(), cb, more, arg, bodies, |Scheduled()|);
      ran := RunTurn([[Prepare(cb)]] + more, bodies);
    }
  }

  lemma Reassociate<T>(a: seq<T>, b: seq<T>, c: seq<T>)
    ensures a + b + c == a + (b + c)
  {}

  lemma DropFirst<T>(s: seq<T>, i: nat, t: seq<T>)
    requires i < |s|
    ensures (s[i..] + t)[0] == s[i] && (s[i..] + t)[1..] == s[i + 1..] + t
    ensures s[..i + 1] == s[..i] + [s[i]]
  {}

  lemma TakeHandle(handles: seq<nat>, k: nat)
    requires k < |handles|
    ensures handles[k] in multiset(handles)
    ensures multiset(handles[..k] + handles[k + 1..]) == multiset(handles) - multiset{handles[k]}
  {
    assert handles == handles[..k] + [handles[k]] + handles[k + 1..];
  }
}
