/** The connection pool of src/util/hc_data.c as a value: where each connection is, which coroutines wait, and what the
    slots of the wait queue hold. */
module ConnRuns {
  import opened Options
  import opened Rings

  /** A waiting coroutine: its callback record, the wait slot it remembers, and the block it is saved under. */
  datatype Ticket = Ticket(waiter: nat, slot: nat, top: nat)

  /** `handed` pairs a waiter with the connection that is on its way to it through the callback queue. `next` is the
      slot the next registration takes, `cleared` are the slots that hold 0, and `lost` the connections that a resumed
      waiter did not return. The pool is `broken` once the wait queue's length has become negative. */
  datatype Conn = Conn(idle: seq<nat>, closed: seq<nat>, used: multiset<nat>, handed: seq<(Ticket, nat)>,
                       waiting: seq<Ticket>, next: nat, cleared: set<nat>, lost: multiset<nat>, broken: bool)

  ghost function Items(handed: seq<(Ticket, nat)>): multiset<nat> {
    if handed == [] then multiset{} else multiset{handed[0].1} + Items(handed[1..])
  }

  lemma {:induction false} ItemsAppend(handed: seq<(Ticket, nat)>, p: (Ticket, nat))
    ensures Items(handed + [p]) == Items(handed) + multiset{p.1}
  {
    if handed != [] {
      assert (handed + [p])[1..] == handed[1..] + [p];
      ItemsAppend(handed[1..], p);
    } else {
      assert handed + [p] == [p];
    }
  }

  /** Each connection is in exactly one place, waiters exist only when nothing is left to give, and no more than
      `keep` connections are kept open and idle. */
  ghost predicate Sound(s: Conn, all: multiset<nat>, keep: nat) {
    && multiset(s.idle) + multiset(s.closed) + s.used + Items(s.handed) + s.lost == all
    && (s.waiting != [] ==> s.idle == [] && s.closed == [])
    && |s.idle| <= keep
  }

  function StepNum(keep: nat): nat {
    if keep / 2 < 1 then 1 else keep / 2
  }

  function Min(a: nat, b: nat): nat {
    if a < b then a else b
  }

  function Before(i: nat, places: nat): nat {
    if i > 0 then i - 1 else if places > 0 then places - 1 else 0
  }

  /** hc_connpool_add. */
  function Reopen(s: Conn, len: nat): Conn {
    var m := Min(len, |s.closed|);
    s.(idle := s.idle + s.closed[..m], closed := s.closed[m..])
  }

  predicate HasStock(s: Conn) {
    s.idle != [] || s.closed != []
  }

  /** hc_connpool_get when a connection is to be had. */
  function GetStock(s: Conn, keep: nat): (r: (Conn, nat))
    requires HasStock(s)
  {
    var t := if s.idle != [] then s else Reopen(s, StepNum(keep));
    (t.(idle := t.idle[1..], used := t.used + multiset{t.idle[0]}), t.idle[0])
  }

  /** The oldest idle connection; or else half of `keep`, at least one and at most as many as there are, of the closed
      ones are opened, the oldest first, and the first of them is given. */
  lemma StockTaken(s: Conn, keep: nat)
    requires HasStock(s)
    ensures var (t, item) := GetStock(s, keep);
            && t.used == s.used + multiset{item}
            && (s.idle != [] ==> item == s.idle[0] && t.idle == s.idle[1..] && t.closed == s.closed)
            && (s.idle == [] ==>
                  var half := if keep < 2 then 1 else keep / 2;
                  var m := if half < |s.closed| then half else |s.closed|;
                  1 <= m && item == s.closed[0] && t.idle == s.closed[1..m] && t.closed == s.closed[m..])
  {
    if s.idle == [] {
      var m := Min(StepNum(keep), |s.closed|);
      assert (s.idle + s.closed[..m])[1..] == s.closed[1..m];
    }
  }

  /** hc_connpool_wait when the coroutine can be queued. */
  function Enqueue(s: Conn, waiter: nat, top: nat, places: nat): Conn {
    s.(waiting := s.waiting + [Ticket(waiter, s.next, top)], next := Wrap(s.next + 1, places),
       cleared := s.cleared - {s.next})
  }

  /** hc_connpool_wait when the coroutine cannot be queued: a place taken and given up again is left at 0. */
  function Refuse(s: Conn, places: nat): Conn {
    if |s.waiting| < places then s.(cleared := s.cleared + {s.next}) else s
  }

  /** hc_connpool_recycle. */
  function Recycle(s: Conn, item: nat, keep: nat): Conn {
    var t := s.(used := s.used - multiset{item});
    if s.waiting != [] then t.(handed := s.handed + [(s.waiting[0], item)], waiting := s.waiting[1..])
    else if keep <= |s.idle| then t.(closed := s.closed + [item])
    else t.(idle := s.idle + [item])
  }

  /** Whether the waiter resumed next finds its slot as it left it. */
  predicate Finds(s: Conn)
    requires s.handed != []
  {
    s.handed[0].0.slot !in s.cleared
  }

  /** The loop runs the oldest hand-over. Its waiter goes on with its connection; but when its slot has become 0 it
      takes back the registration made last, whoever made it, and returns nothing. */
  function Deliver(s: Conn, places: nat): Conn
    requires s.handed != []
  {
    var t, item := s.(handed := s.handed[1..]), s.handed[0].1;
    if Finds(s) then t.(used := s.used + multiset{item})
    else t.(lost := s.lost + multiset{item}, next := Before(s.next, places),
            cleared := if s.next > 0 then s.cleared + {s.next - 1} else s.cleared,
            waiting := if s.waiting == [] then [] else s.waiting[..|s.waiting| - 1],
            broken := s.waiting == [])
  }

  datatype Op = OpGet | OpWait(waiter: nat, top: nat) | OpRefuse | OpRecycle(item: nat) | OpDeliver

  predicate Legal(s: Conn, op: Op, places: nat) {
    !s.broken &&
    match op
    case OpGet => HasStock(s)
    case OpWait(_, _) => !HasStock(s) && |s.waiting| < places
    case OpRefuse => !HasStock(s)
    case OpRecycle(item) => item in s.used
    case OpDeliver => s.handed != []
  }

  function Step(s: Conn, op: Op, keep: nat, places: nat): Conn
    requires Legal(s, op, places)
  {
    match op
    case OpGet => GetStock(s, keep).0
    case OpWait(w, top) => Enqueue(s, w, top, places)
    case OpRefuse => Refuse(s, places)
    case OpRecycle(item) => Recycle(s, item, keep)
    case OpDeliver => Deliver(s, places)
  }

  lemma FreshSound(items: seq<nat>, keep: nat, cleared: set<nat>)
    ensures Sound(Conn([], items, multiset{}, [], [], 0, cleared, multiset{}, false), multiset(items), keep)
    ensures |multiset(items)| == |items|
  {}

  lemma BagTake(idle: multiset<nat>, closed: multiset<nat>, used: multiset<nat>, rest: multiset<nat>,
                lost: multiset<nat>, x: nat)
    ensures idle + closed + (used + multiset{x}) + rest + lost == (multiset{x} + idle) + closed + used + rest + lost
  {}

  lemma GetOpen(s: Conn, all: multiset<nat>, keep: nat)
    requires Sound(s, all, keep) && s.idle != []
    ensures Sound(s.(idle := s.idle[1..], used := s.used + multiset{s.idle[0]}), all, keep)
  {
    hide Items;
    BagTail(s.idle);
    BagTake(multiset(s.idle[1..]), multiset(s.closed), s.used, Items(s.handed), s.lost, s.idle[0]);
  }

  lemma BagMove(idle: multiset<nat>, front: multiset<nat>, back: multiset<nat>, used: multiset<nat>,
                rest: multiset<nat>,
                lost: multiset<nat>)
    ensures (idle + front) + back + used + rest + lost == idle + (front + back) + used + rest + lost
  {}

  /** Reopening keeps every connection in one place; only the bound on the idle ones is at stake. */
  lemma ReopenPlaces(s: Conn, len: nat)
    ensures var t := Reopen(s, len);
            multiset(t.idle) + multiset(t.closed) + t.used + Items(t.handed) + t.lost
            == multiset(s.idle) + multiset(s.closed) + s.used + Items(s.handed) + s.lost
  {
    hide Items;
    var m := Min(len, |s.closed|);
    assert s.closed == s.closed[..m] + s.closed[m..];
    BagMove(multiset(s.idle), multiset(s.closed[..m]), multiset(s.closed[m..]), s.used, Items(s.handed), s.lost);
  }

  lemma GetSound(s: Conn, all: multiset<nat>, keep: nat)
    requires Sound(s, all, keep) && HasStock(s)
    ensures Sound(GetStock(s, keep).0, all, keep)
  {
    hide Items;
    if s.idle != [] {
      GetOpen(s, all, keep);
    } else {
      var t := Reopen(s, StepNum(keep));
      ReopenPlaces(s, StepNum(keep));
      GetOpen(t, all, keep + 1);
    }
  }

  lemma BagShift(idle: multiset<nat>, closed: multiset<nat>, used: multiset<nat>, handed: multiset<nat>, x: nat)
    requires x in used
    ensures (idle + multiset{x}) + closed + (used - multiset{x}) + handed == idle + closed + used + handed
    ensures idle + (closed + multiset{x}) + (used - multiset{x}) + handed == idle + closed + used + handed
    ensures idle + closed + (used - multiset{x}) + (handed + multiset{x}) == idle + closed + used + handed
  {}

  lemma RecycleSound(s: Conn, item: nat, all: multiset<nat>, keep: nat)
    requires Sound(s, all, keep) && item in s.used
    ensures Sound(Recycle(s, item, keep), all, keep)
  {
    hide Items;
    BagShift(multiset(s.idle), multiset(s.closed), s.used, Items(s.handed), item);
    if s.waiting != [] {
      ItemsAppend(s.handed, (s.waiting[0], item));
    } else if keep <= |s.idle| {
      BagAppend(s.closed, item);
    } else {
      BagAppend(s.idle, item);
    }
  }

  lemma StepSound(s: Conn, op: Op, all: multiset<nat>, keep: nat, places: nat)
    requires Sound(s, all, keep) && Legal(s, op, places)
    ensures Sound(Step(s, op, keep, places), all, keep)
  {
    match op
    case OpGet => GetSound(s, all, keep);
    case OpWait(_, _) =>
    case OpRefuse =>
    case OpRecycle(item) => RecycleSound(s, item, all, keep);
    case OpDeliver => DeliverSound(s, all, keep, places);
  }

  lemma BagDeliver(stock: multiset<nat>, used: multiset<nat>, x: multiset<nat>, rest: multiset<nat>,
                   lost: multiset<nat>)
    ensures stock + (used + x) + rest + lost == stock + used + (x + rest) + lost
    ensures stock + used + rest + (lost + x) == stock + used + (x + rest) + lost
  {}

  lemma DeliverSound(s: Conn, all: multiset<nat>, keep: nat, places: nat)
    requires Sound(s, all, keep) && s.handed != []
    ensures Sound(Deliver(s, places), all, keep)
  {
    ItemsFirst(s.handed);
    hide Items, Before, Finds;
    var stock, x := multiset(s.idle) + multiset(s.closed), multiset{s.handed[0].1};
    BagDeliver(stock, s.used, x, Items(s.handed[1..]), s.lost);
    var t := Deliver(s, places);
    assert t.idle == s.idle && t.closed == s.closed && t.handed == s.handed[1..];
    if Finds(s) {
      assert t.used == s.used + x && t.lost == s.lost;
    } else {
      assert t.used == s.used && t.lost == s.lost + x;
    }
  }

  lemma ItemsFirst(handed: seq<(Ticket, nat)>)
    requires handed != []
    ensures Items(handed) == multiset{handed[0].1} + Items(handed[1..])
  {}

  // ---------------------------------------------------------------------------
  // Runs
  // ---------------------------------------------------------------------------

  /** A run so far: the registrations that were not taken back by someone else, the hand-overs made, for each hand-over
      run whether its waiter returned the connection, and the registrations that a resumed waiter took back. */
  datatype History = History(conn: Conn, queued: seq<Ticket>, served: seq<(Ticket, nat)>, outcomes: seq<bool>,
                             struck: seq<Ticket>)

  function Record(h: History, op: Op, keep: nat, places: nat): History
    requires Legal(h.conn, op, places)
  {
    var s := h.conn;
    var t := h.(conn := Step(s, op, keep, places));
    match op
    case OpWait(w, top) => t.(queued := h.queued + [Ticket(w, s.next, top)])
    case OpRecycle(item) => if s.waiting == [] then t else t.(served := h.served + [(s.waiting[0], item)])
    case OpDeliver =>
      if Finds(s) then t.(outcomes := h.outcomes + [true])
      else if s.waiting == [] || h.queued == [] then t.(outcomes := h.outcomes + [false])
      else t.(outcomes := h.outcomes + [false], queued := h.queued[..|h.queued| - 1],
              struck := h.struck + [s.waiting[|s.waiting| - 1]])
    case _ => t
  }

  ghost predicate LegalRun(s: Conn, ops: seq<Op>, keep: nat, places: nat)
    decreases |ops|
  {
    ops == [] || (Legal(s, ops[0], places) && LegalRun(Step(s, ops[0], keep, places), ops[1..], keep, places))
  }

  ghost function Run(h: History, ops: seq<Op>, keep: nat, places: nat): History
    requires LegalRun(h.conn, ops, keep, places)
    decreases |ops|
  {
    if ops == [] then h else Run(Record(h, ops[0], keep, places), ops[1..], keep, places)
  }

  ghost function Firsts(served: seq<(Ticket, nat)>): (w: seq<Ticket>)
    ensures |w| == |served|
  {
    seq(|served|, i requires 0 <= i < |served| => served[i].0)
  }

  /** The connections handed to waiters that did not return them. */
  ghost function LostItems(served: seq<(Ticket, nat)>, outcomes: seq<bool>): multiset<nat> {
    if served == [] || outcomes == [] then multiset{}
    else (if outcomes[0] then multiset{} else multiset{served[0].1}) + LostItems(served[1..], outcomes[1..])
  }

  /** How many hand-overs have failed. */
  ghost function Failures(outcomes: seq<bool>): nat {
    if outcomes == [] then 0 else (if outcomes[|outcomes| - 1] then 0 else 1) + Failures(outcomes[..|outcomes| - 1])
  }

  /** First come, first served: the registrations that still count are those served, in that order, and then those still
      waiting; the hand-overs run so far are the first ones made, and the others are on their way. */
  ghost predicate InTurn(h: History) {
    && h.queued == Firsts(h.served) + h.conn.waiting
    && |h.outcomes| <= |h.served| && h.served[|h.outcomes|..] == h.conn.handed
    && h.conn.lost == LostItems(h.served, h.outcomes)
    && |h.struck| <= Failures(h.outcomes)
  }

  lemma {:induction false} LostServed(served: seq<(Ticket, nat)>, outcomes: seq<bool>, p: (Ticket, nat))
    requires |outcomes| <= |served|
    ensures LostItems(served + [p], outcomes) == LostItems(served, outcomes)
    decreases |served|
  {
    if outcomes != [] {
      assert (served + [p])[1..] == served[1..] + [p];
      LostServed(served[1..], outcomes[1..], p);
    }
  }

  lemma {:induction false} LostOutcome(served: seq<(Ticket, nat)>, outcomes: seq<bool>, ok: bool)
    requires |outcomes| < |served|
    ensures LostItems(served, outcomes + [ok])
         == LostItems(served, outcomes) + if ok then multiset{} else multiset{served[|outcomes|].1}
    decreases |served|
  {
    if outcomes == [] {
      assert (outcomes + [ok])[1..] == [];
    } else {
      assert (outcomes + [ok])[1..] == outcomes[1..] + [ok];
      LostOutcome(served[1..], outcomes[1..], ok);
    }
  }

  lemma RecordInTurn(h: History, op: Op, keep: nat, places: nat)
    requires InTurn(h) && Legal(h.conn, op, places)
    ensures InTurn(Record(h, op, keep, places))
  {
    hide LostItems;
    var s, t := h.conn, Record(h, op, keep, places);
    match op
    case OpGet =>
    case OpRefuse =>
    case OpWait(w, top) =>
      assert h.queued + [Ticket(w, s.next, top)] == Firsts(h.served) + (s.waiting + [Ticket(w, s.next, top)]);
    case OpRecycle(item) =>
      if s.waiting != [] {
        LostServed(h.served, h.outcomes, (s.waiting[0], item));
        assert Firsts(t.served) == Firsts(h.served) + [s.waiting[0]];
        assert h.queued == Firsts(t.served) + s.waiting[1..];
        assert t.served[|h.outcomes|..] == h.served[|h.outcomes|..] + [(s.waiting[0], item)];
      }
    case OpDeliver =>
      DeliverInTurn(h, keep, places);
  }

  lemma DeliverInTurn(h: History, keep: nat, places: nat)
    requires InTurn(h) && Legal(h.conn, OpDeliver, places)
    ensures InTurn(Record(h, OpDeliver, keep, places))
  {
    hide LostItems;
    var s, t := h.conn, Record(h, OpDeliver, keep, places);
    assert h.served[|h.outcomes|] == s.handed[0];
    LostOutcome(h.served, h.outcomes, Finds(s));
    assert t.served[|t.outcomes|..] == h.served[|h.outcomes|..][1..];
    assert t.outcomes[..|t.outcomes| - 1] == h.outcomes;
    if !Finds(s) && s.waiting != [] {
      assert h.queued[..|h.queued| - 1] == Firsts(h.served) + s.waiting[..|s.waiting| - 1];
    }
  }

  /** Over every run each connection stays in exactly one place: idle, closed, in use, on its way to a waiter, or lost
      by one. Coroutines are served in the order they came, one connection each, and the connections lost are exactly
      those of the waiters that found their slot at 0, each of which takes back at most one registration. */
  lemma {:induction false} RunSound(h: History, ops: seq<Op>, all: multiset<nat>, keep: nat, places: nat)
    requires Sound(h.conn, all, keep) && InTurn(h) && LegalRun(h.conn, ops, keep, places)
    ensures Sound(Run(h, ops, keep, places).conn, all, keep) && InTurn(Run(h, ops, keep, places))
    decreases |ops|
  {
    hide Sound, Step, InTurn, Record;
    if ops != [] {
      RecordConn(h, ops[0], keep, places);
      StepSound(h.conn, ops[0], all, keep, places);
      RecordInTurn(h, ops[0], keep, places);
      RunSound(Record(h, ops[0], keep, places), ops[1..], all, keep, places);
    }
  }

  lemma RecordConn(h: History, op: Op, keep: nat, places: nat)
    requires Legal(h.conn, op, places)
    ensures Record(h, op, keep, places).conn == Step(h.conn, op, keep, places)
  {}

  // ---------------------------------------------------------------------------
  // When a connection is closed
  // ---------------------------------------------------------------------------

  /** Only a connection given back is added to the closed ones, and only when nobody waits and `keep` are idle. */
  lemma StepCloses(s: Conn, op: Op, keep: nat, places: nat, x: nat)
    requires Legal(s, op, places) && x !in s.closed && x in Step(s, op, keep, places).closed
    ensures op == OpRecycle(x) && s.waiting == [] && |s.idle| >= keep
  {}

  /** A connection that is not closed and is closed after a run has been given back during it when nobody waited and
      `keep` others were idle. */
  lemma {:induction false} ClosedWhenKept(s: Conn, ops: seq<Op>, keep: nat, places: nat, x: nat) returns (i: nat)
    requires LegalRun(s, ops, keep, places) && x !in s.closed && x in After(s, ops, keep, places).closed
    ensures i < |ops| && LegalRun(s, ops[..i], keep, places) && ops[i] == OpRecycle(x)
    ensures var t := After(s, ops[..i], keep, places); x in t.used && t.waiting == [] && |t.idle| >= keep
    decreases |ops|
  {
    var t := Step(s, ops[0], keep, places);
    if x in t.closed {
      StepCloses(s, ops[0], keep, places, x);
      i := 0;
    } else {
      i := ClosedWhenKept(t, ops[1..], keep, places, x);
      assert ops[..i + 1][0] == ops[0] && ops[..i + 1][1..] == ops[1..][..i];
      i := i + 1;
    }
  }

  // ---------------------------------------------------------------------------
  // When a waiter gets its connection
  // ---------------------------------------------------------------------------

  /** What an operation stores in a slot: whether it is 0. */
  function StoreBy(s: Conn, op: Op, places: nat, slot: nat): Option<bool>
    requires Legal(s, op, places)
  {
    match op
    case OpWait(_, _) => if slot == s.next then Some(false) else None
    case OpRefuse => if slot == s.next && |s.waiting| < places then Some(true) else None
    case OpDeliver => if !Finds(s) && s.next > 0 && slot == s.next - 1 then Some(true) else None
    case _ => None
  }

  /** The last store into a slot during a run. */
  ghost function LastStore(s: Conn, ops: seq<Op>, keep: nat, places: nat, slot: nat): Option<bool>
    requires LegalRun(s, ops, keep, places)
    decreases |ops|
  {
    if ops == [] then None
    else
      match LastStore(Step(s, ops[0], keep, places), ops[1..], keep, places, slot)
      case Some(b) => Some(b)
      case None => StoreBy(s, ops[0], places, slot)
  }

  ghost function After(s: Conn, ops: seq<Op>, keep: nat, places: nat): Conn
    requires LegalRun(s, ops, keep, places)
    decreases |ops|
  {
    if ops == [] then s else After(Step(s, ops[0], keep, places), ops[1..], keep, places)
  }

  lemma {:induction false} ClearedIff(s: Conn, ops: seq<Op>, keep: nat, places: nat, slot: nat)
    requires LegalRun(s, ops, keep, places)
    ensures slot in After(s, ops, keep, places).cleared
       <==> match LastStore(s, ops, keep, places, slot) case Some(b) => b case None => slot in s.cleared
    decreases |ops|
  {
    if ops != [] {
      var t := Step(s, ops[0], keep, places);
      assert slot in t.cleared <==> match StoreBy(s, ops[0], places, slot) case Some(b) => b
          case None => slot in s.cleared;
      ClearedIff(t, ops[1..], keep, places, slot);
    }
  }

  /** A coroutine that has queued up and whose hand-over is run after `ops` returns its connection if and only if the
      last store into its slot meanwhile, if there was one, was not a 0: a registration refused there, or taken back
      there. */
  lemma WaiterServedIff(s: Conn, waiter: nat, top: nat, ops: seq<Op>, keep: nat, places: nat)
    requires Legal(s, OpWait(waiter, top), places)
    requires var t := Step(s, OpWait(waiter, top), keep, places);
             && LegalRun(t, ops, keep, places) && Legal(After(t, ops, keep, places), OpDeliver, places)
             && After(t, ops, keep, places).handed[0].0 == Ticket(waiter, s.next, top)
    ensures var t := Step(s, OpWait(waiter, top), keep, places);
            var e := After(t, ops, keep, places);
            Step(e, OpDeliver, keep, places).used == e.used + multiset{e.handed[0].1}
            <==> LastStore(t, ops, keep, places, s.next) != Some(true)
  {
    var t := Step(s, OpWait(waiter, top), keep, places);
    ClearedIff(t, ops, keep, places, s.next);
    var e := After(t, ops, keep, places);
    if !Finds(e) {
      assert e.used[e.handed[0].1] != (e.used + multiset{e.handed[0].1})[e.handed[0].1];
    }
  }

  ghost predicate Untouched(s: Conn) {
    && (forall k :: 0 <= k < |s.waiting| ==> s.waiting[k].slot !in s.cleared)
    && (forall k :: 0 <= k < |s.handed| ==> s.handed[k].0.slot !in s.cleared)
  }

  /** Registrations are refused only when the wait queue is full. */
  ghost predicate RefusedWhenFull(s: Conn, ops: seq<Op>, keep: nat, places: nat)
    requires LegalRun(s, ops, keep, places)
    decreases |ops|
  {
    ops == [] ||
    ((ops[0] == OpRefuse ==> |s.waiting| >= places) &&
     RefusedWhenFull(Step(s, ops[0], keep, places), ops[1..], keep, places))
  }

  /** While no registration is refused a place that was free, no connection is lost and no registration taken back. */
  lemma {:induction false} NothingLost(h: History, ops: seq<Op>, keep: nat, places: nat)
    requires LegalRun(h.conn, ops, keep, places) && Untouched(h.conn) && RefusedWhenFull(h.conn, ops, keep, places)
    ensures var e := Run(h, ops, keep, places);
            e.conn.lost == h.conn.lost && e.struck == h.struck && e.conn.broken == h.conn.broken
    decreases |ops|
  {
    if ops != [] {
      var t := Record(h, ops[0], keep, places);
      StepUntouched(h.conn, ops[0], keep, places);
      NothingLost(t, ops[1..], keep, places);
    }
  }

  lemma StepUntouched(s: Conn, op: Op, keep: nat, places: nat)
    requires Legal(s, op, places) && Untouched(s) && (op == OpRefuse ==> |s.waiting| >= places)
    ensures Untouched(Step(s, op, keep, places)) && Step(s, op, keep, places).lost == s.lost
    ensures Step(s, op, keep, places).broken == s.broken && (op == OpDeliver ==> Finds(s))
  {
    if op.OpRecycle? && s.waiting != [] {
      var t := Step(s, op, keep, places);
      assert forall k :: 0 <= k < |t.waiting| ==> t.waiting[k] == s.waiting[k + 1];
    }
  }

  /** The run of LostAtWrap: after `k` of its operations. */
  ghost function LostState(k: nat, x: nat, a: Ticket, d: Ticket): History {
    var s := Conn([], [], multiset{x}, [], [], 0, {}, multiset{}, false);
    var h := History(s, [], [], [], []);
    if k == 0 then h
    else if k == 1 then h.(conn := s.(waiting := [a], next := 1), queued := [a])
    else if k == 2 then h.(conn := s.(waiting := [a, d]), queued := [a, d])
    else
      var t := s.(used := multiset{}, handed := [(a, x)], waiting := [d]);
      if k == 3 then History(t, [a, d], [(a, x)], [], [])
      else if k == 4 then History(t.(cleared := {0}), [a, d], [(a, x)], [], [])
      else History(t.(cleared := {0}, handed := [], lost := multiset{x}, waiting := [],
                      next := 1), [a], [(a, x)], [false], [d])
  }

  function LostOp(k: nat, x: nat, a: Ticket, d: Ticket): Op {
    if k == 0 then OpWait(a.waiter, a.top)
    else if k == 1 then OpWait(d.waiter, d.top)
    else if k == 2 then OpRecycle(x)
    else if k == 3 then OpRefuse
    else OpDeliver
  }

  lemma LostStep(k: nat, x: nat, a: Ticket, d: Ticket, keep: nat)
    requires k < 5 && a.slot == 0 && d.slot == 1
    ensures Legal(LostState(k, x, a, d).conn, LostOp(k, x, a, d), 2)
    ensures Record(LostState(k, x, a, d), LostOp(k, x, a, d), keep, 2) == LostState(k + 1, x, a, d)
  {
    var h := LostState(k, x, a, d);
    if k == 1 {
      assert [a] + [d] == [a, d];
    } else if k == 2 {
      assert [a, d][1..] == [d] && multiset{x} - multiset{x} == multiset{};
    } else if k == 4 {
      assert [a, d][..1] == [a] && [d][..0] == [] && [(a, x)][1..] == [];
    }
  }

  lemma {:induction false} LostRun(k: nat, x: nat, a: Ticket, d: Ticket, keep: nat)
    requires k <= 5 && a.slot == 0 && d.slot == 1
    ensures var ops := seq(5 - k, i requires 0 <= i < 5 - k => LostOp(k + i, x, a, d));
            && LegalRun(LostState(k, x, a, d).conn, ops, keep, 2)
            && Run(LostState(k, x, a, d), ops, keep, 2) == LostState(5, x, a, d)
    decreases 5 - k
  {
    hide LostState, LostOp, Step, Record;
    if k < 5 {
      LostStep(k, x, a, d, keep);
      RecordConn(LostState(k, x, a, d), LostOp(k, x, a, d), keep, 2);
      LostRun(k + 1, x, a, d, keep);
      var ops := seq(5 - k, i requires 0 <= i < 5 - k => LostOp(k + i, x, a, d));
      assert ops[1..] == seq(5 - (k + 1), i requires 0 <= i < 5 - (k + 1) => LostOp(k + 1 + i, x, a, d));
    }
  }

  /** Two places, nothing to give, connection `x` in use. A and D wait; `x` goes to A; before A runs, a third coroutine
      is refused slot 0; A finds its slot at 0, takes D's registration back and returns nothing. */
  lemma LostAtWrap(x: nat, a: Ticket, d: Ticket, keep: nat)
    requires a.slot == 0 && d.slot == 1
    ensures var s := Conn([], [], multiset{x}, [], [], 0, {}, multiset{}, false);
            var ops := [OpWait(a.waiter, a.top), OpWait(d.waiter, d.top), OpRecycle(x), OpRefuse, OpDeliver];
            && LegalRun(s, ops, keep, 2)
            && var e := Run(History(s, [], [], [], []), ops, keep, 2);
               && e.conn.lost == multiset{x} && e.conn.used == multiset{} && e.conn.waiting == []
               && e.outcomes == [false] && e.struck == [d]
  {
    hide Run, LegalRun;
    LostRun(0, x, a, d, keep);
    var ops := [OpWait(a.waiter, a.top), OpWait(d.waiter, d.top), OpRecycle(x), OpRefuse, OpDeliver];
    assert ops == seq(5, i requires 0 <= i < 5 => LostOp(0 + i, x, a, d));
  }
}
