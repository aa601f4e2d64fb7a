/** What ties the connection pool's wait queue to the callback queue and to the saved frames of the coroutines that
    wait (src/util/hc_data.c, src/coroutine/co_network.c). Callback records are named by their indexes; None stands for
    NULL. */
module ConnLinks {
  import opened Options
  import opened Rings
  import opened EventLoop
  import opened ConnRuns

  /** The function pointer of hc_co_context_resume. */
  const RESUME: nat := 1

  /** The waiter whose record is named in `slot`. */
  function TicketOf(o: Option<nat>, slot: nat, recs: seq<CallBack>): Ticket {
    if o.Some? then Ticket(o.value, slot, Rec(recs, o.value).arg1) else Ticket(0, slot, 0)
  }

  ghost function Tickets(contents: seq<Option<nat>>, out: nat, max: nat, recs: seq<CallBack>): (t: seq<Ticket>)
    ensures |t| == |contents|
    ensures forall k :: 0 <= k < |t| ==> t[k] == TicketOf(contents[k], Wrap(out + k, max), recs)
  {
    seq(|contents|, k requires 0 <= k < |contents| => TicketOf(contents[k], Wrap(out + k, max), recs))
  }

  /** The slots that hold NULL. */
  ghost function Cleared(datas: seq<Option<nat>>): set<nat> {
    set i: nat | i < |datas| && datas[i] == None
  }

  lemma ClearedSet(datas: seq<Option<nat>>, i: nat, o: Option<nat>)
    requires i < |datas|
    ensures Cleared(datas[i := o]) == if o == None then Cleared(datas) + {i} else Cleared(datas) - {i}
  {}

  ghost function Ids(contents: seq<Option<nat>>): (ids: seq<nat>)
    ensures |ids| == |contents|
    ensures forall k :: 0 <= k < |ids| ==> ids[k] == if contents[k].Some? then contents[k].value else 0
  {
    seq(|contents|, k requires 0 <= k < |contents| => if contents[k].Some? then contents[k].value else 0)
  }

  /** Each waiter's slot names a borrowed record, a different one for each, that resumes a coroutine. */
  ghost predicate Armed(contents: seq<Option<nat>>, recs: seq<CallBack>, borrowed: multiset<nat>) {
    && (forall k :: 0 <= k < |contents| ==>
           contents[k].Some? && contents[k].value < |recs| && recs[contents[k].value].fun == RESUME)
    && multiset(Ids(contents)) <= borrowed
  }

  /** The saved frame of every coroutine that waits or is about to be resumed remembers its slot; no block is named
      twice. */
  ghost predicate Framed(all: seq<Ticket>, frames: map<nat, nat>, max: nat) {
    && (forall top :: top in frames ==> frames[top] < max)
    && (forall k :: 0 <= k < |all| ==> all[k].top in frames && frames[all[k].top] == all[k].slot)
    && (forall j, k :: 0 <= j < k < |all| ==> all[j].top != all[k].top)
  }

  predicate Mine(cb: CallBack, tops: set<nat>) {
    cb.fun == RESUME && cb.arg1 in tops
  }

  /** The callbacks that resume coroutines of this pool. */
  ghost function Ours(cbs: seq<CallBack>, tops: set<nat>): seq<CallBack> {
    if cbs == [] then [] else (if Mine(cbs[0], tops) then [cbs[0]] else []) + Ours(cbs[1..], tops)
  }

  ghost function Calls(handed: seq<(Ticket, nat)>): (c: seq<CallBack>)
    ensures |c| == |handed|
    ensures forall k :: 0 <= k < |c| ==> c[k] == CallBack(RESUME, handed[k].0.top, handed[k].1)
  {
    seq(|handed|, k requires 0 <= k < |handed| => CallBack(RESUME, handed[k].0.top, handed[k].1))
  }

  /** No coroutine is saved in block `top` yet, and none is scheduled to be resumed from it. */
  ghost predicate FreshTop(top: nat, frames: map<nat, nat>, cbs: seq<CallBack>) {
    top !in frames && forall k :: 0 <= k < |cbs| ==> !(cbs[k].fun == RESUME && cbs[k].arg1 == top)
  }

  lemma {:induction false} OursAppend(cbs: seq<CallBack>, cb: CallBack, tops: set<nat>)
    ensures Ours(cbs + [cb], tops) == Ours(cbs, tops) + if Mine(cb, tops) then [cb] else []
    decreases |cbs|
  {
    hide Mine;
    if cbs == [] {
      assert (cbs + [cb])[1..] == [];
    } else {
      assert (cbs + [cb])[1..] == cbs[1..] + [cb];
      OursAppend(cbs[1..], cb, tops);
      Reassociate(if Mine(cbs[0], tops) then [cbs[0]] else [], Ours(cbs[1..], tops),
                  if Mine(cb, tops) then [cb] else []);
    }
  }

  lemma {:induction false} OursPlus(cbs: seq<CallBack>, top: nat, tops: set<nat>)
    requires forall k :: 0 <= k < |cbs| ==> !(cbs[k].fun == RESUME && cbs[k].arg1 == top)
    ensures Ours(cbs, tops + {top}) == Ours(cbs, tops)
    decreases |cbs|
  {
    if cbs != [] {
      OursPlus(cbs[1..], top, tops);
    }
  }

  lemma {:induction false} OursMinus(cbs: seq<CallBack>, top: nat, tops: set<nat>)
    requires forall k :: 0 <= k < |Ours(cbs, tops)| ==> Ours(cbs, tops)[k].arg1 != top
    ensures Ours(cbs, tops - {top}) == Ours(cbs, tops)
    decreases |cbs|
  {
    if cbs != [] {
      var rest := Ours(cbs[1..], tops);
      if Mine(cbs[0], tops) {
        assert Ours(cbs, tops)[0] == cbs[0];
        assert forall k :: 0 <= k < |rest| ==> rest[k] == Ours(cbs, tops)[k + 1];
      } else {
        assert Ours(cbs, tops) == rest;
      }
      OursMinus(cbs[1..], top, tops);
    }
  }

  /** The wait queue, the callback queue, the saved frames and the hand-overs under way. */
  datatype Link = Link(contents: seq<Option<nat>>, out: nat, max: nat, recs: seq<CallBack>, borrowed: multiset<nat>,
                       frames: map<nat, nat>, handed: seq<(Ticket, nat)>, scheduled: seq<CallBack>)

  ghost function Waiters(l: Link): (t: seq<Ticket>)
    ensures |t| == |l.contents|
  {
    Tickets(l.contents, l.out, l.max, l.recs)
  }

  /** The resumptions scheduled are, in order, those of the hand-overs under way, each with its connection. */
  ghost predicate Coupled(l: Link) {
    && Armed(l.contents, l.recs, l.borrowed)
    && Framed(Firsts(l.handed) + Waiters(l), l.frames, l.max)
    && Ours(l.scheduled, l.frames.Keys) == Calls(l.handed)
  }

  lemma SameWaiters(l: Link, m: Link)
    requires m.contents == l.contents && m.out == l.out && m.max == l.max && m.recs == l.recs
    ensures Waiters(m) == Waiters(l)
  {}

  lemma IdsBorrowed(l: Link, k: nat)
    requires Armed(l.contents, l.recs, l.borrowed) && k < |l.contents|
    ensures l.contents[k].Some? && l.contents[k].value in l.borrowed
  {
    assert Ids(l.contents)[k] in multiset(Ids(l.contents));
  }

  /** Records that nobody waits with may change. */
  lemma OthersChanged(l: Link, recs: seq<CallBack>)
    requires Coupled(l) && |recs| == |l.recs|
    requires forall id :: 0 <= id < |recs| && id in l.borrowed ==> recs[id] == l.recs[id]
    ensures Coupled(l.(recs := recs)) && Waiters(l.(recs := recs)) == Waiters(l)
  {
    forall k | 0 <= k < |l.contents|
        ensures l.contents[k].Some? && recs[l.contents[k].value] == l.recs[l.contents[k].value] {
      IdsBorrowed(l, k);
    }
    assert Waiters(l.(recs := recs)) == Waiters(l);
  }

  lemma Enqueued(l: Link, id: nat, top: nat)
    requires Coupled(l) && |l.contents| < l.max && l.out < l.max && id !in l.borrowed && id < |l.recs|
    requires l.recs[id].fun == RESUME && l.recs[id].arg1 == top && FreshTop(top, l.frames, l.scheduled)
    ensures var slot := Wrap(l.out + |l.contents|, l.max);
            var m := l.(contents := l.contents + [Some(id)], borrowed := l.borrowed + multiset{id},
                        frames := l.frames[top := slot]);
            Coupled(m) && Waiters(m) == Waiters(l) + [Ticket(id, slot, top)]
  {
    hide Ours, Framed;
    var slot := Wrap(l.out + |l.contents|, l.max);
    var m := l.(contents := l.contents + [Some(id)], borrowed := l.borrowed + multiset{id},
                frames := l.frames[top := slot]);
    assert Ids(m.contents) == Ids(l.contents) + [id];
    var t := Ticket(id, slot, top);
    assert Waiters(m) == Waiters(l) + [t];
    assert Firsts(m.handed) + Waiters(m) == Firsts(l.handed) + Waiters(l) + [t];
    FramedMore(Firsts(l.handed) + Waiters(l), t, l.frames, l.max);
    assert m.frames.Keys == l.frames.Keys + {top};
    OursPlus(l.scheduled, top, l.frames.Keys);
  }

  lemma FramedMore(all: seq<Ticket>, t: Ticket, frames: map<nat, nat>, max: nat)
    requires Framed(all, frames, max) && t.top !in frames && t.slot < max
    ensures Framed(all + [t], frames[t.top := t.slot], max)
  {}

  /** The first waiter's record is queued with its connection. */
  ghost function HandOn(l: Link, item: nat): Link
    requires l.contents != [] && l.contents[0].Some? && l.contents[0].value < |l.recs|
  {
    var id := l.contents[0].value;
    l.(contents := l.contents[1..], out := if l.out + 1 == l.max then 0 else l.out + 1,
       recs := l.recs[id := l.recs[id].(arg2 := item)], borrowed := l.borrowed - multiset{id},
       handed := l.handed + [(Waiters(l)[0], item)], scheduled := l.scheduled + [l.recs[id].(arg2 := item)])
  }

  lemma HandedArmed(l: Link, item: nat)
    requires Coupled(l) && l.contents != []
    ensures l.contents[0].Some? && l.contents[0].value in l.borrowed && l.contents[0].value < |l.recs|
    ensures var m := HandOn(l, item); Armed(m.contents, m.recs, m.borrowed)
  {
    IdsBorrowed(l, 0);
    assert Ids(l.contents[1..]) == Ids(l.contents)[1..];
    BagTail(Ids(l.contents));
  }

  lemma HandedWaiters(l: Link, item: nat)
    requires Armed(l.contents, l.recs, l.borrowed) && l.contents != [] && |l.contents| <= l.max && l.out < l.max
    ensures Waiters(HandOn(l, item)) == Waiters(l)[1..]
  {}

  lemma HandedOver(l: Link, item: nat)
    requires Coupled(l) && l.contents != [] && |l.contents| <= l.max && l.out < l.max
    ensures l.contents[0].Some? && l.contents[0].value in l.borrowed && l.contents[0].value < |l.recs|
    ensures var m := HandOn(l, item);
            && Coupled(m) && Waiters(m) == Waiters(l)[1..]
            && m.scheduled == l.scheduled + [CallBack(RESUME, Waiters(l)[0].top, item)]
  {
    hide Armed, Framed, Ours, Calls, Firsts, Tickets;
    HandedArmed(l, item);
    HandedWaiters(l, item);
    HandedMoves(l.handed, Waiters(l), item);
    HandedCall(l, item);
  }

  /** The first waiter becomes the last hand-over. */
  lemma HandedMoves(handed: seq<(Ticket, nat)>, waiters: seq<Ticket>, item: nat)
    requires waiters != []
    ensures Firsts(handed + [(waiters[0], item)]) + waiters[1..] == Firsts(handed) + waiters
  {
    assert Firsts(handed + [(waiters[0], item)]) == Firsts(handed) + [waiters[0]];
  }

  lemma HandedCall(l: Link, item: nat)
    requires Coupled(l) && l.contents != []
    requires l.contents[0].Some? && l.contents[0].value < |l.recs|
    ensures var m := HandOn(l, item);
            var cb := CallBack(RESUME, Waiters(l)[0].top, item);
            m.scheduled == l.scheduled + [cb] && Ours(m.scheduled, l.frames.Keys) == Calls(m.handed)
  {
    hide Ours;
    var t := Waiters(l)[0];
    var cb := CallBack(RESUME, t.top, item);
    assert HandOn(l, item).scheduled == l.scheduled + [cb];
    assert (Firsts(l.handed) + Waiters(l))[|l.handed|] == t;
    OursAppend(l.scheduled, cb, l.frames.Keys);
    assert Calls(l.handed + [(t, item)]) == Calls(l.handed) + [cb];
  }

  /** The callback run is the oldest hand-over if it resumes a coroutine of the pool. */
  lemma Delivered(l: Link)
    requires Coupled(l) && l.scheduled != [] && Mine(l.scheduled[0], l.frames.Keys)
    ensures l.handed != [] && l.scheduled[0] == CallBack(RESUME, l.handed[0].0.top, l.handed[0].1)
    ensures l.frames[l.handed[0].0.top] == l.handed[0].0.slot < l.max
    ensures var m := l.(handed := l.handed[1..], scheduled := l.scheduled[1..],
        frames := l.frames - {l.handed[0].0.top});
            Coupled(m) && Waiters(m) == Waiters(l) == Waiters(l.(scheduled := l.scheduled[1..]))
  {
    var tops := l.frames.Keys;
    assert Ours(l.scheduled, tops) == [l.scheduled[0]] + Ours(l.scheduled[1..], tops);
    assert Calls(l.handed)[0] == l.scheduled[0];
    var t := l.handed[0].0;
    var all := Firsts(l.handed) + Waiters(l);
    assert all[0] == t;
    var m := l.(handed := l.handed[1..], scheduled := l.scheduled[1..], frames := l.frames - {t.top});
    assert Ours(m.scheduled, tops) == Calls(l.handed)[1..] == Calls(m.handed);
    assert Firsts(m.handed) + Waiters(m) == all[1..];
    forall k | 0 <= k < |m.handed| ensures Calls(m.handed)[k].arg1 != t.top {
      assert all[k + 1] == l.handed[k + 1].0;
    }
    OursMinus(m.scheduled, t.top, tops);
    assert m.frames.Keys == tops - {t.top};
  }

  /** The callback run belongs to somebody else. */
  lemma OtherRun(l: Link)
    requires Coupled(l) && l.scheduled != [] && !Mine(l.scheduled[0], l.frames.Keys)
    ensures Coupled(l.(scheduled := l.scheduled[1..])) && Waiters(l.(scheduled := l.scheduled[1..])) == Waiters(l)
  {
    assert Ours(l.scheduled, l.frames.Keys) == Ours(l.scheduled[1..], l.frames.Keys);
  }

  lemma OtherAdded(l: Link, recs: seq<CallBack>, cb: CallBack)
    requires Coupled(l) && !Mine(cb, l.frames.Keys) && |recs| == |l.recs|
    requires forall id :: 0 <= id < |recs| && id in l.borrowed ==> recs[id] == l.recs[id]
    ensures var m := l.(recs := recs, scheduled := l.scheduled + [cb]); Coupled(m) && Waiters(m) == Waiters(l)
  {
    OthersChanged(l, recs);
    OursAppend(l.scheduled, cb, l.frames.Keys);
  }

  /** The registration made last is taken back. */
  lemma Struck(l: Link)
    requires Coupled(l) && l.contents != []
    ensures var m := l.(contents := l.contents[..|l.contents| - 1]);
            Coupled(m) && Waiters(m) == Waiters(l)[..|l.contents| - 1]
  {
    var n := |l.contents| - 1;
    var m := l.(contents := l.contents[..n]);
    assert Ids(l.contents) == Ids(m.contents) + [Ids(l.contents)[n]];
    BagAppend(Ids(m.contents), Ids(l.contents)[n]);
    assert Waiters(m) == Waiters(l)[..n];
    assert Firsts(m.handed) + Waiters(m) == (Firsts(l.handed) + Waiters(l))[..|l.handed| + n];
  }

  lemma {:induction false} NoneOurs(cbs: seq<CallBack>)
    ensures Ours(cbs, {}) == []
    decreases |cbs|
  {
    if cbs != [] {
      NoneOurs(cbs[1..]);
    }
  }

  lemma FreshCoupled(max: nat, recs: seq<CallBack>, borrowed: multiset<nat>, scheduled: seq<CallBack>)
    ensures var l := Link([], 0, max, recs, borrowed, map[], [], scheduled); Coupled(l) && Waiters(l) == []
  {
    NoneOurs(scheduled);
    var frames: map<nat, nat> := map[];
    assert frames.Keys == {};
    assert Ids([]) == [];
  }
}
