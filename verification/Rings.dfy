/** The rings of src/util/hc_data.c: a bounded queue, and the recycle queue that keeps its free list, its borrowed
    records and its pending queue in one array. */
module Rings {

  import opened Options

  /** An index that has run off the end of the array continues at its start. */
  function Wrap(i: nat, max: nat): nat {
    if i >= max then i - max else i
  }

  /** `len` elements of the ring from `start` on. */
  ghost function Cyc<T>(a: seq<T>, start: nat, len: nat): (s: seq<T>)
    requires start < |a| && len <= |a|
    ensures |s| == len
    ensures forall i :: 0 <= i < len ==> s[i] == a[Wrap(start + i, |a|)]
  {
    seq(len, i requires 0 <= i < len => a[Wrap(start + i, |a|)])
  }

  /** Position `p` is none of the `len` positions from `start` on. */
  predicate Outside(max: nat, start: nat, len: nat, p: nat) {
    if start + len <= max then p < start || start + len <= p else start + len - max <= p < start
  }

  lemma CycSetOutside<T>(a: seq<T>, start: nat, len: nat, p: nat, x: T)
    requires start < |a| && len <= |a| && p < |a| && Outside(|a|, start, len, p)
    ensures Cyc(a[p := x], start, len) == Cyc(a, start, len)
  {}

  lemma CycTail<T>(a: seq<T>, start: nat, len: nat)
    requires start < |a| && 0 < len <= |a|
    ensures Cyc(a, start, len)[1..] == Cyc(a, Wrap(start + 1, |a|), len - 1)
    ensures Cyc(a, start, len)[0] == a[start]
  {}

  lemma CycGrow<T>(a: seq<T>, start: nat, len: nat)
    requires start < |a| && len < |a|
    ensures Cyc(a, start, len + 1) == Cyc(a, start, len) + [a[Wrap(start + len, |a|)]]
  {}

  lemma CycPush<T>(a: seq<T>, start: nat, len: nat)
    requires 0 < start < |a| && len < |a|
    ensures Cyc(a, start - 1, len + 1) == [a[start - 1]] + Cyc(a, start, len)
  {}

  lemma CycPushLast<T>(a: seq<T>, len: nat)
    requires len < |a|
    ensures Cyc(a, |a| - 1, len + 1) == [a[|a| - 1]] + Cyc(a, 0, len)
  {}

  lemma BagTail<T>(s: seq<T>)
    requires s != []
    ensures multiset(s) == multiset{s[0]} + multiset(s[1..])
  {
    assert s == [s[0]] + s[1..];
  }

  lemma BagAppend<T>(s: seq<T>, x: T)
    ensures multiset(s + [x]) == multiset(s) + multiset{x}
  {}

  lemma BagPrepend<T>(s: seq<T>, x: T)
    ensures multiset([x] + s) == multiset(s) + multiset{x}
  {}

  /** Every record is pending, free or borrowed, and none is in two places. */
  ghost predicate Parted<T>(pending: seq<T>, free: seq<T>, borrowed: multiset<T>, all: multiset<T>) {
    multiset(pending) + multiset(free) + borrowed == all
  }

  lemma PartedGet<T>(pending: seq<T>, free: seq<T>, borrowed: multiset<T>, all: multiset<T>)
    requires Parted(pending, free, borrowed, all) && free != []
    ensures Parted(pending, free[1..], borrowed + multiset{free[0]}, all)
    ensures |borrowed + multiset{free[0]}| == |borrowed| + 1
  {
    BagTail(free);
  }

  lemma PartedIn<T>(pending: seq<T>, free: seq<T>, borrowed: multiset<T>, all: multiset<T>, x: T)
    requires Parted(pending, free, borrowed, all) && x in borrowed
    ensures Parted(pending + [x], free, borrowed - multiset{x}, all)
    ensures |borrowed - multiset{x}| == |borrowed| - 1
  {
    BagAppend(pending, x);
  }

  lemma PartedOut<T>(pending: seq<T>, free: seq<T>, borrowed: multiset<T>, all: multiset<T>)
    requires Parted(pending, free, borrowed, all) && pending != []
    ensures Parted(pending[1..], free + [pending[0]], borrowed, all)
  {
    BagTail(pending);
    BagAppend(free, pending[0]);
  }

  lemma CountLost<T>(pending: multiset<T>, free: multiset<T>, borrowed: multiset<T>, data: T, x: T)
    requires data in borrowed && x != data
    ensures pending + (free + multiset{x}) + (borrowed - multiset{data}) != pending + free + borrowed
  {
    assert (pending + (free + multiset{x}) + (borrowed - multiset{data}))[data]
        == (pending + free + borrowed)[data] - 1;
  }

  lemma PartedCancelIff<T>(pending: seq<T>, free: seq<T>, borrowed: multiset<T>, all: multiset<T>, data: T, x: T)
    requires Parted(pending, free, borrowed, all) && data in borrowed
    ensures Parted(pending, [x] + free, borrowed - multiset{data}, all) <==> x == data
    ensures |borrowed - multiset{data}| == |borrowed| - 1
  {
    BagPrepend(free, x);
    if x != data {
      CountLost(multiset(pending), multiset(free), borrowed, data, x);
    }
  }

  /** The cursors of a recycle queue whose array splits cyclically into pending [out, in), `held` holes
      [in, re_out) and free [re_out, out). */
  ghost predicate Split(max: nat, reLen: nat, reOut: nat, len: nat, inI: nat, outI: nat, held: nat) {
    && outI < max && reOut < max && len + reLen + held == max
    && inI == Wrap(outI + len, max) && outI == Wrap(reOut + reLen, max)
  }

  lemma SplitIn<T>(a: seq<T>, reLen: nat, reOut: nat, len: nat, inI: nat, outI: nat, held: nat, x: T)
    requires Split(|a|, reLen, reOut, len, inI, outI, held) && held > 0
    ensures inI < |a| && len + 1 <= |a|
    ensures Split(|a|, reLen, reOut, len + 1, if inI + 1 >= |a| then 0 else inI + 1, outI, held - 1)
    ensures Cyc(a[inI := x], outI, len + 1) == Cyc(a, outI, len) + [x]
    ensures Cyc(a[inI := x], reOut, reLen) == Cyc(a, reOut, reLen)
  {
    hide Cyc;
    CycSetOutside(a, outI, len, inI, x);
    CycSetOutside(a, reOut, reLen, inI, x);
    CycGrow(a[inI := x], outI, len);
  }

  lemma SplitOut<T>(a: seq<T>, reLen: nat, reOut: nat, len: nat, inI: nat, outI: nat, held: nat)
    requires Split(|a|, reLen, reOut, len, inI, outI, held) && len > 0
    ensures outI < |a| && reOut < |a| && reLen + 1 <= |a|
    ensures Split(|a|, reLen + 1, reOut, len - 1, inI, if outI + 1 == |a| then 0 else outI + 1, held)
    ensures Cyc(a, if outI + 1 == |a| then 0 else outI + 1, len - 1) == Cyc(a, outI, len)[1..]
    ensures Cyc(a, outI, len)[0] == a[outI]
    ensures Cyc(a, reOut, reLen + 1) == Cyc(a, reOut, reLen) + [a[outI]]
  {
    hide Cyc;
    CycTail(a, outI, len);
    CycGrow(a, reOut, reLen);
  }

  lemma SplitGet<T>(a: seq<T>, reLen: nat, reOut: nat, len: nat, inI: nat, outI: nat, held: nat)
    requires Split(|a|, reLen, reOut, len, inI, outI, held) && reLen > 0
    ensures Split(|a|, reLen - 1, if reOut + 1 == |a| then 0 else reOut + 1, len, inI, outI, held + 1)
    ensures Cyc(a, if reOut + 1 == |a| then 0 else reOut + 1, reLen - 1) == Cyc(a, reOut, reLen)[1..]
    ensures Cyc(a, reOut, reLen)[0] == a[reOut]
  {
    hide Cyc;
    CycTail(a, reOut, reLen);
  }

  lemma SplitCancel<T>(a: seq<T>, reLen: nat, reOut: nat, len: nat, inI: nat, outI: nat, held: nat, x: T)
    requires Split(|a|, reLen, reOut, len, inI, outI, held) && held > 0
    ensures outI < |a| && reOut < |a| && len + reLen + 1 <= |a|
    ensures Split(|a|, reLen + 1, if reOut > 0 then reOut - 1 else |a| - 1, len, inI, outI, held - 1)
    ensures reOut > 0 ==> Cyc(a[reOut - 1 := x], outI, len) == Cyc(a, outI, len)
    ensures reOut > 0 ==> Cyc(a[reOut - 1 := x], reOut - 1, reLen + 1) == [x] + Cyc(a, reOut, reLen)
    ensures reOut == 0 ==> Cyc(a, |a| - 1, reLen + 1) == [a[|a| - 1]] + Cyc(a, 0, reLen)
  {
    hide Cyc;
    if reOut > 0 {
      CycSetOutside(a, outI, len, reOut - 1, x);
      CycSetOutside(a, reOut, reLen, reOut - 1, x);
      CycPush(a[reOut - 1 := x], reOut, reLen);
    } else {
      CycPushLast(a, reLen);
    }
  }

  /** The array once a borrowed record has been given back. */
  function Refill<T>(a: seq<T>, reOut: nat, data: T): (b: seq<T>)
    ensures |b| == |a|
  {
    if 0 < reOut < |a| then a[reOut - 1 := data] else a
  }

  lemma GivenBack<T>(a: seq<T>, reLen: nat, reOut: nat, len: nat, inI: nat, outI: nat, borrowed: multiset<T>,
                     all: multiset<T>, data: T)
    requires Split(|a|, reLen, reOut, len, inI, outI, |borrowed|) && data in borrowed
    requires Parted(Cyc(a, outI, len), Cyc(a, reOut, reLen), borrowed, all)
    ensures reOut < |a| && outI < |a| && reLen + 1 <= |a|
    ensures var b := Refill(a, reOut, data);
            var x := if reOut > 0 then data else a[|a| - 1];
            var re := if reOut > 0 then reOut - 1 else |a| - 1;
            && Cyc(b, outI, len) == Cyc(a, outI, len) && Cyc(b, re, reLen + 1) == [x] + Cyc(a, reOut, reLen)
            && Split(|a|, reLen + 1, re, len, inI, outI, |borrowed - multiset{data}|)
            && (Parted(Cyc(a, outI, len), [x] + Cyc(a, reOut, reLen), borrowed - multiset{data}, all)
                <==> reOut > 0 || a[|a| - 1] == data)
  {
    hide Cyc, Parted, Wrap, Split;
    SplitCancel(a, reLen, reOut, len, inI, outI, |borrowed|, data);
    var x := if reOut > 0 then data else a[|a| - 1];
    PartedCancelIff(Cyc(a, outI, len), Cyc(a, reOut, reLen), borrowed, all, data, x);
  }

  // ---------------------------------------------------------------------------
  // HC_Queue
  // ---------------------------------------------------------------------------

  class Queue<T(0)> {
    var curLen: int
    var inIndex: nat
    var outIndex: nat
    const max: nat
    const datas: array<T>
    /** The word in front of the array, which is no part of it. */
    var before: T

    ghost predicate Valid()
      reads this, datas
    {
      && datas.Length == max && outIndex < max && 0 <= curLen <= max
      && inIndex == Wrap(outIndex + curLen, max)
    }

    ghost function Contents(): seq<T>
      requires Valid()
      reads this, datas
    {
      Cyc(datas[..], outIndex, curLen)
    }

    constructor (max: nat)
      requires max > 0
      ensures Valid() && Contents() == [] && this.max == max && fresh(datas) && inIndex == 0 && outIndex == 0
    {
      this.max := max;
      datas := new T[max];
      curLen, inIndex, outIndex := 0, 0, 0;
    }

    /** hc_queue_init_datas on a fresh queue: it starts full. */
    method InitDatas(values: seq<T>)
      requires Valid() && inIndex == 0 && outIndex == 0 && |values| == max
      modifies this`curLen, datas
      ensures Valid() && Contents() == values
    {
      curLen := max;
      forall i | 0 <= i < max {
        datas[i] := values[i];
      }
      assert Cyc(datas[..], 0, max) == values;
    }

    /** The slot the element went into, or -1 when the queue is full. */
    method In(data: T) returns (index: int)
      requires Valid()
      modifies this`curLen, this`inIndex, datas
      ensures Valid()
      ensures |old(Contents())| == max ==> index == -1 && Contents() == old(Contents()) && datas[..] == old(datas[..])
                                           && inIndex == old(inIndex)
      ensures |old(Contents())| < max ==>
                && Contents() == old(Contents()) + [data]
                && 0 <= index < max
                && index == old(inIndex)
                                          && datas[..] == old(datas[..])[index := data]
                                          && inIndex == Wrap(index + 1, max)
    {
      if curLen == max {
        return -1;
      }
      CycSetOutside(datas[..], outIndex, curLen, inIndex, data);
      var top := inIndex;
      index := top;
      curLen := curLen + 1;
      datas[top] := data;
      top := top + 1;
      if top >= max {
        top := 0;
      }
      inIndex := top;
      CycGrow(datas[..], outIndex, curLen - 1);
    }

    /** A store into the slot of the element queued last. */
    method PatchLast(index: nat, data: T)
      requires Valid() && Contents() != [] && index == Wrap(outIndex + curLen - 1, max)
      modifies datas
      ensures Valid() && Contents() == old(Contents())[..|old(Contents())| - 1] + [data]
      ensures datas[..] == old(datas[..])[index := data]
    {
      CycGrow(datas[..], outIndex, curLen - 1);
      CycSetOutside(datas[..], outIndex, curLen - 1, index, data);
      datas[index] := data;
      CycGrow(datas[..], outIndex, curLen - 1);
    }

    method Out() returns (r: Option<T>)
      requires Valid()
      modifies this`curLen, this`outIndex
      ensures Valid()
      ensures old(Contents()) == [] ==> r == None && unchanged(this)
      ensures old(Contents()) != [] ==> r == Some(old(Contents())[0]) && Contents() == old(Contents())[1..]
                                        && outIndex == if old(outIndex) + 1 == max then 0 else old(outIndex) + 1
    {
      if curLen == 0 {
        return None;
      }
      CycTail(datas[..], outIndex, curLen);
      var top := outIndex;
      r := Some(datas[top]);
      top := top + 1;
      curLen := curLen - 1;
      if top == max {
        top := 0;
      }
      outIndex := top;
    }

    /** Takes back the element queued last. The index is wrapped only after the store: when the next slot is slot 0,
        the store goes in front of the array and the slot taken back keeps what it held. An empty queue gets a
        negative length. */
    method CancelIn(data: T)
      requires Valid()
      modifies this`curLen, this`inIndex, this`before, datas
      ensures curLen == old(curLen) - 1 && (Valid() <==> old(Contents()) != [])
      ensures old(Contents()) != [] ==> Contents() == old(Contents())[..|old(Contents())| - 1]
      ensures inIndex == if old(inIndex) > 0 then old(inIndex) - 1 else max - 1
      ensures datas[..] == if old(inIndex) > 0 then old(datas[..])[old(inIndex) - 1 := data] else old(datas[..])
      ensures before == if old(inIndex) > 0 then old(before) else data
    {
      ghost var was := datas[..];
      if curLen > 0 {
        CycGrow(was, outIndex, curLen - 1);
        if inIndex > 0 {
          CycSetOutside(was, outIndex, curLen - 1, inIndex - 1, data);
        }
      }
      var top: int := inIndex;
      curLen := curLen - 1;
      top := top - 1;
      if 0 > top {
        before := data;
        top := max - 1;
      } else {
        datas[top] := data;
      }
      inIndex := top;
    }

    /** How far slot `index` is behind the head. */
    function Distance(index: nat): nat
      requires Valid() && index < max
      reads this, datas
    {
      if index >= outIndex then index - outIndex else index + max - outIndex
    }

    /** hc_queue_drop_by_index: the head takes the place of what is queued in slot `index` and is returned; nothing is
        returned when that is the head itself or the queue is empty. A slot that holds nothing queued swallows the
        head. */
    method DropByIndex(index: nat) returns (r: Option<T>)
      requires Valid() && index < max
      modifies this`curLen, this`outIndex, datas
      ensures Valid()
      ensures old(Contents()) == [] ==> r == None && Contents() == []
      ensures old(Contents()) != [] ==>
                && r == (if index == old(outIndex) then None else Some(old(Contents())[0]))
                && Contents() == (if old(Distance(index)) < |old(Contents())|
                                  then old(Contents())[old(Distance(index)) := old(Contents())[0]][1..]
                                  else old(Contents())[1..])
    {
      if 0 == curLen {
        return None;
      }
      var top := outIndex;
      if index != top {
        r := Some(datas[top]);
        datas[index] := datas[top];
      } else {
        r := None;
      }
      top := top + 1;
      curLen := curLen - 1;
      if top == max {
        top := 0;
      }
      outIndex := top;
    }
  }

  // ---------------------------------------------------------------------------
  // HC_RecycleQueue
  // ---------------------------------------------------------------------------

  class RecycleQueue<T(0,==)> {
    var reCurLen: nat
    var reOutIndex: nat
    var curLen: nat
    var inIndex: nat
    var outIndex: nat
    const max: nat
    const datas: array<T>
    /** The word in front of the array, which is no part of it. */
    var before: T
    /** Records handed out and not yet queued. */
    ghost var borrowed: multiset<T>
    ghost const all: multiset<T>

    /** The array splits cyclically into pending [out, in), borrowed holes [in, re_out) and free [re_out, out). */
    ghost predicate Shape()
      reads this, datas
    {
      datas.Length == max && Split(max, reCurLen, reOutIndex, curLen, inIndex, outIndex, |borrowed|)
    }

    ghost predicate Valid()
      reads this, datas
    {
      && Shape()
      && Parted(Cyc(datas[..], outIndex, curLen), Cyc(datas[..], reOutIndex, reCurLen), borrowed, all)
    }

    ghost function Pending(): seq<T>
      requires Shape()
      reads this, datas
    {
      Cyc(datas[..], outIndex, curLen)
    }

    ghost function FreeList(): seq<T>
      requires Shape()
      reads this, datas
    {
      Cyc(datas[..], reOutIndex, reCurLen)
    }

    constructor (records: seq<T>)
      requires |records| > 0
      ensures Valid() && Pending() == [] && FreeList() == records && borrowed == multiset{}
      ensures all == multiset(records) && fresh(datas)
    {
      max := |records|;
      datas := new T[|records|](i requires 0 <= i < |records| => records[i]);
      reCurLen, reOutIndex, curLen, inIndex, outIndex := |records|, 0, 0, 0, 0;
      borrowed := multiset{};
      all := multiset(records);
      new;
      assert Cyc(datas[..], 0, |records|) == records;
    }

    method GetData() returns (r: Option<T>)
      requires Valid()
      modifies this`reCurLen, this`reOutIndex, this`borrowed
      ensures Valid() && Pending() == old(Pending())
      ensures old(FreeList()) == [] ==> r == None && unchanged(this)
      ensures old(FreeList()) != [] ==> r == Some(old(FreeList())[0]) && FreeList() == old(FreeList())[1..]
                                        && borrowed == old(borrowed) + multiset{r.value}
                                        && r.value == datas[old(reOutIndex)]
                                        && reOutIndex == if old(reOutIndex) + 1 == max then 0 else old(reOutIndex) + 1
    {
      hide Cyc, Parted, Wrap;
      if reCurLen == 0 {
        return None;
      }
      SplitGet(datas[..], reCurLen, reOutIndex, curLen, inIndex, outIndex, |borrowed|);
      PartedGet(Pending(), FreeList(), borrowed, all);
      var top := reOutIndex;
      r := Some(datas[top]);
      top := top + 1;
      reCurLen := reCurLen - 1;
      if top == max {
        top := 0;
      }
      reOutIndex := top;
      borrowed := borrowed + multiset{r.value};
    }

    method In(data: T)
      requires Valid() && data in borrowed
      modifies this`curLen, this`inIndex, this`borrowed, datas
      ensures Valid() && FreeList() == old(FreeList())
      ensures Pending() == old(Pending()) + [data] && borrowed == old(borrowed) - multiset{data}
    {
      hide Cyc, Parted, Wrap, Split;
      ghost var more, less := Queued(data), borrowed - multiset{data};
      var top := inIndex;
      curLen := curLen + 1;
      datas[top] := data;
      assert datas[..] == old(datas[..])[top := data];
      top := top + 1;
      if top >= max {
        top := 0;
      }
      inIndex := top;
      borrowed := less;
      assert Pending() == more;
    }

    /** What the queue holds once a borrowed record has been queued. */
    ghost function Queued(data: T): (more: seq<T>)
      requires Valid() && data in borrowed
      reads this, datas
      ensures more == Pending() + [data] && inIndex < max && curLen + 1 <= max
      ensures var a := datas[..][inIndex := data];
              && Cyc(a, outIndex, curLen + 1) == more && Cyc(a, reOutIndex, reCurLen) == FreeList()
              && Split(max, reCurLen, reOutIndex, curLen + 1, if inIndex + 1 >= max then 0 else inIndex + 1, outIndex,
                       |borrowed - multiset{data}|)
              && Parted(more, FreeList(), borrowed - multiset{data}, all)
    {
      hide Cyc, Parted, Wrap, Split;
      PartedIn(Pending(), FreeList(), borrowed, all, data);
      SplitIn(datas[..], reCurLen, reOutIndex, curLen, inIndex, outIndex, |borrowed|, data);
      Pending() + [data]
    }

    method Out() returns (r: Option<T>)
      requires Valid()
      modifies this`curLen, this`outIndex, this`reCurLen
      ensures Valid() && borrowed == old(borrowed)
      ensures old(Pending()) == [] ==> r == None && Pending() == [] && FreeList() == old(FreeList())
      ensures old(Pending()) != [] ==> r == Some(old(Pending())[0]) && Pending() == old(Pending())[1..]
                                       && FreeList() == old(FreeList()) + [r.value]
    {
      hide Cyc, Parted, Wrap, Split;
      if curLen == 0 {
        return None;
      }
      SplitOut(datas[..], reCurLen, reOutIndex, curLen, inIndex, outIndex, |borrowed|);
      PartedOut(Pending(), FreeList(), borrowed, all);
      var top := outIndex;
      r := Some(datas[top]);
      top := top + 1;
      curLen := curLen - 1;
      reCurLen := reCurLen + 1;
      if top == max {
        top := 0;
      }
      outIndex := top;
    }

    /** Whether giving back `data` stores it where the free list then begins. The index is wrapped only after the store:
        with a free list that begins at slot 0 the store goes in front of the array. */
    predicate GivesBack(data: T)
      requires datas.Length == max > 0
      reads this, datas
    {
      reOutIndex > 0 || datas[max - 1] == data
    }

    /** Gives a borrowed record back to the front of the free list, which then begins with the record given back or,
        when the store missed the array, with what the last slot holds; the partition of all records survives exactly
        when that is the same record. */
    method CancelData(data: T)
      requires Valid() && data in borrowed
      modifies this`reCurLen, this`reOutIndex, this`borrowed, this`before, datas
      ensures Shape() && Pending() == old(Pending()) && borrowed == old(borrowed) - multiset{data}
      ensures FreeList() == [if old(reOutIndex) > 0 then data else old(datas[max - 1])] + old(FreeList())
      ensures Valid() <==> old(GivesBack(data))
      ensures reOutIndex == if old(reOutIndex) > 0 then old(reOutIndex) - 1 else max - 1
      ensures before == if old(reOutIndex) > 0 then old(before) else data
    {
      hide Cyc, Parted, Wrap, Split;
      ghost var now, less := Refill(datas[..], reOutIndex, data), borrowed - multiset{data};
      GivenBack(datas[..], reCurLen, reOutIndex, curLen, inIndex, outIndex, borrowed, all, data);
      var top: int := reOutIndex - 1;
      if 0 > top {
        before := data;
      } else {
        datas[top] := data;
      }
      reCurLen := reCurLen + 1;
      if 0 > top {
        top := max - 1;
      }
      reOutIndex := top;
      borrowed := less;
      assert datas[..] == now;
    }
  }
}
