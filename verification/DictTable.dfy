/** The slot table of src/util/hc_dict.c as a value: primary slots, and overflow slots chained by index.
    A key is named by the position of its text in the key log; later keys have larger positions. */
module DictTable {
  import opened Bytes
  import opened DictHash

  type Key = seq<byte>

  /** HC_DictItem: 0 means "no key" and "no next slot". */
  datatype Slot = Slot(keyIndex: nat, nxt: nat, data: nat)

  const EMPTY := Slot(0, 0, 0)

  datatype Ref = Primary(h: nat) | Overflow(n: nat)

  datatype Table = Table(bit: nat, items: seq<Slot>, nxtItems: seq<Slot>, top: nat) {
    predicate Has(r: Ref) {
      match r
      case Primary(h) => h < |items|
      case Overflow(n) => 1 <= n < top && n < |nxtItems|
    }

    function At(r: Ref): Slot
      requires Has(r)
    {
      match r
      case Primary(h) => items[h]
      case Overflow(n) => nxtItems[n]
    }

    function Put(r: Ref, s: Slot): (t: Table)
      requires Has(r)
      ensures t.Has(r) && t.At(r) == s
    {
      match r
      case Primary(h) => this.(items := items[h := s])
      case Overflow(n) => this.(nxtItems := nxtItems[n := s])
    }
  }

  type Texts = map<nat, Key>

  /** No key of bucket `h` lies strictly between the two log positions; `hi` of 0 means the end of the log. */
  ghost predicate NoneBetween(bit: nat, texts: Texts, h: nat, lo: nat, hi: nat)
    requires bit >= 1
  {
    forall r :: r in texts && lo < r && (hi == 0 || r < hi) ==> Hash(bit, texts[r]) != h
  }

  /** A slot that holds the key at `p`: its next slot holds the next key of the same bucket, if there is one. */
  ghost predicate Chained(t: Table, texts: Texts, p: nat, n: nat)
    requires t.bit >= 1
  {
    && p in texts
    && n < t.top <= |t.nxtItems|
    && var q := if n == 0 then 0 else t.nxtItems[n].keyIndex;
       && NoneBetween(t.bit, texts, Hash(t.bit, texts[p]), p, q)
       && (n != 0 ==> p < q && q in texts && Hash(t.bit, texts[q]) == Hash(t.bit, texts[p]))
  }

  ghost predicate Head(t: Table, texts: Texts, h: nat)
    requires t.bit >= 1 && h < |t.items|
  {
    var s := t.items[h];
    && NoneBetween(t.bit, texts, h, 0, s.keyIndex)
    && if s.keyIndex == 0 then s == EMPTY
           else Chained(t, texts, s.keyIndex, s.nxt) && Hash(t.bit, texts[s.keyIndex]) == h
  }

  /** The links of the table say, bucket by bucket, exactly which keys are in the log and in which order. */
  ghost predicate Linked(t: Table, texts: Texts) {
    && t.bit >= 1 && |t.items| == |t.nxtItems| == Pow2(t.bit) && 1 <= t.top <= |t.nxtItems|
    && 0 !in texts
    && (forall h :: 0 <= h < |t.items| ==> Head(t, texts, h))
    && (forall n :: 1 <= n < t.top ==> Chained(t, texts, t.nxtItems[n].keyIndex, t.nxtItems[n].nxt))
    && (forall n :: t.top <= n < |t.nxtItems| ==> t.nxtItems[n] == EMPTY)
  }

  /** Where a new key of bucket `h` is hung: the bucket's empty primary slot, or its last slot. */
  ghost predicate Tail(t: Table, texts: Texts, h: nat, last: Ref)
    requires t.bit >= 1
  {
    && t.Has(last)
    && var s := t.At(last);
       && s.nxt == 0
       && if s.keyIndex == 0 then last == Primary(h) else s.keyIndex in texts && Hash(t.bit, texts[s.keyIndex]) == h
  }

  /** The new key takes the empty primary slot, or the next unused overflow slot, linked behind `last`. */
  function Target(t: Table, last: Ref): Ref
    requires t.Has(last)
  {
    if t.At(last).keyIndex == 0 then last else Overflow(t.top)
  }

  function Insert(t: Table, last: Ref, p: nat, data: nat): (r: Table)
    requires t.Has(last)
    requires t.At(last).keyIndex != 0 ==> 1 <= t.top < |t.nxtItems|
    ensures r.bit == t.bit && |r.items| == |t.items| && |r.nxtItems| == |t.nxtItems|
  {
    var s := t.At(last);
    if s.keyIndex == 0 then t.Put(last, Slot(p, 0, data))
    else
      var linked := t.Put(last, s.(nxt := t.top));
      linked.(nxtItems := linked.nxtItems[t.top := Slot(p, 0, data)], top := t.top + 1)
  }

  /** No key sits in two slots. */
  ghost predicate OneSlot(t: Table) {
    forall a, b {:trigger t.At(a), t.At(b)} ::
        t.Has(a) && t.Has(b) && t.At(a).keyIndex == t.At(b).keyIndex != 0 ==> a == b
  }

  lemma BetweenKept(bit: nat, texts: Texts, h: nat, lo: nat, hi: nat, p: nat, key: Key)
    requires bit >= 1 && NoneBetween(bit, texts, h, lo, hi)
    requires Hash(bit, key) != h || (hi != 0 && hi <= p) || p <= lo
    ensures NoneBetween(bit, texts[p := key], h, lo, hi)
  {}

  /** A slot other than the tail of the new key's bucket stays chained. */
  lemma ChainedKept(t: Table, texts: Texts, last: Ref, p: nat, key: Key, data: nat, q: nat, n: nat)
    requires t.bit >= 1 && t.Has(last) && Chained(t, texts, q, n)
    requires t.At(last).keyIndex != 0 ==> 1 <= t.top < |t.nxtItems|
    requires p > 0 && forall r :: r in texts ==> r < p
    requires n != 0 || Hash(t.bit, texts[q]) != Hash(t.bit, key)
    ensures Chained(Insert(t, last, p, data), texts[p := key], q, n)
  {
    hide Hash;
    var u := Insert(t, last, p, data);
    assert n != 0 ==> u.nxtItems[n].keyIndex == t.nxtItems[n].keyIndex;
    BetweenKept(t.bit, texts, Hash(t.bit, texts[q]), q, if n == 0 then 0 else t.nxtItems[n].keyIndex, p, key);
  }

  /** Only the tail of a bucket has no next slot. */
  lemma TailUnique(t: Table, texts: Texts, h: nat, last: Ref, r: Ref)
    requires t.bit >= 1 && OneSlot(t) && Tail(t, texts, h, last) && t.At(last).keyIndex != 0
    requires t.Has(r) && Chained(t, texts, t.At(r).keyIndex, 0) && Hash(t.bit, texts[t.At(r).keyIndex]) == h
    requires Chained(t, texts, t.At(last).keyIndex, 0) && 0 !in texts
    ensures r == last
  {
    hide Hash;
    var a, b := t.At(r).keyIndex, t.At(last).keyIndex;
    assert a == b;
  }

  lemma SlotChained(t: Table, texts: Texts, r: Ref)
    requires Linked(t, texts) && t.Has(r) && t.At(r).keyIndex != 0
    ensures Chained(t, texts, t.At(r).keyIndex, t.At(r).nxt)
  {
    if r.Primary? {
      assert Head(t, texts, r.h);
    }
  }

  /** The old tail is now chained to the new key, which is its bucket's last. */
  lemma ChainedTail(t: Table, texts: Texts, h: nat, last: Ref, p: nat, key: Key, data: nat)
    requires Linked(t, texts) && Tail(t, texts, h, last) && Hash(t.bit, key) == h
    requires t.At(last).keyIndex != 0 ==> t.top < |t.nxtItems|
    requires p > 0 && forall r :: r in texts ==> r < p
    ensures Chained(Insert(t, last, p, data), texts[p := key], p, 0)
    ensures t.At(last).keyIndex != 0 ==> Chained(Insert(t, last, p, data), texts[p := key], t.At(last).keyIndex, t.top)
  {
    hide Hash;
    if t.At(last).keyIndex != 0 {
      SlotChained(t, texts, last);
      BetweenKept(t.bit, texts, h, t.At(last).keyIndex, p, p, key);
    }
  }

  lemma InsertHeads(t: Table, texts: Texts, h: nat, last: Ref, p: nat, key: Key, data: nat, i: nat)
    requires Linked(t, texts) && OneSlot(t) && Tail(t, texts, h, last) && Hash(t.bit, key) == h
    requires t.At(last).keyIndex != 0 ==> t.top < |t.nxtItems|
    requires p > 0 && forall r :: r in texts ==> r < p
    requires i < |t.items|
    ensures Head(Insert(t, last, p, data), texts[p := key], i)
  {
    hide Hash, OneSlot;
    var s := t.items[i];
    assert Head(t, texts, i);
    ChainedTail(t, texts, h, last, p, key, data);
    if s.keyIndex == 0 {
      BetweenKept(t.bit, texts, i, 0, if i == h then p else 0, p, key);
    } else {
      BetweenKept(t.bit, texts, i, 0, s.keyIndex, p, key);
      InsertSlots(t, texts, h, last, p, key, data, Primary(i));
    }
  }

  lemma InsertSlots(t: Table, texts: Texts, h: nat, last: Ref, p: nat, key: Key, data: nat, r: Ref)
    requires Linked(t, texts) && OneSlot(t) && Tail(t, texts, h, last) && Hash(t.bit, key) == h
    requires t.At(last).keyIndex != 0 ==> t.top < |t.nxtItems|
    requires p > 0 && forall r :: r in texts ==> r < p
    requires t.Has(r) && t.At(r).keyIndex != 0
    ensures var u := Insert(t, last, p, data);
            u.Has(r) && u.At(r).keyIndex == t.At(r).keyIndex &&
                Chained(u, texts[p := key], u.At(r).keyIndex, u.At(r).nxt)
  {
    hide Hash, OneSlot;
    var s := t.At(r);
    SlotChained(t, texts, r);
    ChainedTail(t, texts, h, last, p, key, data);
    if t.At(last).keyIndex != 0 {
      SlotChained(t, texts, last);
    } else {
      assert Head(t, texts, last.h);
    }
    if r != last {
      if s.nxt == 0 && Hash(t.bit, texts[s.keyIndex]) == h {
        if t.At(last).keyIndex != 0 {
          TailUnique(t, texts, h, last, r);
        }
        assert false;
      }
      ChainedKept(t, texts, last, p, key, data, s.keyIndex, s.nxt);
    }
  }

  /** Insert, field by field. */
  lemma InsertShape(t: Table, last: Ref, p: nat, data: nat)
    requires t.Has(last)
    requires t.At(last).keyIndex != 0 ==> 1 <= t.top < |t.nxtItems|
    ensures var s, u := t.At(last), Insert(t, last, p, data);
      if s.keyIndex == 0 then
        && u.top == t.top
        && u.items == (if last.Primary? then t.items[last.h := Slot(p, 0, data)] else t.items)
        && u.nxtItems == (if last.Overflow? then t.nxtItems[last.n := Slot(p, 0, data)] else t.nxtItems)
      else
        && u.top == t.top + 1
        && u.items == (if last.Primary? then t.items[last.h := s.(nxt := t.top)] else t.items)
        && u.nxtItems == (if last.Overflow? then t.nxtItems[last.n := s.(nxt := t.top)]
               else t.nxtItems)[t.top := Slot(p, 0, data)]
  {}

  lemma TailShape(t: Table, texts: Texts, h: nat, last: Ref)
    requires Linked(t, texts) && Tail(t, texts, h, last)
    ensures t.Has(last) && (t.At(last).keyIndex == 0 ==> last == Primary(h))
    ensures 1 <= t.top
  {
    hide Hash, Pow2;
  }

  lemma InsertLinked(t: Table, texts: Texts, h: nat, last: Ref, p: nat, key: Key, data: nat)
    requires Linked(t, texts) && OneSlot(t) && Tail(t, texts, h, last) && Hash(t.bit, key) == h
    requires t.At(last).keyIndex != 0 ==> t.top < |t.nxtItems|
    requires p > 0 && forall r :: r in texts ==> r < p
    ensures Linked(Insert(t, last, p, data), texts[p := key])
  {
    hide Hash, OneSlot, Pow2;
    var u := Insert(t, last, p, data);
    var more := texts[p := key];
    forall i | 0 <= i < |u.items| ensures Head(u, more, i) {
      InsertHeads(t, texts, h, last, p, key, data, i);
    }
    forall n | 1 <= n < u.top ensures Chained(u, more, u.nxtItems[n].keyIndex, u.nxtItems[n].nxt) {
      if n < t.top {
        assert t.At(Overflow(n)) == t.nxtItems[n];
        assert Chained(t, texts, t.nxtItems[n].keyIndex, t.nxtItems[n].nxt);
        InsertSlots(t, texts, h, last, p, key, data, Overflow(n));
      } else {
        ChainedTail(t, texts, h, last, p, key, data);
      }
    }
  }

  lemma InsertOneSlot(t: Table, texts: Texts, last: Ref, p: nat, data: nat)
    requires Linked(t, texts) && OneSlot(t) && t.Has(last)
    requires t.At(last).keyIndex != 0 ==> t.top < |t.nxtItems|
    requires p > 0 && forall r :: r in texts ==> r < p
    ensures OneSlot(Insert(t, last, p, data))
  {
    hide Hash, Pow2, Head, Chained;
    var u := Insert(t, last, p, data);
    forall a, b | u.Has(a) && u.Has(b) && u.At(a).keyIndex == u.At(b).keyIndex != 0 ensures a == b {
      InsertedKeys(t, texts, last, p, data, a);
      InsertedKeys(t, texts, last, p, data, b);
    }
  }

  /** Only the target slot holds the new key; every other slot holds the key and the data it had. */
  lemma InsertedKeys(t: Table, texts: Texts, last: Ref, p: nat, data: nat, r: Ref)
    requires Linked(t, texts) && t.Has(last)
    requires t.At(last).keyIndex != 0 ==> t.top < |t.nxtItems|
    requires p > 0 && forall r :: r in texts ==> r < p
    ensures var u := Insert(t, last, p, data);
            && u.Has(Target(t, last)) && u.At(Target(t, last)) == Slot(p, 0, data)
            && (u.Has(r) && r != Target(t, last) ==>
                   t.Has(r) && u.At(r).keyIndex == t.At(r).keyIndex < p && u.At(r).data == t.At(r).data)
            && (t.Has(r) ==> u.Has(r))
  {
    hide Hash, Pow2;
    if t.Has(r) && t.At(r).keyIndex != 0 {
      SlotChained(t, texts, r);
    }
  }

  // ---------------------------------------------------------------------------
  // Walking a bucket
  // ---------------------------------------------------------------------------

  /** The key is none of the bucket's keys up to log position `p`. */
  ghost predicate Passed(bit: nat, texts: Texts, key: Key, p: nat)
    requires bit >= 1
  {
    forall r :: r in texts && r <= p && Hash(bit, texts[r]) == Hash(bit, key) ==> texts[r] != key
  }

  lemma EmptyBucket(t: Table, texts: Texts, key: Key, h: nat)
    requires t.bit >= 1 && h == Hash(t.bit, key) && h < |t.items|
    requires Head(t, texts, h) && 0 !in texts && t.items[h].keyIndex == 0
    ensures forall r :: r in texts ==> texts[r] != key
  {
    hide Hash;
  }

  lemma FirstOfBucket(t: Table, texts: Texts, key: Key, h: nat)
    requires t.bit >= 1 && h == Hash(t.bit, key) && h < |t.items|
    requires Head(t, texts, h) && 0 !in texts && t.items[h].keyIndex != 0
    ensures texts[t.items[h].keyIndex] != key ==> Passed(t.bit, texts, key, t.items[h].keyIndex)
    ensures forall r :: r in texts && texts[r] == key ==> t.items[h].keyIndex <= r
  {
    hide Hash;
  }

  lemma PassedStep(t: Table, texts: Texts, key: Key, p: nat, n: nat)
    requires t.bit >= 1 && Chained(t, texts, p, n) && Hash(t.bit, texts[p]) == Hash(t.bit, key)
    requires Passed(t.bit, texts, key, p)
    ensures n == 0 ==> forall r :: r in texts ==> texts[r] != key
    ensures n != 0 && texts[t.nxtItems[n].keyIndex] != key ==> Passed(t.bit, texts, key, t.nxtItems[n].keyIndex)
  {
    hide Hash;
  }

  /** The key's own slot, or the slot a new key of its bucket is hung on. Texts are read from the key log, of
      which the table may so far know only the part `texts`. */
  method FindSlot(items: array<Slot>, nxtItems: array<Slot>, bit: nat, ghost top: nat, log: Texts, ghost texts: Texts,
                  ghost limit: nat, key: Key)
    returns (found: bool, ref: Ref)
    requires Linked(Table(bit, items[..], nxtItems[..], top), texts)
    requires forall r :: r in texts ==> r < limit && r in log && log[r] == texts[r]
    ensures var t := Table(bit, items[..], nxtItems[..], top);
      && t.Has(ref)
      && (found ==> t.At(ref).keyIndex in texts && texts[t.At(ref).keyIndex] == key)
      && (!found ==> Tail(t, texts, Hash(bit, key), ref) && forall r :: r in texts ==> texts[r] != key)
  {
    hide Hash, Pow2, Passed, NoneBetween;
    ghost var t := Table(bit, items[..], nxtItems[..], top);
    var h := KeyToIndex(bit, items.Length, key);
    ref := Primary(h);
    var s := items[h];
    assert Head(t, texts, h);
    if s.keyIndex == 0 {
      EmptyBucket(t, texts, key, h);
      return false, ref;
    }
    FirstOfBucket(t, texts, key, h);
    while true
      invariant t == Table(bit, items[..], nxtItems[..], top) && t.Has(ref) && s == t.At(ref)
      invariant s.keyIndex != 0 && Chained(t, texts, s.keyIndex, s.nxt)
      invariant Hash(bit, texts[s.keyIndex]) == Hash(bit, key)
      invariant texts[s.keyIndex] != key ==> Passed(bit, texts, key, s.keyIndex)
      decreases limit - s.keyIndex
    {
      if log[s.keyIndex] == key {
        return true, ref;
      }
      PassedStep(t, texts, key, s.keyIndex, s.nxt);
      if s.nxt == 0 {
        return false, ref;
      }
      ref := Overflow(s.nxt);
      s := nxtItems[s.nxt];
      SlotChained(t, texts, ref);
    }
  }

  /** The slot that holds the key logged at `p`, by walking its bucket. */
  method FindPosition(items: array<Slot>, nxtItems: array<Slot>, bit: nat, ghost top: nat, ghost texts: Texts, p: nat,
                      key: Key)
    returns (ref: Ref)
    requires Linked(Table(bit, items[..], nxtItems[..], top), texts)
    requires p in texts && texts[p] == key
    ensures var t := Table(bit, items[..], nxtItems[..], top); t.Has(ref) && t.At(ref).keyIndex == p
  {
    hide Hash, Pow2;
    ghost var t := Table(bit, items[..], nxtItems[..], top);
    var h := KeyToIndex(bit, items.Length, key);
    ref := Primary(h);
    var s := items[h];
    assert Head(t, texts, h);
    if s.keyIndex == 0 {
      EmptyBucket(t, texts, key, h);
    }
    FirstOfBucket(t, texts, key, h);
    while s.keyIndex != p
      invariant t == Table(bit, items[..], nxtItems[..], top) && t.Has(ref) && s == t.At(ref)
      invariant s.keyIndex in texts && s.keyIndex <= p
      invariant Chained(t, texts, s.keyIndex, s.nxt) && Hash(bit, texts[s.keyIndex]) == Hash(bit, key)
      decreases p - s.keyIndex
    {
      ref := Overflow(s.nxt);
      s := nxtItems[s.nxt];
      SlotChained(t, texts, ref);
    }
  }
}
