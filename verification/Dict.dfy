/** The hash dictionary of src/util/hc_dict.c: a class that refines a finite map. The key log and the data log are
    kept as records by byte position; the arithmetic on positions and capacities is the original's. */
module Dict {
  import opened Bytes
  import opened DictHash
  import opened DictTable
  import opened DictLog

  /** The capacity of a HC_MemBuf after hc_membuf_check_size. */
  function Grown(len: nat, max: int, extra: int): int {
    if len + extra > max then 2 * (len + extra) else max
  }

  /** The buffer hc_membuf_init gives a table of `size` slots: the byte count is formed in 32 bits and handed over as a
      signed int, and nothing can be allocated for a negative one. */
  function FirstCapacity(size: nat): int {
    var n := size * 20 % 0x1_0000_0000;
    if n < 0x8000_0000 then n else -1
  }

  /** Which requested sizes get a table with buffers. */
  predicate Creatable(sizeA: nat) {
    sizeA < 0x400_0000 || 0x800_0000 <= sizeA < 0x1000_0000 || 0x2000_0000 <= sizeA < 0x8000_0000
  }

  lemma {:induction false} Pow2Grows(a: nat, b: nat)
    requires a < b
    ensures 2 * Pow2(a) <= Pow2(b)
    decreases b
  {
    if a + 1 < b {
      Pow2Grows(a, b - 1);
    }
  }

  lemma Pow2Values()
    ensures Pow2(26) == 0x400_0000 && Pow2(27) == 0x800_0000 && Pow2(28) == 0x1000_0000 && Pow2(29) == 0x2000_0000
    ensures Pow2(5) == 32 && Pow2(30) == 0x4000_0000 && Pow2(31) == 0x8000_0000 && Pow2(32) == 0x1_0000_0000
  {
    assert Pow2(5) == 32;
    assert Pow2(10) == 1024;
    assert Pow2(15) == 0x8000;
    assert Pow2(20) == 0x10_0000;
    assert Pow2(25) == 0x200_0000;
  }

  /** The table has its size, and its buffers exist, exactly for these requests. */
  lemma CreatableIff(sizeA: nat, b: nat)
    requires sizeA < 0x1_0000_0000 && b >= 5
    requires if sizeA <= 32 then b == 5 else sizeA < Pow2(b) <= 2 * sizeA
    ensures sizeA <= Pow2(b)
    ensures Creatable(sizeA) <==> Pow2(b) < 0x1_0000_0000 && FirstCapacity(Pow2(b)) >= 0
  {
    hide Pow2;
    Pow2Values();
    if b < 26 { Pow2Grows(b, 26); }
    if b > 32 { Pow2Grows(32, b); }
    Pow2Grows(5, 26);
  }

  class Dictionary {
    const numeric: bool
    var bit: nat
    var itemNum: nat
    var nxtTop: nat
    var size: nat
    var items: array<Slot>
    var nxtItems: array<Slot>
    var heads: Heads
    var texts: Texts
    var keyTop: nat
    /** The capacity of the key buffer, -1 for none. */
    var keyMax: int
    var cells: Cells
    var dataTop: nat
    var dataMax: int
    ghost var order: seq<nat>
    ghost var pos: map<Key, nat>

    ghost function T(): Table
      reads this, items, nxtItems
    {
      Table(bit, items[..], nxtItems[..], nxtTop)
    }

    /** Everything but the load of the table. */
    ghost predicate Sound()
      reads this, items, nxtItems
    {
      && items != nxtItems && items.Length == nxtItems.Length == size
      && bit >= 1 && Consistent(T(), heads, texts, order, pos, keyTop) && keyTop <= keyMax
      && (numeric || CellsOk(T(), heads, texts, cells, dataTop, dataMax))
    }

    ghost predicate Valid()
      reads this, items, nxtItems
    {
      && Sound()
      && bit >= 5 && size == Pow2(bit)
      && itemNum == |order| && 2 * itemNum <= size && 9 * itemNum <= keyTop
      && nxtTop <= (if itemNum == 0 then 1 else itemNum)
    }

    ghost function ValueAt(p: nat): Value
      reads this, items, nxtItems
    {
      ValueOf(numeric, SlotData(T(), heads, p), cells)
    }

    /** The map the dictionary stands for. */
    ghost function Contents(): map<Key, Value>
      reads this, items, nxtItems
    {
      map k | k in pos :: ValueAt(pos[k])
    }

    /** The keys in the order in which they were first stored. */
    ghost function KeyOrder(): seq<Key>
      reads this
    {
      KeysInOrder(order, texts)
    }

    /** Hangs a new key on a table: into the empty primary slot, or into the next overflow slot. */
    static method LinkKey(items: array<Slot>, nxtItems: array<Slot>, ghost bit: nat, top: nat, last: DictTable.Ref,
                          p: nat, data: nat)
      returns (r: DictTable.Ref, newTop: nat)
      requires items != nxtItems && Table(bit, items[..], nxtItems[..], top).Has(last)
      requires Table(bit, items[..], nxtItems[..], top).At(last).keyIndex != 0 ==> 1 <= top < nxtItems.Length
      modifies items, nxtItems
      ensures var t := old(Table(bit, items[..], nxtItems[..], top));
              Table(bit, items[..], nxtItems[..], newTop) == Insert(t, last, p, data) && r == Target(t, last)
    {
      hide Insert;
      InsertShape(Table(bit, items[..], nxtItems[..], top), last, p, data);
      r, newTop := last, top;
      var was := ReadSlot(items, nxtItems, last);
      if was.keyIndex != 0 {
        WriteSlot(items, nxtItems, last, was.(nxt := top));
        r := Overflow(top);
        newTop := top + 1;
      }
      WriteSlot(items, nxtItems, r, Slot(p, 0, data));
    }

    /** The growth code's ints can hold four times the bytes a key of `len` bytes needs. */
    ghost predicate KeyRoom(len: nat)
      reads this`keyTop
    {
      keyTop + KEY_HEAD + len + 1 < LOG_LIMIT
    }

    /** The same for `len` bytes of data; a numeric dictionary has no data log. */
    ghost predicate DataRoom(len: nat)
      reads this`dataTop
    {
      numeric || dataTop + DATA_HEAD + len + 1 < LOG_LIMIT
    }

    /** Room in the key buffer for a header, `len` bytes and the closing zero. */
    method GrowKeys(len: nat)
      requires keyTop <= keyMax && KeyRoom(len)
      modifies this`keyMax
      ensures keyTop + KEY_HEAD + len + 1 <= keyMax && old(keyMax) <= keyMax
      ensures keyMax == old(keyMax) || keyMax < 4 * LOG_LIMIT
    {
      var need := len + 1 + KEY_HEAD + keyTop;
      if need > keyMax {
        keyMax := Grown(keyTop, keyMax, need + need - keyMax);
      }
    }

    /** Links a new key behind `last` and writes it at the end of the key log, where there is room for it. */
    method LogKey(last: DictTable.Ref, key: Key, kind: nat) returns (r: DictTable.Ref)
      requires Consistent(T(), heads, texts, order, pos, keyTop) && bit >= 1
      requires items != nxtItems && nxtItems.Length == size && key !in pos && |key| <= MAX_KEY
      requires Tail(T(), texts, Hash(bit, key), last) && nxtTop < size
      modifies this`heads, this`texts, this`keyTop, this`nxtTop, this`order, this`pos, items, nxtItems
      ensures Consistent(T(), heads, texts, order, pos, keyTop)
      ensures var p := old(keyTop) + KEY_HEAD;
        && p !in old(texts) && texts == old(texts)[p := key] && order == old(order) + [p] && pos == old(pos)[key := p]
        && T().Has(r) && T().At(r).keyIndex == p && SlotData(T(), heads, p) == 0
        && (forall q :: q in old(texts) ==> SlotData(T(), heads, q) == old(SlotData(T(), heads, q)))
      ensures keyTop == old(keyTop) + KEY_HEAD + |key| + 1
      ensures nxtTop == if old(T().At(last)).keyIndex == 0 then old(nxtTop) else old(nxtTop) + 1
    {
      hide Hash, Consistent, Tail, Insert, SlotData, Target;
      ghost var t, at := T(), keyTop + KEY_HEAD;
      ConsistentTail(t, heads, texts, order, pos, keyTop, last, key);
      InsertShape(t, last, at, 0);
      var newTop;
      r, newTop := LinkKey(items, nxtItems, bit, nxtTop, last, keyTop + KEY_HEAD, 0);
      var head := KeyHead(kind, r.Overflow?, if r.Overflow? then r.n else r.h);
      AddKeyConsistent(t, heads, texts, order, pos, keyTop, last, key, 0, head);
      heads, texts, order, pos := heads[keyTop + KEY_HEAD := head], texts[keyTop + KEY_HEAD := key], order + [at],
          pos[key := at];
      keyTop, nxtTop := keyTop + KEY_HEAD + |key| + 1, newTop;
    }

    method AddKey(last: DictTable.Ref, key: Key, kind: nat) returns (r: DictTable.Ref)
      requires Consistent(T(), heads, texts, order, pos, keyTop) && keyTop <= keyMax && bit >= 1
      requires items != nxtItems && nxtItems.Length == size && key !in pos && |key| <= MAX_KEY && KeyRoom(|key|)
      requires Tail(T(), texts, Hash(bit, key), last) && nxtTop < size
      modifies this`heads, this`texts, this`keyTop, this`keyMax, this`nxtTop, this`order, this`pos, items, nxtItems
      ensures Consistent(T(), heads, texts, order, pos, keyTop) && keyTop <= keyMax
      ensures var p := old(keyTop) + KEY_HEAD;
        && p !in old(texts) && texts == old(texts)[p := key] && order == old(order) + [p] && pos == old(pos)[key := p]
        && T().Has(r) && T().At(r).keyIndex == p && SlotData(T(), heads, p) == 0
        && (forall q :: q in old(texts) ==> SlotData(T(), heads, q) == old(SlotData(T(), heads, q)))
      ensures keyTop == old(keyTop) + KEY_HEAD + |key| + 1
      ensures nxtTop == if old(T().At(last)).keyIndex == 0 then old(nxtTop) else old(nxtTop) + 1
    {
      hide Hash, Consistent, Tail, SlotData;
      ConsistentTail(T(), heads, texts, order, pos, keyTop, last, key);
      GrowKeys(|key|);
      r := LogKey(last, key, kind);
    }

    /** Room in the data buffer for a header, `len` bytes and the closing zero. */
    method GrowData(len: nat)
      requires dataTop <= dataMax && !numeric && DataRoom(len)
      modifies this`dataMax
      ensures dataTop + DATA_HEAD + len + 1 <= dataMax && old(dataMax) <= dataMax
      ensures dataMax == old(dataMax) || dataMax < 4 * LOG_LIMIT
    {
      var need := len + dataTop + DATA_HEAD + 1;
      if need > dataMax {
        dataMax := Grown(dataTop, dataMax, need + need - dataTop);
      }
    }

    method PutSlotData(r: DictTable.Ref, d: nat)
      requires items != nxtItems && T().Has(r)
      modifies items, nxtItems
      ensures T() == PutData(old(T()), r, d)
    {
      var s := ReadSlot(items, nxtItems, r);
      WriteSlot(items, nxtItems, r, s.(data := d));
    }

    /** A numeric dictionary keeps the number in the slot itself. */
    method SetNumber(r: DictTable.Ref, ghost p: nat, d: nat)
      requires Sound() && numeric && T().Has(r) && T().At(r).keyIndex == p && p in texts
      modifies items, nxtItems
      ensures Sound() && ValueAt(p) == Number(d)
      ensures forall q :: q in texts && q != p ==> ValueAt(q) == old(ValueAt(q))
    {
      hide Consistent, SlotData, CellsOk, PutData;
      PutDataConsistent(T(), heads, texts, order, pos, keyTop, r, p, d);
      PutSlotData(r, d);
    }

    /** A new data record, where there is room for it. */
    method PlaceCell(r: DictTable.Ref, ghost p: nat, c: Cell)
      requires Sound() && !numeric && T().Has(r) && T().At(r).keyIndex == p && p in texts
      requires |c.bytes| <= c.maxLen && dataTop + DATA_HEAD + c.maxLen + 1 <= dataMax
      modifies this`cells, this`dataTop, items, nxtItems
      ensures Sound() && ValueAt(p) == Stored(c.kind, c.bytes)
      ensures forall q :: q in texts && q != p ==> ValueAt(q) == old(ValueAt(q))
      ensures dataTop == old(dataTop) + DATA_HEAD + c.maxLen + 1
    {
      hide Consistent, SlotData, CellsOk, PutData, OneSlot, Placed, ValueOf;
      CellAdded(T(), heads, texts, order, pos, keyTop, cells, dataTop, dataMax, r, p, c);
      PutSlotData(r, dataTop + DATA_HEAD);
      cells, dataTop := cells[dataTop + DATA_HEAD := c], dataTop + DATA_HEAD + c.maxLen + 1;
    }

    method AppendCell(r: DictTable.Ref, ghost p: nat, c: Cell)
      requires Sound() && !numeric && T().Has(r) && T().At(r).keyIndex == p && p in texts
      requires |c.bytes| <= c.maxLen && DataRoom(c.maxLen)
      modifies this`cells, this`dataTop, this`dataMax, items, nxtItems
      ensures Sound() && ValueAt(p) == Stored(c.kind, c.bytes)
      ensures forall q :: q in texts && q != p ==> ValueAt(q) == old(ValueAt(q))
      ensures dataTop == old(dataTop) + DATA_HEAD + c.maxLen + 1
    {
      hide Consistent, SlotData, CellsOk, ValueOf;
      CellsTop(T(), heads, texts, cells, dataTop, dataMax);
      ghost var max := dataMax;
      GrowData(c.maxLen);
      CellsRoom(T(), heads, texts, cells, dataTop, max, dataMax);
      PlaceCell(r, p, c);
    }

    method ReuseCell(ghost p: nat, d: nat, kind: nat, bytes: seq<byte>)
      requires Sound() && !numeric && p in texts && d == SlotData(T(), heads, p) != 0 && d in cells
      requires |bytes| <= cells[d].maxLen
      modifies this`cells
      ensures Sound() && ValueAt(p) == Stored(kind, bytes)
      ensures forall q :: q in texts && q != p ==> ValueAt(q) == old(ValueAt(q))
    {
      hide Consistent, SlotData, CellsOk, ValueOf;
      var c := Cell(kind, bytes, cells[d].maxLen);
      CellReused(T(), heads, texts, cells, dataTop, dataMax, p, c);
      cells := cells[d := c];
    }

    /** Stores a datum under the key at log position `p`, whose slot is `r`. */
    method SetData(r: DictTable.Ref, ghost p: nat, x: Datum, kind: nat)
      requires Sound() && T().Has(r) && T().At(r).keyIndex == p && p in texts
      requires Storable(numeric, x, kind) && DataRoom(Length(x))
      modifies this`cells, this`dataTop, this`dataMax, items, nxtItems
      ensures Sound()
      ensures ValueAt(p) == Stores(numeric, old(ValueAt(p)), x, kind)
      ensures forall q :: q in texts && q != p ==> ValueAt(q) == old(ValueAt(q))
    {
      hide Consistent, SlotData, CellsOk, PutData;
      PutDataConsistent(T(), heads, texts, order, pos, keyTop, r, p, 0);
      if numeric {
        SetNumber(r, p, U64(x.v));
        return;
      }
      var s := ReadSlot(items, nxtItems, r);
      var d := s.data;
      CellInUse(T(), heads, texts, cells, dataTop, dataMax, p);
      if x != Null(0) {
        if d < 1 || cells[d].maxLen < Length(x) {
          AppendCell(r, p, Cell(kind, Content(x), Length(x)));
        } else {
          ReuseCell(p, d, kind, Content(x));
        }
      } else if d > 0 {
        ReuseCell(p, d, kind, []);
      }
    }

    /** One key of the log hung on the new table with the data it has in the old one. */
    method MoveKey(newItems: array<Slot>, newNxt: array<Slot>, newBit: nat, newTop: nat, newHeads: Heads,
                   ghost done: Texts,
                   ghost donePos: map<Key, nat>, ghost i: nat, cur: nat, ghost was: Table, ghost wasHeads: Heads)
      returns (head: KeyHead, top: nat)
      requires Consistent(T(), heads, texts, order, pos, keyTop) && was == T() && wasHeads == heads
      requires newItems != newNxt && newItems != items && newItems != nxtItems && newNxt != items && newNxt != nxtItems
      requires newBit >= 1 && i < |order| <= newNxt.Length && cur == order[i]
      requires Rebuilt(Table(newBit, newItems[..], newNxt[..], newTop), newHeads, done, donePos, order, texts, i, cur,
          was, wasHeads)
      modifies newItems, newNxt
      ensures cur in texts
      ensures Rebuilt(Table(newBit, newItems[..], newNxt[..], top), newHeads[cur := head], done[cur := texts[cur]],
          donePos[texts[cur] := cur],
                      order, texts, i + 1, cur + |texts[cur]| + 1 + KEY_HEAD, was, wasHeads)
    {
      hide Hash, Pow2, Consistent, Rebuilt, SlotData, Tail, LogOk, Inverse, Insert, Linked, OneSlot, Placed;
      ghost var t := Table(newBit, newItems[..], newNxt[..], newTop);
      ConsistentParts(was, heads, texts, order, pos, keyTop);
      RebuildNext(t, newHeads, done, donePos, order, texts, pos, keyTop, i, cur, was, wasHeads);
      RebuildParts(t, newHeads, done, donePos, order, texts, i, cur, was, wasHeads);
      var key := texts[cur];
      var found, last := FindSlot(newItems, newNxt, newBit, newTop, texts, done, cur, key);
      NotYetMoved(t, newHeads, done, donePos, order, texts, i, cur, was, wasHeads, key);
      RebuildRoom(t, newHeads, done, donePos, order, texts, i, cur, was, wasHeads, Hash(newBit, key), last);
      var old_ := FindPosition(items, nxtItems, bit, nxtTop, texts, cur, key);
      SlotOfKey(was, heads, texts, old_, cur);
      var data := ReadSlot(items, nxtItems, old_).data;
      var r;
      r, top := LinkKey(newItems, newNxt, newBit, newTop, last, cur, data);
      head := KeyHead(if cur in newHeads then newHeads[cur].kind else 0, r.Overflow?, if r.Overflow? then r.n else r.h);
      RebuildStep(t, newHeads, done, donePos, order, texts, pos, keyTop, i, cur, was, wasHeads, last, data, head);
    }

    /** The walk over the key log that fills the new slots. */
    method Rebuild(newItems: array<Slot>, newNxt: array<Slot>, newSize: nat, newBit: nat)
      returns (newHeads: Heads, newTop: nat, num: nat)
      requires Consistent(T(), heads, texts, order, pos, keyTop)
      requires newItems != newNxt && newItems != items && newItems != nxtItems && newNxt != items && newNxt != nxtItems
      requires newBit >= 1 && newItems.Length == newNxt.Length == newSize == Pow2(newBit) && |order| <= newSize
      requires forall k :: 0 <= k < newSize ==> newItems[k] == EMPTY && newNxt[k] == EMPTY
      modifies newItems, newNxt
      ensures var t := Table(newBit, newItems[..], newNxt[..], newTop);
        && Consistent(t, newHeads, texts, order, pos, keyTop)
        && forall q :: q in texts ==> SlotData(t, newHeads, q) == SlotData(T(), heads, q)
      ensures num == |order| && newTop <= (if num == 0 then 1 else num)
    {
      hide Hash, Pow2, Consistent, Rebuilt, SlotData, LogOk, Inverse, Linked, OneSlot, Placed;
      ghost var was, wasHeads := T(), heads;
      ConsistentParts(was, heads, texts, order, pos, keyTop);
      var cur := KEY_HEAD;
      newHeads, newTop, num := heads, 1, 0;
      ghost var done: Texts, donePos: map<Key, nat> := map[], map[];
      RebuildStart(newBit, newItems[..], newNxt[..], heads, order, texts, was);
      WalkCursor(order, texts, keyTop, 0, cur);
      while cur < keyTop
        invariant T() == was
        invariant num <= |order| && (num < |order| <==> cur < keyTop) && (num < |order| ==> cur == order[num])
        invariant Rebuilt(Table(newBit, newItems[..], newNxt[..], newTop), newHeads, done, donePos, order, texts, num,
            cur, was, wasHeads)
        decreases |order| - num
      {
        var head, top := MoveKey(newItems, newNxt, newBit, newTop, newHeads, done, donePos, num, cur, was, wasHeads);
        var key := texts[cur];
        done, donePos := done[cur := key], donePos[key := cur];
        newHeads, newTop := newHeads[cur := head], top;
        num, cur := num + 1, cur + |key| + 1 + KEY_HEAD;
        WalkCursor(order, texts, keyTop, num, cur);
      }
      ghost var t := Table(newBit, newItems[..], newNxt[..], newTop);
      RebuildEnd(t, newHeads, done, donePos, order, texts, pos, keyTop, cur, was, wasHeads);
      RebuildParts(t, newHeads, done, donePos, order, texts, num, cur, was, wasHeads);
    }

    /** New arrays of 2^newBit slots with all keys of the log in them. */
    method NewTable(newSize: nat, newBit: nat)
      returns (newItems: array<Slot>, newNxt: array<Slot>, newHeads: Heads, newTop: nat, num: nat)
      requires Sound() && newBit >= 1 && newSize == Pow2(newBit) && |order| <= newSize
      ensures fresh(newItems) && fresh(newNxt) && newItems != newNxt && newItems.Length == newNxt.Length == newSize
      ensures var t := Table(newBit, newItems[..], newNxt[..], newTop);
        && Consistent(t, newHeads, texts, order, pos, keyTop)
        && (numeric || CellsOk(t, newHeads, texts, cells, dataTop, dataMax))
        && forall q :: q in texts ==> SlotData(t, newHeads, q) == SlotData(T(), heads, q)
      ensures num == |order| && newTop <= (if num == 0 then 1 else num)
    {
      hide Hash, Pow2, Consistent, SlotData, CellsOk;
      newItems := new Slot[newSize](_ => EMPTY);
      newNxt := new Slot[newSize](_ => EMPTY);
      newHeads, newTop, num := Rebuild(newItems, newNxt, newSize, newBit);
      CellsKept(T(), heads, Table(newBit, newItems[..], newNxt[..], newTop), newHeads, texts, cells, dataTop, dataMax,
                numeric);
    }

    /** hc_dict_remap: a new table of 2^newBit slots. */
    method Remap(newSize: nat, newBit: nat)
      requires Sound() && newBit >= 1 && newSize == Pow2(newBit) && |order| <= newSize
      modifies this`bit, this`itemNum, this`nxtTop, this`size, this`items, this`nxtItems, this`heads
      ensures Sound() && bit == newBit && size == newSize
      ensures fresh(items) && fresh(nxtItems)
      ensures itemNum == |order| && nxtTop <= (if itemNum == 0 then 1 else itemNum)
      ensures forall p :: p in texts ==> ValueAt(p) == old(ValueAt(p))
    {
      hide Hash, Pow2, Consistent, SlotData, CellsOk, ValueOf;
      var newItems, newNxt, newHeads, newTop, num := NewTable(newSize, newBit);
      nxtTop, items, nxtItems, size, bit, itemNum, heads := newTop, newItems, newNxt, newSize, newBit, num, newHeads;
    }

    // -------------------------------------------------------------------------
    // The public operations
    // -------------------------------------------------------------------------

    /** hc_dict_create: at least `sizeA` slots, a power of two from 32 on, and buffers of 20 bytes for each. The result
        is usable if and only if 32 bits hold the size and a signed int the bytes. */
    constructor (numeric: bool, sizeA: nat)
      requires sizeA < 0x1_0000_0000
      ensures fresh(items) && fresh(nxtItems) && this.numeric == numeric
      ensures Valid() <==> Creatable(sizeA)
      ensures Valid() ==> Contents() == map[] && KeyOrder() == [] && sizeA <= size < 0x1_0000_0000
    {
      hide Pow2, Consistent, Hash;
      var n, b := TableSize(sizeA);
      CreatableIff(sizeA, b);
      this.numeric := numeric;
      bit, size, itemNum, nxtTop := b, n, 0, 1;
      items := new Slot[n](_ => EMPTY);
      nxtItems := new Slot[n](_ => EMPTY);
      heads, texts, cells := map[], map[], map[];
      keyTop, keyMax, dataTop, dataMax := 0, FirstCapacity(n), 0, if numeric then 0 else FirstCapacity(n);
      order, pos := [], map[];
      new;
      if n == Pow2(b) {
        EmptyTable(bit, items[..], nxtItems[..], map[]);
      }
    }

    static method TableSize(sizeA: nat) returns (n: nat, b: nat)
      requires sizeA < 0x1_0000_0000
      ensures b >= 5 && n == Pow2(b) % 0x1_0000_0000
      ensures if sizeA <= 32 then b == 5 else sizeA < Pow2(b) <= 2 * sizeA
    {
      hide Pow2, Between;
      Pow2Values();
      n, b := 32, 5;
      if n < sizeA {
        var a: nat := sizeA / 32;
        BetweenFirst(sizeA);
        ghost var m: nat := 32;
        while a != 0
          invariant b >= 5 && m == Pow2(b) && n == m % 0x1_0000_0000
          invariant Between(m, a, sizeA) && m <= 2 * sizeA
          decreases a
        {
          Halved(m, a, sizeA);
          Pow2Step(b);
          assert n == m;
          n, a, b, m := n * 2 % 0x1_0000_0000, a / 2, b + 1, m * 2;
        }
        BetweenLast(m, sizeA);
      }
    }

    static predicate Between(m: nat, a: nat, bound: nat) {
      0 < m && m * a <= bound < m * a + m
    }

    static lemma BetweenFirst(bound: nat)
      ensures Between(32, bound / 32, bound)
    {}

    static lemma BetweenLast(m: nat, bound: nat)
      requires Between(m, 0, bound)
      ensures bound < m
    {}

    static lemma Halved(m: nat, a: nat, bound: nat)
      requires a > 0 && Between(m, a, bound)
      ensures Between(m * 2, a / 2, bound) && m <= bound
    {
      assert a == 2 * (a / 2) + a % 2;
      assert m * a == (m * 2) * (a / 2) + m * (a % 2);
      assert m <= m * a;
    }

    /** hc_dict_get_item: the key's slot. */
    method GetItem(key: Key) returns (found: bool, ref: DictTable.Ref)
      requires Valid()
      ensures found <==> key in Contents()
      ensures found ==> T().Has(ref) && T().At(ref).keyIndex == pos[key]
    {
      found, ref := FindForStore(key);
    }

    /** The slot of a stored key holds that key's data. */
    lemma SlotHolds(key: Key, ref: DictTable.Ref)
      requires Sound() && key in pos && T().Has(ref) && T().At(ref).keyIndex == pos[key]
      ensures ValueAt(pos[key]) == ValueOf(numeric, T().At(ref).data, cells)
      ensures !numeric ==> T().At(ref).data == 0 || T().At(ref).data in cells
      ensures pos[key] in texts && texts[pos[key]] == key
    {
      hide Hash, Pow2, OneSlot, Placed, LogOk, Linked, SlotData;
      ConsistentParts(T(), heads, texts, order, pos, keyTop);
      SlotOfKey(T(), heads, texts, ref, pos[key]);
    }

    /** hc_dict_get_num. */
    method GetNum(key: Key) returns (ret: int, v: int)
      requires Valid()
      ensures (ret, v) == if key in Contents() then NumberOf(Contents()[key]) else (-1, -1)
      ensures key !in Contents() || Contents()[key].Absent? ==> ret == -1
      ensures key in Contents() && Contents()[key].Stored? && Contents()[key].kind != 2 ==> ret == -1
    {
      hide Linked, OneSlot, Placed, LogOk, CellsOk, SlotData, Signed, FromLe, Inverse, Pow256;
      var found, ref := GetItem(key);
      if !found {
        return -1, -1;
      }
      SlotHolds(key, ref);
      var s := ReadSlot(items, nxtItems, ref);
      if numeric {
        return 8, Signed(s.data, 8);
      }
      if s.data == 0 {
        return -1, -1;
      }
      var c := cells[s.data];
      if c.kind == TYPE_NUM && (|c.bytes| == 1 || |c.bytes| == 2 || |c.bytes| == 4 || |c.bytes| == 8) {
        return |c.bytes|, Signed(FromLe(c.bytes), |c.bytes|);
      }
      return -1, -1;
    }

    /** hc_dict_get_ptr: the stored bytes; nothing for a missing key, a key without data, or a numeric dictionary. */
    method GetPtr(key: Key) returns (found: bool, bytes: seq<byte>)
      requires Valid()
      ensures found <==> key in Contents() && Contents()[key].Stored?
      ensures found ==> bytes == Contents()[key].bytes
    {
      hide Linked, OneSlot, Placed, LogOk, CellsOk, SlotData, Inverse;
      var has, ref := GetItem(key);
      if !has {
        return false, [];
      }
      SlotHolds(key, ref);
      var s := ReadSlot(items, nxtItems, ref);
      if numeric || s.data == 0 {
        return false, [];
      }
      return true, cells[s.data].bytes;
    }

    /** The data part of a store. */
    method SetKeyData(ref: DictTable.Ref, key: Key, x: Datum, kind: nat)
      requires Sound() && key in pos && T().Has(ref) && T().At(ref).keyIndex == pos[key]
      requires Storable(numeric, x, kind) && DataRoom(Length(x))
      modifies this`cells, this`dataTop, this`dataMax, items, nxtItems
      ensures Sound()
      ensures key in old(Contents())
      ensures Contents() == old(Contents())[key := Stores(numeric, old(Contents())[key], x, kind)]
    {
      hide Consistent, SlotData, CellsOk, ValueOf, Stores;
      PositionsDiffer(T(), heads, texts, order, pos, keyTop);
      SetData(ref, ReadSlot(items, nxtItems, ref).keyIndex, x, kind);
    }

    /** A store under a key that is in the dictionary also changes the type in its header. */
    method SetOld(ref: DictTable.Ref, key: Key, x: Datum, kind: nat)
      requires Sound() && key in pos && T().Has(ref) && T().At(ref).keyIndex == pos[key]
      requires Storable(numeric, x, kind) && DataRoom(Length(x))
      modifies this`heads, this`cells, this`dataTop, this`dataMax, items, nxtItems
      ensures Sound()
      ensures key in old(Contents())
      ensures Contents() == old(Contents())[key := Stores(numeric, old(Contents())[key], x, kind)]
    {
      hide Consistent, SlotData, CellsOk, ValueOf, Stores;
      PositionsDiffer(T(), heads, texts, order, pos, keyTop);
      var p := ReadSlot(items, nxtItems, ref).keyIndex;
      InLog(key);
      KindConsistent(T(), heads, texts, order, pos, keyTop, p, kind);
      CellsKept(T(), heads, T(), heads[p := heads[p].(kind := kind)], texts, cells, dataTop, dataMax, numeric);
      heads := heads[p := heads[p].(kind := kind)];
      SetKeyData(ref, key, x, kind);
    }

    lemma InLog(key: Key)
      requires Sound() && key in pos
      ensures pos[key] in texts && texts[pos[key]] == key && pos[key] in heads
    {
      hide Linked, OneSlot, LogOk, CellsOk;
      assert PlacedAt(T(), heads, pos[key]);
    }

    /** A new key, linked, logged and counted, with nothing stored under it yet. */
    method AddNew(last: DictTable.Ref, key: Key, kind: nat) returns (r: DictTable.Ref)
      requires Sound() && key !in pos && |key| <= MAX_KEY && KeyRoom(|key|)
      requires Tail(T(), texts, Hash(bit, key), last) && nxtTop < size
      modifies this`heads, this`texts, this`keyTop, this`keyMax, this`nxtTop, this`order, this`pos, this`itemNum,
               items, nxtItems
      ensures Sound() && itemNum == old(itemNum) + 1 && |order| == |old(order)| + 1
      ensures key in pos && T().Has(r) && T().At(r).keyIndex == pos[key]
      ensures Contents() == old(Contents())[key := ValueOf(numeric, 0, cells)]
      ensures KeyOrder() == old(KeyOrder()) + [key]
      ensures keyTop == old(keyTop) + KEY_HEAD + |key| + 1
      ensures nxtTop == old(nxtTop) || (old(order) != [] && nxtTop == old(nxtTop) + 1)
    {
      hide Consistent, SlotData, CellsOk, Tail, Hash, KeysInOrder, ValueOf;
      PositionsDiffer(T(), heads, texts, order, pos, keyTop);
      KeysAppended(order, texts, keyTop + KEY_HEAD, key);
      TailTexts(T(), texts, Hash(bit, key), last);
      ghost var p, wasHeads, was, wasTexts := keyTop + KEY_HEAD, heads, T(), texts;
      r := AddKey(last, key, kind);
      CellsNewKey(was, wasHeads, wasTexts, T(), heads, p, key, cells, dataTop, dataMax, numeric);
      itemNum := itemNum + 1;
    }

    /** hc_dict_set_item. */
    method SetItem(key: Key, x: Datum, kind: nat)
      requires Valid() && |key| <= MAX_KEY && Storable(numeric, x, kind)
      requires KeyRoom(|key|) && DataRoom(Length(x))
      modifies this, items, nxtItems
      ensures Valid()
      ensures items == old(items) || fresh(items)
      ensures nxtItems == old(nxtItems) || fresh(nxtItems)
      ensures Contents() == old(Contents())[key := Stores(numeric, if key in old(Contents()) then old(Contents())[key]
          else Absent, x, kind)]
      ensures KeyOrder() == if key in old(Contents()) then old(KeyOrder()) else old(KeyOrder()) + [key]
      ensures key in Contents() && Contents() - {key} == old(Contents()) - {key}
      ensures !numeric && x.Bytes? ==> Contents()[key] == Stored(kind, x.bytes)
      ensures !numeric && x.Null? ==>
                Contents()[key] == if x.len > 0 || (key in old(Contents()) && old(Contents())[key].Stored?)
                                   then Stored(kind, []) else Absent
      ensures !numeric && x.Num? ==>
                && Contents()[key].Stored? && Contents()[key].kind == TYPE_NUM && |Contents()[key].bytes| == x.width
                && FromLe(Contents()[key].bytes) == x.v % 0x1_0000_0000_0000_0000 % Pow256(x.width)
      ensures numeric ==> Contents()[key] == Number(x.v % 0x1_0000_0000_0000_0000)
    {
      hide Sound, ValueAt, Tail, Hash, Stores, Pow2, KeysInOrder, T, Contents, FromLe, Pow256;
      ghost var was := Contents();
      var found, ref := FindForStore(key);
      if found {
        SetOld(ref, key, x, kind);
        StoredAt(was, Contents(), numeric, key, x, kind);
        return;
      }
      ref := AddNew(ref, key, kind);
      FreshStores(numeric, cells, x, kind);
      SetKeyData(ref, key, x, kind);
      Pow2Step(bit);
      if itemNum > size / 2 {
        Double();
      }
      StoredAt(was, Contents(), numeric, key, x, kind);
    }

    method Double()
      requires Sound() && bit >= 1 && size == Pow2(bit) && |order| <= 2 * size
      modifies this`bit, this`itemNum, this`nxtTop, this`size, this`items, this`nxtItems, this`heads
      ensures Sound() && bit == old(bit) + 1 && size == 2 * old(size) == Pow2(bit)
      ensures fresh(items) && fresh(nxtItems)
      ensures itemNum == |order| && nxtTop <= (if itemNum == 0 then 1 else itemNum)
      ensures Contents() == old(Contents())
    {
      hide Pow2, Consistent, CellsOk, SlotData, ValueOf, ValueAt;
      PositionsDiffer(T(), heads, texts, order, pos, keyTop);
      Pow2Step(bit);
      Remap(size * 2, bit + 1);
    }

    method FindForStore(key: Key) returns (found: bool, ref: DictTable.Ref)
      requires Valid()
      ensures found <==> key in pos
      ensures found <==> key in Contents()
      ensures found ==> T().Has(ref) && T().At(ref).keyIndex == pos[key]
      ensures !found ==> Tail(T(), texts, Hash(bit, key), ref)
    {
      hide Hash, Pow2, OneSlot, Placed, LogOk, Linked, Tail;
      ConsistentParts(T(), heads, texts, order, pos, keyTop);
      LogBounds(order, texts, keyTop);
      found, ref := FindSlot(items, nxtItems, bit, nxtTop, texts, texts, keyTop + KEY_HEAD, key);
    }

    // -------------------------------------------------------------------------
    // Walking the keys by log position
    // -------------------------------------------------------------------------

    /** hc_dict_get_item_by_kindex at the header of the `i`-th key: its slot, and where the next header is. */
    method GetItemByKindex(kindex: nat, ghost i: nat) returns (found: bool, ref: DictTable.Ref, next: nat)
      requires Valid() && i <= |order|
      requires if i < |order| then kindex == order[i] - KEY_HEAD else kindex >= keyTop
      ensures found <==> i < |order|
      ensures found ==> T().Has(ref) && T().At(ref).keyIndex == order[i] == kindex + KEY_HEAD
      ensures found ==> if i + 1 < |order| then next == order[i + 1] - KEY_HEAD else next >= keyTop
      ensures !found ==> next == kindex
    {
      hide Linked, OneSlot, CellsOk, Inverse, Pow2, Hash;
      if i < |order| {
        LogWalk(order, texts, keyTop, i);
        assert PlacedAt(T(), heads, order[i]);
      }
      found, ref, next := false, Primary(0), kindex;
      if kindex >= keyTop {
        return;
      }
      var p := kindex + KEY_HEAD;
      return true, heads[p].Ref(), kindex + KEY_HEAD + |texts[p]| + 1;
    }

    /** A walk from position 0 visits every key once, in the order of first insertion, and every slot it is
        handed belongs to the key it stands at. */
    method VisitKeys() returns (keys: seq<Key>)
      requires Valid()
      ensures keys == KeyOrder()
      ensures forall k :: k in keys <==> k in Contents()
      ensures forall a, b :: 0 <= a < b < |keys| ==> keys[a] != keys[b]
    {
      hide Linked, OneSlot, Placed, CellsOk, Hash, Pow2, LogOk;
      PositionsDiffer(T(), heads, texts, order, pos, keyTop);
      LogWalk(order, texts, keyTop, 0);
      keys := [];
      var kindex: nat := 0;
      ghost var i: nat := 0;
      while true
        invariant i <= |order| && keys == KeyOrder()[..i]
        invariant if i < |order| then kindex == order[i] - KEY_HEAD else kindex >= keyTop
        decreases |order| - i
      {
        var found, ref, next := GetItemByKindex(kindex, i);
        if !found {
          break;
        }
        keys := keys + [texts[ReadSlot(items, nxtItems, ref).keyIndex]];
        kindex, i := next, i + 1;
      }
      OrderCovers(order, texts, pos, keyTop);
    }

    static function ReadSlot(items: array<Slot>, nxtItems: array<Slot>, r: DictTable.Ref): Slot
      requires if r.Primary? then r.h < items.Length else r.n < nxtItems.Length
      reads items, nxtItems
    {
      match r
      case Primary(h) => items[h]
      case Overflow(n) => nxtItems[n]
    }

    static method WriteSlot(items: array<Slot>, nxtItems: array<Slot>, r: DictTable.Ref, s: Slot)
      requires items != nxtItems
      requires if r.Primary? then r.h < items.Length else r.n < nxtItems.Length
      modifies items, nxtItems
      ensures items[..] == if r.Primary? then old(items[..])[r.h := s] else old(items[..])
      ensures nxtItems[..] == if r.Overflow? then old(nxtItems[..])[r.n := s] else old(nxtItems[..])
    {
      match r
      case Primary(h) => items[h] := s;
      case Overflow(n) => nxtItems[n] := s;
    }
  }

  // ---------------------------------------------------------------------------
  // What is stored is found again
  // ---------------------------------------------------------------------------

  /** A byte string is found as it was stored, whether the key and its record are new or not. */
  method SetThenGetPtr(d: Dictionary, key: Key, b: seq<byte>, kind: nat) returns (found: bool, bytes: seq<byte>)
    requires d.Valid() && !d.numeric && |key| <= MAX_KEY && kind != TYPE_NUM && kind != TYPE_LIST
    requires d.KeyRoom(|key|) && d.DataRoom(|b|)
    modifies d, d.items, d.nxtItems
    ensures d.Valid() && found && bytes == b
  {
    d.SetItem(key, DictLog.Bytes(b), kind);
    found, bytes := d.GetPtr(key);
  }

  /** A null pointer leaves no byte, and nothing at all with length 0 where nothing was. */
  method SetThenGetNull(d: Dictionary, key: Key, len: nat, kind: nat) returns (found: bool, bytes: seq<byte>)
    requires d.Valid() && !d.numeric && |key| <= MAX_KEY && kind != TYPE_NUM && kind != TYPE_LIST
    requires d.KeyRoom(|key|) && d.DataRoom(len)
    modifies d, d.items, d.nxtItems
    ensures d.Valid() && (found ==> bytes == [])
    ensures found <==> len > 0 || (key in old(d.Contents()) && old(d.Contents())[key].Stored?)
  {
    d.SetItem(key, Null(len), kind);
    found, bytes := d.GetPtr(key);
  }

  /** A number that fits its width is found as it was stored, in a dictionary of numbers and in one of records. */
  method SetThenGetNum(d: Dictionary, key: Key, v: int, width: nat) returns (ret: int, w: int)
    requires d.Valid() && |key| <= MAX_KEY && (width == 1 || width == 2 || width == 4 || width == 8)
    requires d.KeyRoom(|key|) && d.DataRoom(width)
    requires 0 <= Pow256(width) + 2 * v < 2 * Pow256(width) && -0x8000_0000_0000_0000 <= v < 0x8000_0000_0000_0000
    modifies d, d.items, d.nxtItems
    ensures d.Valid() && ret == (if d.numeric then 8 else width) && w == v
  {
    hide Stores, NumberOf, Pow256, FromLe, Dictionary.Valid, Dictionary.Contents;
    NumberRoundTrip(d.numeric, if key in d.Contents() then d.Contents()[key] else Absent, v, width);
    d.SetItem(key, Num(v, width), TYPE_NUM);
    ret, w := d.GetNum(key);
  }
}
