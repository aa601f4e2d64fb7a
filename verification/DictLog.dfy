/** The key log and the values of the dictionary in src/util/hc_dict.c. The key log and the data log are kept as
    records by byte position; the arithmetic on positions and buffer capacities is the original's. */
module DictLog {
  import opened Bytes
  import opened DictHash
  import opened DictTable

  const TYPE_NUM: nat := 2
  const TYPE_LIST: nat := 4

  /** sizeof(HC_DictKey) and sizeof(HC_DictData). */
  const KEY_HEAD: nat := 8
  const DATA_HEAD: nat := 12

  const MAX_KEY: nat := 127

  /** Log positions are C ints, and the growth code adds up four times a needed length. */
  const LOG_LIMIT: nat := 0x2000_0000

  /** HC_DictKey without the length, which is that of the text behind it. */
  datatype KeyHead = KeyHead(kind: nat, flgNxt: bool, itemIndex: nat) {
    function Ref(): Ref {
      if flgNxt then Overflow(itemIndex) else Primary(itemIndex)
    }
  }

  /** HC_DictData and the bytes in use of the `maxLen` behind it. */
  datatype Cell = Cell(kind: nat, bytes: seq<byte>, maxLen: nat)

  datatype Value = Number(v: nat) | Absent | Stored(kind: nat, bytes: seq<byte>)

  type Heads = map<nat, KeyHead>

  // ---------------------------------------------------------------------------
  // The key log
  // ---------------------------------------------------------------------------

  /** Keys lie one behind the other: header, text, a closing zero byte. `order` lists their positions. */
  ghost predicate LogOk(order: seq<nat>, texts: Texts, top: nat) {
    && (forall p :: p in texts <==> p in order)
    && (forall i :: 0 <= i < |order| ==> |texts[order[i]]| <= MAX_KEY)
    && (if order == [] then top == 0 else order[0] == KEY_HEAD && After(texts, order[|order| - 1]) == top + KEY_HEAD)
    && (forall i, j :: 0 <= i < |order| && j == i + 1 < |order| ==> order[j] == After(texts, order[i]))
  }

  /** Where the text behind the one at `p` begins. */
  ghost function After(texts: Texts, p: nat): nat {
    if p in texts then p + |texts[p]| + 1 + KEY_HEAD else p
  }

  lemma {:induction false} LogOrdered(order: seq<nat>, texts: Texts, top: nat, i: nat, j: nat)
    requires LogOk(order, texts, top) && i < j < |order|
    ensures order[i] < After(texts, order[i]) <= order[j]
    decreases j
  {
    assert order[i] in texts && order[j - 1] in texts;
    assert order[j] == After(texts, order[j - 1]);
    if i < j - 1 {
      LogOrdered(order, texts, top, i, j - 1);
    }
  }

  lemma LogBounds(order: seq<nat>, texts: Texts, top: nat)
    requires LogOk(order, texts, top)
    ensures forall p :: p in texts ==> KEY_HEAD <= p && After(texts, p) <= top + KEY_HEAD && |texts[p]| <= MAX_KEY
  {
    forall p | p in texts ensures KEY_HEAD <= p && After(texts, p) <= top + KEY_HEAD && |texts[p]| <= MAX_KEY {
      assert p in order;
      var i :| 0 <= i < |order| && order[i] == p;
      if 0 < i { LogOrdered(order, texts, top, 0, i); }
      if i < |order| - 1 { LogOrdered(order, texts, top, i, |order| - 1); }
    }
  }

  lemma LogAppend(order: seq<nat>, texts: Texts, top: nat, key: Key)
    requires LogOk(order, texts, top) && |key| <= MAX_KEY
    ensures top + KEY_HEAD !in texts
    ensures LogOk(order + [top + KEY_HEAD], texts[top + KEY_HEAD := key], top + KEY_HEAD + |key| + 1)
  {
    LogBounds(order, texts, top);
    var p := top + KEY_HEAD;
    var more, longer := texts[p := key], order + [p];
    forall i | 0 <= i < |order| ensures After(more, order[i]) == After(texts, order[i]) && order[i] in texts {
      assert order[i] in texts;
    }
    forall i, j | 0 <= i < |longer| && j == i + 1 < |longer| ensures longer[j] == After(more, longer[i]) {
      assert j < |order| ==> order[j] == After(texts, order[i]);
    }
  }

  ghost function KeysInOrder(order: seq<nat>, texts: Texts): seq<Key> {
    seq(|order|, i requires 0 <= i < |order| => if order[i] in texts then texts[order[i]] else [])
  }

  // ---------------------------------------------------------------------------
  // Key headers name the slots
  // ---------------------------------------------------------------------------

  ghost predicate PlacedAt(t: Table, heads: Heads, p: nat) {
    p in heads && t.Has(heads[p].Ref()) && t.At(heads[p].Ref()).keyIndex == p
  }

  ghost predicate Placed(t: Table, heads: Heads, texts: Texts) {
    forall p :: p in texts ==> PlacedAt(t, heads, p)
  }

  ghost function SlotData(t: Table, heads: Heads, p: nat): nat {
    if PlacedAt(t, heads, p) then t.At(heads[p].Ref()).data else 0
  }

  lemma InsertPlaced(t: Table, heads: Heads, texts: Texts, last: DictTable.Ref, p: nat, key: Key, data: nat,
                     head: KeyHead)
    requires Linked(t, texts) && Placed(t, heads, texts) && t.Has(last)
    requires t.At(last).keyIndex != 0 ==> t.top < |t.nxtItems|
    requires p > 0 && forall r :: r in texts ==> r < p
    requires head.Ref() == Target(t, last)
    ensures var u := Insert(t, last, p, data); var more := heads[p := head];
            && Placed(u, more, texts[p := key]) && SlotData(u, more, p) == data
            && forall q :: q in texts ==> SlotData(u, more, q) == SlotData(t, heads, q)
  {
    hide Linked;
    InsertedKeys(t, texts, last, p, data, head.Ref());
    forall q | q in texts
      ensures var u := Insert(t, last, p, data); var more := heads[p := head];
              PlacedAt(u, more, q) && SlotData(u, more, q) == SlotData(t, heads, q)
    {
      assert PlacedAt(t, heads, q);
      TargetFresh(t, texts, last, p);
      InsertedKeys(t, texts, last, p, data, heads[q].Ref());
    }
  }

  ghost predicate Inverse(pos: map<Key, nat>, texts: Texts) {
    && (forall p :: p in texts ==> texts[p] in pos && pos[texts[p]] == p)
    && (forall k :: k in pos ==> pos[k] in texts && texts[pos[k]] == k)
  }

  /** Links, slots, headers, log and key index all describe the same keys. */
  ghost predicate Consistent(t: Table, heads: Heads, texts: Texts, order: seq<nat>, pos: map<Key, nat>, top: nat) {
    && Linked(t, texts) && OneSlot(t) && Placed(t, heads, texts)
    && LogOk(order, texts, top) && Inverse(pos, texts)
  }

  /** Appending a new key to the log and hanging it behind `last` keeps everything consistent. */
  lemma AddKeyConsistent(t: Table, heads: Heads, texts: Texts, order: seq<nat>, pos: map<Key, nat>, top: nat,
                         last: DictTable.Ref, key: Key, data: nat, head: KeyHead)
    requires Consistent(t, heads, texts, order, pos, top) && key !in pos && |key| <= MAX_KEY
    requires t.bit >= 1 && Tail(t, texts, Hash(t.bit, key), last)
    requires t.At(last).keyIndex != 0 ==> t.top < |t.nxtItems|
    requires head.Ref() == Target(t, last)
    ensures var p := top + KEY_HEAD; var u := Insert(t, last, p, data);
      && p !in texts
      && Consistent(u, heads[p := head], texts[p := key], order + [p], pos[key := p], p + |key| + 1)
      && u.Has(head.Ref()) && u.At(head.Ref()).keyIndex == p && SlotData(u, heads[p := head], p) == data
      && forall q :: q in texts ==> SlotData(u, heads[p := head], q) == SlotData(t, heads, q)
  {
    hide Hash, Pow2, Linked, OneSlot, Placed, LogOk, Tail, Insert, SlotData;
    var p := top + KEY_HEAD;
    TailShape(t, texts, Hash(t.bit, key), last);
    LogBounds(order, texts, top);
    LogAppend(order, texts, top, key);
    InsertLinked(t, texts, Hash(t.bit, key), last, p, key, data);
    InsertOneSlot(t, texts, last, p, data);
    InsertPlaced(t, heads, texts, last, p, key, data, head);
    InsertedKeys(t, texts, last, p, data, head.Ref());
  }

  /** The target slot is none of those that hold an earlier key. */
  lemma TargetFresh(t: Table, texts: Texts, last: DictTable.Ref, p: nat)
    requires Linked(t, texts) && t.Has(last)
    ensures t.Has(Target(t, last)) ==> t.At(Target(t, last)).keyIndex == 0 && 0 !in texts
  {
    hide Hash, Pow2;
  }

  // ---------------------------------------------------------------------------
  // Values
  // ---------------------------------------------------------------------------

  type Cells = map<nat, Cell>

  /** Data records do not overlap, and no two keys share one. */
  ghost predicate CellsOk(t: Table, heads: Heads, texts: Texts, cells: Cells, dataTop: nat, dataMax: int) {
    && dataTop <= dataMax
    && (forall d :: d in cells ==>
          DATA_HEAD <= d && d + cells[d].maxLen + 1 <= dataTop && |cells[d].bytes| <= cells[d].maxLen)
    && (forall d, e :: d in cells && e in cells && d < e ==> d + cells[d].maxLen + 1 + DATA_HEAD <= e)
    && (forall p :: p in texts ==> SlotData(t, heads, p) == 0 || SlotData(t, heads, p) in cells)
    && (forall p, q :: p in texts && q in texts && p != q && SlotData(t, heads, p) != 0
          ==> SlotData(t, heads, p) != SlotData(t, heads, q))
  }

  ghost function ValueOf(numeric: bool, d: nat, cells: Cells): Value {
    if numeric then Number(d)
    else if d in cells && d != 0 then Stored(cells[d].kind, cells[d].bytes)
    else Absent
  }

  /** What the caller hands to hc_dict_set_item: a number of a given width, a buffer, or a null pointer with a
      length. */
  datatype Datum = Num(v: int, width: nat) | Bytes(bytes: seq<byte>) | Null(len: nat)

  function U64(v: int): nat {
    v % 0x1_0000_0000_0000_0000
  }

  function Length(x: Datum): nat {
    match x
    case Num(_, width) => width
    case Bytes(bytes) => |bytes|
    case Null(len) => len
  }

  /** The bytes in use after the datum has been stored. */
  function Content(x: Datum): (s: seq<byte>) {
    match x
    case Num(v, width) => ToLe(U64(v), width)
    case Bytes(bytes) => bytes
    case Null(_) => []
  }

  /** A dictionary of numbers takes numbers; else the type says whether the pointer argument is a number. */
  ghost predicate Storable(numeric: bool, x: Datum, kind: nat) {
    if numeric then x.Num?
    else
      && kind != TYPE_LIST && (x.Num? <==> kind == TYPE_NUM)
      && (x.Num? ==> x.width == 1 || x.width == 2 || x.width == 4 || x.width == 8)
  }

  /** The value a key has after a store over `was`. A null pointer of length 0 empties a value that exists and
      leaves a key without one. */
  function Stores(numeric: bool, was: Value, x: Datum, kind: nat): Value {
    if numeric then Number(if x.Num? then U64(x.v) else 0)
    else if x == Null(0) && !was.Stored? then Absent
    else Stored(kind, Content(x))
  }

  /** What a store leaves in a dictionary of records: a byte string whole; for a number its low bytes; no byte for a
      null pointer, and with length 0 no value either where there was none. */
  lemma StoredValue(was: Value, x: Datum, kind: nat)
    ensures var v := Stores(false, was, x, kind);
            && (x.Bytes? ==> v == Stored(kind, x.bytes))
            && (x.Null? && (x.len > 0 || was.Stored?) ==> v == Stored(kind, []))
            && (x.Null? && x.len == 0 && !was.Stored? ==> v == Absent)
            && (x.Num? ==> v.Stored? && v.kind == kind && |v.bytes| == x.width
                           && FromLe(v.bytes) == x.v % 0x1_0000_0000_0000_0000 % Pow256(x.width))
    ensures x.Num? ==> Stores(true, was, x, kind) == Number(x.v % 0x1_0000_0000_0000_0000)
  {
    if x.Num? {
      ToLeTruncates(U64(x.v), x.width);
    }
  }

  /** The same of the map. */
  lemma StoredAt(was: map<Key, Value>, now: map<Key, Value>, numeric: bool, key: Key, x: Datum, kind: nat)
    requires now == was[key := Stores(numeric, if key in was then was[key] else Absent, x, kind)]
    requires Storable(numeric, x, kind)
    ensures key in now && now - {key} == was - {key}
    ensures !numeric && x.Bytes? ==> now[key] == Stored(kind, x.bytes)
    ensures !numeric && x.Null? ==>
              now[key] == if x.len > 0 || (key in was && was[key].Stored?) then Stored(kind, []) else Absent
    ensures !numeric && x.Num? ==>
              && now[key].Stored? && now[key].kind == TYPE_NUM && |now[key].bytes| == x.width
              && FromLe(now[key].bytes) == x.v % 0x1_0000_0000_0000_0000 % Pow256(x.width)
    ensures numeric ==> now[key] == Number(x.v % 0x1_0000_0000_0000_0000)
  {
    hide Stores, FromLe, Pow256;
    StoredValue(if key in was then was[key] else Absent, x, kind);
  }

  /** The table with one slot's data replaced. */
  function PutData(t: Table, r: DictTable.Ref, d: nat): Table
    requires t.Has(r)
  {
    t.Put(r, t.At(r).(data := d))
  }

  lemma PutDataSlot(t: Table, r: DictTable.Ref, d: nat, a: DictTable.Ref)
    requires t.Has(r)
    ensures var u := PutData(t, r, d);
      && (u.Has(a) <==> t.Has(a))
      && (t.Has(a) ==> u.At(a) == if a == r then t.At(a).(data := d) else t.At(a))
  {}

  lemma PutDataChained(t: Table, texts: Texts, r: DictTable.Ref, d: nat, p: nat, n: nat)
    requires t.bit >= 1 && t.Has(r) && Chained(t, texts, p, n)
    ensures Chained(PutData(t, r, d), texts, p, n)
  {
    hide Hash, NoneBetween;
    var u := PutData(t, r, d);
    assert n != 0 ==> u.nxtItems[n].keyIndex == t.nxtItems[n].keyIndex;
  }

  lemma PutDataLinked(t: Table, texts: Texts, r: DictTable.Ref, d: nat)
    requires Linked(t, texts) && t.Has(r) && t.At(r).keyIndex in texts
    ensures Linked(PutData(t, r, d), texts)
  {
    hide Hash, Pow2, NoneBetween, Chained;
    var u := PutData(t, r, d);
    forall h | 0 <= h < |u.items| ensures Head(u, texts, h) {
      assert Head(t, texts, h);
      PutDataSlot(t, r, d, Primary(h));
      if t.items[h].keyIndex != 0 {
        PutDataChained(t, texts, r, d, t.items[h].keyIndex, t.items[h].nxt);
      }
    }
    forall n | 1 <= n < u.top ensures Chained(u, texts, u.nxtItems[n].keyIndex, u.nxtItems[n].nxt) {
      PutDataSlot(t, r, d, Overflow(n));
      PutDataChained(t, texts, r, d, t.nxtItems[n].keyIndex, t.nxtItems[n].nxt);
    }
  }

  lemma PutDataPlaced(t: Table, heads: Heads, texts: Texts, r: DictTable.Ref, d: nat)
    requires OneSlot(t) && Placed(t, heads, texts) && t.Has(r) && t.At(r).keyIndex in texts && 0 !in texts
    ensures var u := PutData(t, r, d);
      && OneSlot(u) && Placed(u, heads, texts)
      && forall p :: p in texts ==> SlotData(u, heads, p) == if p == t.At(r).keyIndex then d else SlotData(t, heads, p)
  {
    var u := PutData(t, r, d);
    forall a, b | u.Has(a) && u.Has(b) && u.At(a).keyIndex == u.At(b).keyIndex != 0 ensures a == b {
      PutDataSlot(t, r, d, a);
      PutDataSlot(t, r, d, b);
    }
    forall p | p in texts ensures PlacedAt(u, heads, p) && SlotData(u, heads, p) == if p == t.At(r).keyIndex then d
        else SlotData(t, heads, p) {
      assert PlacedAt(t, heads, p);
      PutDataSlot(t, r, d, heads[p].Ref());
    }
  }

  ghost function ValueIn(numeric: bool, t: Table, heads: Heads, cells: Cells, p: nat): Value {
    ValueOf(numeric, SlotData(t, heads, p), cells)
  }

  /** A new data record at the end of the data log, named by the slot of the key at `p`. */
  lemma CellAppended(t: Table, heads: Heads, texts: Texts, cells: Cells, top: nat, max: int, r: DictTable.Ref, p: nat,
                     c: Cell, newMax: int)
    requires OneSlot(t) && Placed(t, heads, texts) && 0 !in texts
    requires CellsOk(t, heads, texts, cells, top, max) && t.Has(r) && t.At(r).keyIndex == p && p in texts
    requires |c.bytes| <= c.maxLen && top + DATA_HEAD + c.maxLen + 1 <= newMax
    ensures var d := top + DATA_HEAD; var u := PutData(t, r, d); var more := cells[d := c];
      && CellsOk(u, heads, texts, more, d + c.maxLen + 1, newMax)
      && (forall q :: q in texts && q != p ==> ValueIn(false, u, heads, more, q) == ValueIn(false, t, heads, cells, q))
      && ValueIn(false, u, heads, more, p) == Stored(c.kind, c.bytes)
  {
    hide OneSlot, Placed, SlotData, PutData;
    PutDataPlaced(t, heads, texts, r, top + DATA_HEAD);
  }

  lemma CellsRoom(t: Table, heads: Heads, texts: Texts, cells: Cells, top: nat, max: int, newMax: int)
    requires CellsOk(t, heads, texts, cells, top, max) && max <= newMax
    ensures CellsOk(t, heads, texts, cells, top, newMax)
  {
    hide SlotData;
  }

  /** The data record of the key at `p` written over in place. */
  lemma CellReused(t: Table, heads: Heads, texts: Texts, cells: Cells, top: nat, max: int, p: nat, c: Cell)
    requires CellsOk(t, heads, texts, cells, top, max) && p in texts
    requires var d := SlotData(t, heads, p);
             d != 0 && d in cells && c.maxLen == cells[d].maxLen && |c.bytes| <= c.maxLen
    ensures var more := cells[SlotData(t, heads, p) := c];
      && CellsOk(t, heads, texts, more, top, max)
      && (forall q :: q in texts && q != p ==> ValueIn(false, t, heads, more, q) == ValueIn(false, t, heads, cells, q))
      && ValueIn(false, t, heads, more, p) == Stored(c.kind, c.bytes)
  {
    hide SlotData;
  }

  lemma SlotOfKey(t: Table, heads: Heads, texts: Texts, r: DictTable.Ref, p: nat)
    requires OneSlot(t) && Placed(t, heads, texts) && t.Has(r) && t.At(r).keyIndex == p && p in texts && p != 0
    ensures SlotData(t, heads, p) == t.At(r).data
  {
    assert PlacedAt(t, heads, p);
    assert t.At(heads[p].Ref()).keyIndex == t.At(r).keyIndex;
  }

  /** Replacing the data of the slot of `p` keeps all the rest consistent and every other key's data. */
  lemma PutDataConsistent(t: Table, heads: Heads, texts: Texts, order: seq<nat>, pos: map<Key, nat>, top: nat,
                          r: DictTable.Ref, p: nat, d: nat)
    requires Consistent(t, heads, texts, order, pos, top) && t.Has(r) && t.At(r).keyIndex == p && p in texts
    ensures var u := PutData(t, r, d);
      && Consistent(u, heads, texts, order, pos, top)
      && SlotData(t, heads, p) == t.At(r).data
      && forall q :: q in texts ==> SlotData(u, heads, q) == if q == p then d else SlotData(t, heads, q)
  {
    hide Hash, Pow2, OneSlot, Placed, LogOk, Inverse, SlotData, Head, Chained;
    PutDataLinked(t, texts, r, d);
    PutDataPlaced(t, heads, texts, r, d);
    SlotOfKey(t, heads, texts, r, p);
  }

  lemma ConsistentParts(t: Table, heads: Heads, texts: Texts, order: seq<nat>, pos: map<Key, nat>, top: nat)
    requires Consistent(t, heads, texts, order, pos, top)
    ensures OneSlot(t) && Placed(t, heads, texts) && 0 !in texts && t.bit >= 1 && Linked(t, texts)
    ensures LogOk(order, texts, top)
    ensures |t.items| == |t.nxtItems| == Pow2(t.bit) && 1 <= t.top <= |t.nxtItems|
    ensures Inverse(pos, texts)
  {
    hide Hash, Pow2, OneSlot, Placed, LogOk, Inverse, Head, Chained;
  }

  lemma CellsTop(t: Table, heads: Heads, texts: Texts, cells: Cells, top: nat, max: int)
    requires CellsOk(t, heads, texts, cells, top, max)
    ensures top <= max
  {}

  lemma CellInUse(t: Table, heads: Heads, texts: Texts, cells: Cells, top: nat, max: int, p: nat)
    requires CellsOk(t, heads, texts, cells, top, max) && p in texts
    ensures SlotData(t, heads, p) == 0 || SlotData(t, heads, p) in cells
  {}

  /** The walk over the log steps from each text to the next and ends behind the last. */
  lemma LogWalk(order: seq<nat>, texts: Texts, top: nat, i: nat)
    requires LogOk(order, texts, top) && i <= |order|
    ensures i == 0 && order == [] ==> top == 0
    ensures i < |order| ==> order[i] in texts && KEY_HEAD <= order[i] < top && |texts[order[i]]| <= MAX_KEY
    ensures i == 0 && order != [] ==> order[i] == KEY_HEAD
    ensures i + 1 < |order| ==> order[i + 1] == order[i] + |texts[order[i]]| + 1 + KEY_HEAD
    ensures i + 1 == |order| ==> top == order[i] + |texts[order[i]]| + 1
  {
    if i < |order| {
      assert order[i] in texts;
      LogBounds(order, texts, top);
    }
  }

  /** A table rebuilt from the first `i` keys of the log, with the data each key had before. */
  ghost predicate Rebuilt(t: Table, heads: Heads, done: Texts, pos: map<Key, nat>, order: seq<nat>, texts: Texts,
                          i: nat, cur: nat,
                          was: Table, wasHeads: Heads)
    requires i <= |order|
  {
    && cur >= KEY_HEAD && Consistent(t, heads, done, order[..i], pos, cur - KEY_HEAD)
    && t.top <= (if i == 0 then 1 else i)
    && (forall q :: q in done ==>
          q in texts && done[q] == texts[q] && SlotData(t, heads, q) == SlotData(was, wasHeads, q))
  }

  /** The next key of the log is not yet in the rebuilt table. */
  lemma RebuildNext(t: Table, heads: Heads, done: Texts, pos: map<Key, nat>, order: seq<nat>, texts: Texts,
                    allPos: map<Key, nat>, top: nat,
                    i: nat, cur: nat, was: Table, wasHeads: Heads)
    requires i < |order| && LogOk(order, texts, top) && Inverse(allPos, texts)
    requires Rebuilt(t, heads, done, pos, order, texts, i, cur, was, wasHeads) && cur == order[i]
    ensures cur in texts && texts[cur] !in pos && |texts[cur]| <= MAX_KEY
    ensures forall q :: q in done ==> q < cur
  {
    hide Linked, OneSlot, Placed, SlotData;
    assert order[i] in texts;
    forall q | q in done ensures q < cur {
      assert q in order[..i];
      var k :| 0 <= k < i && order[..i][k] == q;
      LogOrdered(order, texts, top, k, i);
    }
  }

  /** The overflow array never runs out: it holds fewer slots than keys already moved. */
  lemma RebuildRoom(t: Table, heads: Heads, done: Texts, pos: map<Key, nat>, order: seq<nat>, texts: Texts,
                    i: nat, cur: nat, was: Table, wasHeads: Heads, h: nat, last: DictTable.Ref)
    requires i < |order| <= |t.nxtItems| && Rebuilt(t, heads, done, pos, order, texts, i, cur, was, wasHeads)
    requires t.bit >= 1 && Tail(t, done, h, last)
    ensures t.Has(last) && (t.At(last).keyIndex != 0 ==> i >= 1 && 1 <= t.top < |t.nxtItems|)
  {
    hide Hash, Pow2, OneSlot, Placed, SlotData, Linked;
    ConsistentParts(t, heads, done, order[..i], pos, cur - KEY_HEAD);
    if t.At(last).keyIndex != 0 {
      assert t.At(last).keyIndex in order[..i];
    }
  }

  lemma EmptyTable(bit: nat, items: seq<Slot>, nxtItems: seq<Slot>, heads: Heads)
    requires bit >= 1 && |items| == |nxtItems| == Pow2(bit)
    requires forall k :: 0 <= k < |items| ==> items[k] == EMPTY && nxtItems[k] == EMPTY
    ensures Consistent(Table(bit, items, nxtItems, 1), heads, map[], [], map[], 0)
  {
    hide Hash, Pow2;
  }

  lemma RebuildStep(t: Table, heads: Heads, done: Texts, pos: map<Key, nat>, order: seq<nat>, texts: Texts,
                    allPos: map<Key, nat>, top: nat,
                    i: nat, cur: nat, was: Table, wasHeads: Heads, last: DictTable.Ref, data: nat, head: KeyHead)
    requires i < |order| && LogOk(order, texts, top) && Inverse(allPos, texts)
    requires Rebuilt(t, heads, done, pos, order, texts, i, cur, was, wasHeads) && cur == order[i] && t.bit >= 1
    requires cur in texts && Tail(t, done, Hash(t.bit, texts[cur]), last) && data == SlotData(was, wasHeads, cur)
    requires t.At(last).keyIndex != 0 ==> i >= 1 && t.top < |t.nxtItems|
    requires head.Ref() == Target(t, last)
    ensures Rebuilt(Insert(t, last, cur, data), heads[cur := head], done[cur := texts[cur]], pos[texts[cur] := cur],
        order, texts,
                    i + 1, cur + |texts[cur]| + 1 + KEY_HEAD, was, wasHeads)
  {
    hide Hash, Pow2, Linked, OneSlot, Placed, LogOk, Tail, Insert, SlotData, Inverse;
    RebuildNext(t, heads, done, pos, order, texts, allPos, top, i, cur, was, wasHeads);
    AddKeyConsistent(t, heads, done, order[..i], pos, cur - KEY_HEAD, last, texts[cur], data, head);
    ConsistentParts(t, heads, done, order[..i], pos, cur - KEY_HEAD);
    TailShape(t, done, Hash(t.bit, texts[cur]), last);
    InsertShape(t, last, cur, data);
    assert order[..i + 1] == order[..i] + [cur];
  }

  lemma SameLog(order: seq<nat>, done: Texts, texts: Texts, doneTop: nat, top: nat)
    requires LogOk(order, done, doneTop) && LogOk(order, texts, top)
    requires forall q :: q in done ==> q in texts && done[q] == texts[q]
    ensures done == texts && doneTop == top
  {
    assert forall q :: q in texts <==> q in done;
  }

  lemma RebuildEnd(t: Table, heads: Heads, done: Texts, pos: map<Key, nat>, order: seq<nat>, texts: Texts,
                   allPos: map<Key, nat>, top: nat,
                   cur: nat, was: Table, wasHeads: Heads)
    requires LogOk(order, texts, top) && Inverse(allPos, texts)
    requires Rebuilt(t, heads, done, pos, order, texts, |order|, cur, was, wasHeads)
    ensures Consistent(t, heads, texts, order, allPos, top)
    ensures forall q :: q in texts ==> SlotData(t, heads, q) == SlotData(was, wasHeads, q)
  {
    hide Linked, OneSlot, Placed, SlotData, LogOk, Inverse;
    assert order[..|order|] == order;
    SameLog(order, done, texts, cur - KEY_HEAD, top);
  }

  /** The walk has a key left exactly while the cursor is below the end of the log. */
  lemma WalkCursor(order: seq<nat>, texts: Texts, top: nat, i: nat, cur: nat)
    requires LogOk(order, texts, top) && i <= |order|
    requires if i == 0 then cur == KEY_HEAD
        else order[i - 1] in texts && cur == order[i - 1] + |texts[order[i - 1]]| + 1 + KEY_HEAD
    ensures i < |order| <==> cur < top
    ensures i < |order| ==> cur == order[i]
  {
    LogWalk(order, texts, top, i);
    if i > 0 { LogWalk(order, texts, top, i - 1); }
  }

  lemma RebuildStart(bit: nat, items: seq<Slot>, nxtItems: seq<Slot>, heads: Heads, order: seq<nat>, texts: Texts,
                     was: Table)
    requires bit >= 1 && |items| == |nxtItems| == Pow2(bit)
    requires forall k :: 0 <= k < |items| ==> items[k] == EMPTY && nxtItems[k] == EMPTY
    ensures Rebuilt(Table(bit, items, nxtItems, 1), heads, map[], map[], order, texts, 0, KEY_HEAD, was, heads)
  {
    hide Consistent;
    EmptyTable(bit, items, nxtItems, heads);
    assert order[..0] == [];
  }

  lemma RebuildParts(t: Table, heads: Heads, done: Texts, pos: map<Key, nat>, order: seq<nat>, texts: Texts, i: nat,
                     cur: nat,
                     was: Table, wasHeads: Heads)
    requires i <= |order| && Rebuilt(t, heads, done, pos, order, texts, i, cur, was, wasHeads)
    ensures Linked(t, done) && forall q :: q in done ==> q in texts && done[q] == texts[q]
    ensures t.top <= (if i == 0 then 1 else i)
  {
    hide SlotData, OneSlot, Placed, LogOk, Inverse, Linked;
  }

  lemma NotYetMoved(t: Table, heads: Heads, done: Texts, pos: map<Key, nat>, order: seq<nat>, texts: Texts, i: nat,
                    cur: nat,
                    was: Table, wasHeads: Heads, key: Key)
    requires i <= |order| && Rebuilt(t, heads, done, pos, order, texts, i, cur, was, wasHeads) && key !in pos
    ensures forall q :: q in done ==> done[q] != key
  {
    hide SlotData, OneSlot, Placed, LogOk, Linked;
  }

  lemma CellsKept(was: Table, wasHeads: Heads, t: Table, heads: Heads, texts: Texts, cells: Cells, top: nat, max: int,
                  numeric: bool)
    requires numeric || CellsOk(was, wasHeads, texts, cells, top, max)
    requires forall q :: q in texts ==> SlotData(t, heads, q) == SlotData(was, wasHeads, q)
    ensures numeric || CellsOk(t, heads, texts, cells, top, max)
  {
    hide SlotData;
  }

  lemma KindConsistent(t: Table, heads: Heads, texts: Texts, order: seq<nat>, pos: map<Key, nat>, top: nat, p: nat,
                       kind: nat)
    requires Consistent(t, heads, texts, order, pos, top) && p in heads
    ensures var more := heads[p := heads[p].(kind := kind)];
      && Consistent(t, more, texts, order, pos, top)
      && forall q :: SlotData(t, more, q) == SlotData(t, heads, q)
  {
    hide Linked, OneSlot, LogOk, Inverse;
    var more := heads[p := heads[p].(kind := kind)];
    assert forall q :: PlacedAt(t, heads, q) <==> PlacedAt(t, more, q);
  }

  /** A two's complement number of `width` bytes. */
  function Signed(n: nat, width: nat): int {
    if 2 * n >= Pow256(width) then n - Pow256(width) else n
  }

  /** What hc_dict_get_num answers for a value: its width, or -1, and the number. */
  function NumberOf(v: Value): (int, int) {
    match v
    case Number(d) => (8, Signed(d, 8))
    case Absent => (-1, -1)
    case Stored(kind, bytes) =>
      if kind == TYPE_NUM && (|bytes| == 1 || |bytes| == 2 || |bytes| == 4 || |bytes| == 8)
          then (|bytes|, Signed(FromLe(bytes), |bytes|))
      else (-1, -1)
  }

  lemma {:induction false} ToLeTruncates(v: nat, n: nat)
    ensures FromLe(ToLe(v, n)) == v % Pow256(n)
  {
    if n > 0 {
      ToLeTruncates(v / 256, n - 1);
      assert ToLe(v, n)[1..] == ToLe(v / 256, n - 1);
      DigitSplit(v, Pow256(n - 1));
    }
  }

  lemma DigitSplit(v: nat, m: nat)
    requires m > 0
    ensures v % (256 * m) == v % 256 + 256 * ((v / 256) % m)
  {
    var q, r := (v / 256) / m, (v / 256) % m;
    assert v == 256 * (m * q + r) + v % 256;
    assert v == (256 * m) * q + (256 * r + v % 256);
    assert 0 <= 256 * r + v % 256 < 256 * m;
    DivUnique(v, 256 * m, q, 256 * r + v % 256);
  }

  lemma DivUnique(v: nat, d: nat, q: nat, r: nat)
    requires d > 0 && v == d * q + r && r < d
    ensures v % d == r
  {
    var q2, r2 := v / d, v % d;
    assert v == d * q2 + r2;
    if q > q2 { Ahead(d, q, q2); }
    if q < q2 { Ahead(d, q2, q); }
  }

  lemma Ahead(d: nat, a: nat, b: nat)
    requires a > b
    ensures d * a >= d * b + d
  {
    var k := a - b - 1;
    assert d * a == d * b + d + d * k;
  }

  /** A stored number reads back unchanged when it fits the width it was stored with. */
  lemma NumberRoundTrip(numeric: bool, was: Value, v: int, width: nat)
    requires width == 1 || width == 2 || width == 4 || width == 8
    requires 0 <= Pow256(width) + 2 * v < 2 * Pow256(width) && -0x8000_0000_0000_0000 <= v < 0x8000_0000_0000_0000
    ensures NumberOf(Stores(numeric, was, Num(v, width), TYPE_NUM)) == (if numeric then 8 else width, v)
  {
    hide ToLe, FromLe, Pow256;
    Pow256Widths();
    Pow256Small();
    ToLeTruncates(U64(v), width);
    var k := match width case 1 => 0x100_0000_0000_0000 case 2 => 0x1_0000_0000_0000 case 4 => 0x1_0000_0000
        case _ => 1;
    Wraps(v, Pow256(width), k);
  }

  lemma Pow256Small()
    ensures Pow256(1) == 256 && Pow256(2) == 0x1_0000
  {}

  lemma Wraps(v: int, m: nat, k: nat)
    requires m > 0 && k > 0 && m * k == 0x1_0000_0000_0000_0000
    requires 0 <= m + 2 * v < 2 * m && m <= 0x1_0000_0000_0000_0000
    ensures U64(v) % m == if v < 0 then v + m else v
  {
    if v < 0 {
      assert U64(v) == v + 0x1_0000_0000_0000_0000;
      assert m * (k - 1) == m * k - m;
      DivUnique(U64(v), m, k - 1, v + m);
    } else {
      DivUnique(v, m, 0, v);
    }
  }

  lemma CellsNewKey(was: Table, wasHeads: Heads, texts: Texts, t: Table, heads: Heads, p: nat, key: Key, cells: Cells,
                    top: nat, max: int, numeric: bool)
    requires numeric || CellsOk(was, wasHeads, texts, cells, top, max)
    requires forall q :: q in texts ==> SlotData(t, heads, q) == SlotData(was, wasHeads, q)
    requires SlotData(t, heads, p) == 0
    ensures numeric || CellsOk(t, heads, texts[p := key], cells, top, max)
  {
    hide SlotData;
  }

  lemma TailTexts(t: Table, texts: Texts, h: nat, last: DictTable.Ref)
    requires t.bit >= 1 && Tail(t, texts, h, last)
    ensures t.Has(last) && (t.At(last).keyIndex != 0 ==> texts != map[])
  {
    hide Hash;
  }

  /** Different keys are at different positions of the log. */
  lemma PositionsDiffer(t: Table, heads: Heads, texts: Texts, order: seq<nat>, pos: map<Key, nat>, top: nat)
    requires Consistent(t, heads, texts, order, pos, top)
    ensures forall k :: k in pos ==> pos[k] in texts && texts[pos[k]] == k
    ensures texts != map[] ==> order != []
    ensures forall i :: 0 <= i < |order| ==> order[i] in texts
    ensures forall q :: q in texts ==> q < top + KEY_HEAD
  {
    hide Linked, OneSlot, Placed;
    LogBounds(order, texts, top);
    if texts != map[] {
      var p :| p in texts;
      assert p in order;
    }
  }

  lemma KeysAppended(order: seq<nat>, texts: Texts, p: nat, key: Key)
    requires p !in texts && forall i :: 0 <= i < |order| ==> order[i] in texts
    ensures KeysInOrder(order + [p], texts[p := key]) == KeysInOrder(order, texts) + [key]
  {}

  /** A fresh slot stands for no value yet; in a numeric dictionary what it stands for does not matter. */
  lemma FreshStores(numeric: bool, cells: Cells, x: Datum, kind: nat)
    ensures Stores(numeric, ValueOf(numeric, 0, cells), x, kind) == Stores(numeric, Absent, x, kind)
  {}

  /** The log's keys are exactly the known keys, each once. */
  lemma OrderCovers(order: seq<nat>, texts: Texts, pos: map<Key, nat>, top: nat)
    requires LogOk(order, texts, top) && Inverse(pos, texts)
    ensures forall k :: k in KeysInOrder(order, texts) <==> k in pos
    ensures forall a, b :: 0 <= a < b < |order| ==> KeysInOrder(order, texts)[a] != KeysInOrder(order, texts)[b]
  {
    var keys := KeysInOrder(order, texts);
    forall a, b | 0 <= a < b < |order| ensures keys[a] != keys[b] {
      LogOrdered(order, texts, top, a, b);
      assert order[a] in texts && order[b] in texts;
    }
    forall k | k in pos ensures k in keys {
      assert pos[k] in order;
      var i :| 0 <= i < |order| && order[i] == pos[k];
      assert keys[i] == k;
    }
    forall i | 0 <= i < |order| ensures keys[i] in pos {
      assert order[i] in texts;
    }
  }

  lemma CellAdded(t: Table, heads: Heads, texts: Texts, order: seq<nat>, pos: map<Key, nat>, keyTop: nat,
                  cells: Cells, top: nat, max: int, r: DictTable.Ref, p: nat, c: Cell)
    requires Consistent(t, heads, texts, order, pos, keyTop) && CellsOk(t, heads, texts, cells, top, max)
    requires t.Has(r) && t.At(r).keyIndex == p && p in texts && |c.bytes| <= c.maxLen
    requires top + DATA_HEAD + c.maxLen + 1 <= max
    ensures var d := top + DATA_HEAD; var u := PutData(t, r, d); var more := cells[d := c];
      && Consistent(u, heads, texts, order, pos, keyTop) && CellsOk(u, heads, texts, more, d + c.maxLen + 1, max)
      && (forall q :: q in texts && q != p ==> ValueIn(false, u, heads, more, q) == ValueIn(false, t, heads, cells, q))
      && ValueIn(false, u, heads, more, p) == Stored(c.kind, c.bytes)
  {
    hide CellsOk, PutData, OneSlot, Placed, ValueIn, SlotData, LogOk, Linked, Inverse;
    ConsistentParts(t, heads, texts, order, pos, keyTop);
    PutDataConsistent(t, heads, texts, order, pos, keyTop, r, p, top + DATA_HEAD);
    CellAppended(t, heads, texts, cells, top, max, r, p, c, max);
  }

  lemma ConsistentTail(t: Table, heads: Heads, texts: Texts, order: seq<nat>, pos: map<Key, nat>, top: nat,
                       last: DictTable.Ref, key: Key)
    requires Consistent(t, heads, texts, order, pos, top) && t.bit >= 1 && Tail(t, texts, Hash(t.bit, key), last)
    ensures t.Has(last) && 1 <= t.top
  {
    hide Hash, OneSlot, Placed, LogOk, Inverse, Linked, Tail;
    TailShape(t, texts, Hash(t.bit, key), last);
  }
}
