/** The expiring slots of src/util/hc_time_array.c as values, and what a reader may rely on over all runs. */
module TimeSlots {
  import opened Bytes

  /** TA_RENEW and TA_CHECK of the flag bits. */
  datatype Flags = Flags(renew: bool, check: bool)

  /** `word` is the union of a number and the address of the slot's buffer. */
  datatype Slot = Slot(timeout: int, newIndex: int, word: nat, check: nat, len: nat, userFlag: nat)

  datatype Ring = Ring(slots: seq<Slot>, cur: nat)

  /** The ring after an operation and the slot it leads to, -1 for none. */
  datatype Found = Found(ring: Ring, index: int)

  predicate Shaped(r: Ring) {
    r.cur < |r.slots|
  }

  predicate Live(x: Slot, now: int) {
    now < x.timeout
  }

  /** The second half of a slot's life. */
  predicate Renewable(x: Slot, span: int, now: int) {
    x.timeout - span / 2 <= now < x.timeout
  }

  /** The low 32 bits count the uses of a slot; the count wraps. */
  function CountUse(check: nat): nat {
    check / 0x1_0000_0000 * 0x1_0000_0000 + (check % 0x1_0000_0000 + 1) % 0x1_0000_0000
  }

  function Next(r: Ring): nat
    requires Shaped(r)
  {
    if r.cur + 1 < |r.slots| then r.cur + 1 else 0
  }

  function Taken(x: Slot, span: int, now: int, flags: Flags, check: nat): Slot {
    x.(timeout := span + now, newIndex := -1, check := if flags.check then check else CountUse(x.check))
  }

  /** The slot under the cursor when its time is over. */
  function TakeSlot(r: Ring, span: int, now: int, flags: Flags, check: nat): Found
    requires Shaped(r)
  {
    if Live(r.slots[r.cur], now) then Found(r, -1)
    else Found(Ring(r.slots[r.cur := Taken(r.slots[r.cur], span, now, flags, check)], Next(r)), r.cur)
  }

  /** A renewal gives slot `j` the data of slot `k`, and slot `k` the buffer that slot `j` had. */
  function Move(r: Ring, k: nat, j: nat): Ring
    requires k < |r.slots| && j < |r.slots|
  {
    var x, y := r.slots[k], r.slots[j];
    r.(slots := r.slots[k := x.(newIndex := j, word := y.word)][j := y.(word := x.word, userFlag := x.userFlag)])
  }

  function Renew(r: Ring, k: nat, span: int, now: int): Found
    requires Shaped(r) && k < |r.slots|
  {
    var x := r.slots[k];
    var f := TakeSlot(r, span, now, Flags(false, true), x.check);
    if f.index < 0 then Found(Ring(r.slots[k := x.(timeout := span + now)], k), k)
    else Found(Move(f.ring, k, f.index), f.index)
  }

  /** The slot a read through handle `index` leads to. */
  function ForGet(r: Ring, index: int, span: int, now: int, flags: Flags, check: nat): Found
    requires Shaped(r) && index >= -1
  {
    if index == -1 || index >= |r.slots| then Found(r, -1)
    else
      var x := r.slots[index];
      if flags.check && check != x.check then Found(r, -1)
      else if Renewable(x, span, now) then
        if x.newIndex != -1 then Found(r, x.newIndex)
        else if flags.renew then Renew(r, index, span, now)
        else Found(r, index)
      else if !Live(x, now) then Found(r, -1)
      else Found(r, index)
  }

  // ---------------------------------------------------------------------------
  // One hop is enough
  // ---------------------------------------------------------------------------

  /** While slot `k` lives, the slot it was renewed into lives longer, has not begun its own second half, has not been
      renewed itself and answers to the same check. */
  ghost predicate Forwards(slots: seq<Slot>, span: int, now: int, k: nat)
    requires k < |slots|
  {
    Live(slots[k], now) && slots[k].newIndex != -1 ==>
      var j := slots[k].newIndex;
      && slots[k].timeout - span / 2 <= now
      && 0 <= j < |slots| && j != k && slots[j].newIndex == -1
      && slots[k].timeout <= slots[j].timeout - span / 2 && slots[k].timeout <= slots[j].timeout
      && slots[j].check == slots[k].check && slots[j].userFlag == slots[k].userFlag
  }

  ghost predicate OneHop(r: Ring, span: int, now: int) {
    && Shaped(r)
    && forall k: nat :: k < |r.slots| ==> Forwards(r.slots, span, now, k)
  }

  /** Where handle `k` leads. */
  function Target(r: Ring, k: nat): (t: nat)
    requires k < |r.slots|
    ensures t < |r.slots|
  {
    if 0 <= r.slots[k].newIndex < |r.slots| then r.slots[k].newIndex else k
  }

  lemma Later(r: Ring, span: int, now: int, later: int)
    requires OneHop(r, span, now) && now <= later
    ensures OneHop(r, span, later)
  {
    forall k: nat | k < |r.slots| ensures Forwards(r.slots, span, later, k) {
      assert Forwards(r.slots, span, now, k);
    }
  }

  lemma TargetLives(r: Ring, span: int, now: int, k: nat)
    requires OneHop(r, span, now) && k < |r.slots| && Live(r.slots[k], now)
    ensures Live(r.slots[Target(r, k)], now) && r.slots[Target(r, k)].newIndex == -1
    ensures r.slots[k].newIndex != -1 ==>
              && Target(r, k) == r.slots[k].newIndex
              && !Renewable(r.slots[Target(r, k)], span, now)
    ensures r.slots[k].newIndex == -1 ==> Target(r, k) == k
    ensures r.slots[Target(r, k)].timeout >= r.slots[k].timeout
  {
    assert Forwards(r.slots, span, now, k);
  }

  /** What taking a slot leaves alone. */
  lemma TakeKeeps(r: Ring, span: int, now: int, flags: Flags, check: nat)
    requires OneHop(r, span, now)
    ensures var f := TakeSlot(r, span, now, flags, check);
            && OneHop(f.ring, span, now) && |f.ring.slots| == |r.slots|
            && (f.index >= 0 ==> f.index < |r.slots| && !Live(r.slots[f.index], now)
                                 && f.ring.slots
                                    == r.slots[f.index := Taken(r.slots[f.index], span, now, flags, check)])
            && (f.index < 0 ==> f.ring == r)
            && forall k: nat :: k < |r.slots| && Live(r.slots[k], now) ==>
                 f.ring.slots[k] == r.slots[k] && Target(f.ring, k) == Target(r, k) && f.index != k &&
                     f.index != Target(r, k)
  {
    var f := TakeSlot(r, span, now, flags, check);
    forall k: nat | k < |r.slots| ensures Forwards(f.ring.slots, span, now, k) {
      assert Forwards(r.slots, span, now, k);
    }
    forall k: nat | k < |r.slots| && Live(r.slots[k], now)
      ensures f.ring.slots[k] == r.slots[k] && Target(f.ring, k) == Target(r, k) && f.index != k
      ensures f.index != Target(r, k)
    {
      TargetLives(r, span, now, k);
    }
  }

  /** The word a reader of handle `k` sees. */
  function Seen(r: Ring, k: nat): nat
    requires k < |r.slots|
  {
    r.slots[Target(r, k)].word
  }

  lemma RenewKeeps(r: Ring, k: nat, span: int, now: int)
    requires OneHop(r, span, now) && k < |r.slots| && Renewable(r.slots[k], span, now) && r.slots[k].newIndex == -1
    ensures var f := Renew(r, k, span, now);
            && OneHop(f.ring, span, now) && |f.ring.slots| == |r.slots|
            && 0 <= f.index < |r.slots| && f.index == Target(f.ring, k) && f.ring.slots[f.index].timeout == span + now
            && f.ring.slots[f.index].newIndex == -1 && f.ring.slots[f.index].check == r.slots[k].check
            && Seen(f.ring, k) == Seen(r, k)
  {
    var x := r.slots[k];
    TakeKeeps(r, span, now, Flags(false, true), x.check);
    var f := Renew(r, k, span, now);
    forall i: nat | i < |r.slots| ensures Forwards(f.ring.slots, span, now, i) {
      assert Forwards(r.slots, span, now, i);
      TargetOfLive(r, span, now, i, k);
    }
  }

  /** A slot in its second half is nobody's target. */
  lemma TargetOfLive(r: Ring, span: int, now: int, i: nat, k: nat)
    requires OneHop(r, span, now) && i < |r.slots| && k < |r.slots| && Renewable(r.slots[k], span, now)
    ensures Live(r.slots[i], now) && i != k ==> Target(r, i) != k
  {
    if Live(r.slots[i], now) {
      TargetLives(r, span, now, i);
    }
  }

  lemma RenewOthers(r: Ring, k: nat, span: int, now: int, i: nat)
    requires OneHop(r, span, now) && k < |r.slots| && Renewable(r.slots[k], span, now) && r.slots[k].newIndex == -1
    requires i < |r.slots| && i != k && Live(r.slots[i], now)
    ensures var f := Renew(r, k, span, now);
            && f.ring.slots[i] == r.slots[i] && Target(f.ring, i) == Target(r, i) && Seen(f.ring, i) == Seen(r, i)
  {
    TakeKeeps(r, span, now, Flags(false, true), r.slots[k].check);
    TargetOfLive(r, span, now, i, k);
    TargetLives(r, span, now, i);
  }

  /** A read: which handles it answers, what it leads to, and what it leaves alone. */
  lemma ForGetKeeps(r: Ring, index: int, span: int, now: int, flags: Flags, check: nat)
    requires OneHop(r, span, now) && index >= -1
    ensures var f := ForGet(r, index, span, now, flags, check);
            && OneHop(f.ring, span, now) && |f.ring.slots| == |r.slots|
            && (f.index == -1 <==> index == -1 || index >= |r.slots| || (flags.check && check != r.slots[index].check)
                                   || !Live(r.slots[index], now))
            && (f.index == -1 ==> f.ring == r)
            && (f.index != -1 ==> 0 <= f.index < |r.slots| && Live(f.ring.slots[f.index], now))
            && forall k: nat :: k < |r.slots| && Live(r.slots[k], now) ==>
                 && Live(f.ring.slots[k], now) && f.ring.slots[k].timeout >= r.slots[k].timeout
                 && f.ring.slots[k].check == r.slots[k].check && Seen(f.ring, k) == Seen(r, k)
  {
    var f := ForGet(r, index, span, now, flags, check);
    if 0 <= index < |r.slots| && Live(r.slots[index], now) {
      TargetLives(r, span, now, index);
      if Renewable(r.slots[index], span, now) && r.slots[index].newIndex == -1 {
        RenewKeeps(r, index, span, now);
        forall k: nat | k < |r.slots| && Live(r.slots[k], now)
          ensures Live(f.ring.slots[k], now) && f.ring.slots[k].timeout >= r.slots[k].timeout
          ensures f.ring.slots[k].check == r.slots[k].check && Seen(f.ring, k) == Seen(r, k)
        {
          if k != index {
            RenewOthers(r, index, span, now, k);
          }
        }
      }
    }
  }

  /** Where an answered read leads: to the end of the forwarding, to the data of its handle, and when reads renew, to
      a slot with more than half of its life ahead. */
  lemma ForGetLeads(r: Ring, k: nat, span: int, now: int, flags: Flags, check: nat)
    requires OneHop(r, span, now) && k < |r.slots| && ForGet(r, k, span, now, flags, check).index != -1
    ensures var f := ForGet(r, k, span, now, flags, check);
            && 0 <= f.index < |f.ring.slots| && Target(f.ring, f.index) == f.index
            && f.ring.slots[f.index].word == Seen(r, k)
            && f.ring.slots[f.index].check == r.slots[k].check
            && (flags.renew ==> now + span / 2 < f.ring.slots[f.index].timeout)
  {
    var f := ForGet(r, k, span, now, flags, check);
    TargetLives(r, span, now, k);
    assert Forwards(r.slots, span, now, k);
    if Renewable(r.slots[k], span, now) && r.slots[k].newIndex == -1 {
      RenewKeeps(r, k, span, now);
    }
  }

  // ---------------------------------------------------------------------------
  // The buffers
  // ---------------------------------------------------------------------------

  ghost predicate Inside(x: Slot, base: nat, per: nat, size: nat) {
    base <= x.word && x.word + per <= base + size
  }

  ghost predicate Disjoint(x: Slot, y: Slot, per: nat) {
    x.word + per <= y.word || y.word + per <= x.word
  }

  /** Each slot owns one buffer of `per` bytes of the block at `base`. */
  ghost predicate Buffers(slots: seq<Slot>, base: nat, per: nat, size: nat) {
    && (forall i: nat :: i < |slots| ==> Inside(slots[i], base, per, size))
    && (forall i: nat, j: nat :: i < |slots| && j < |slots| && i != j ==> Disjoint(slots[i], slots[j], per))
  }

  function Words(slots: seq<Slot>): (w: seq<nat>)
    ensures |w| == |slots|
    ensures forall i :: 0 <= i < |w| ==> w[i] == slots[i].word
  {
    seq(|slots|, i requires 0 <= i < |slots| => slots[i].word)
  }

  lemma SwapBag(s: seq<nat>, t: seq<nat>, i: nat, j: nat)
    requires |s| == |t| && i < |s| && j < |s| && i != j && t == s[i := s[j]][j := s[i]]
    ensures multiset(t) == multiset(s)
  {
    var u := s[i := s[j]];
    assert multiset(u) == multiset(s) - multiset{s[i]} + multiset{s[j]};
  }

  /** A renewal into another slot does not take the length along: the length a reader sees survives a read exactly
      when the slot under the cursor happens to hold the same one, or no other slot is taken. */
  lemma LengthSurvives(r: Ring, k: nat, span: int, now: int, flags: Flags, check: nat)
    requires OneHop(r, span, now) && k < |r.slots| && ForGet(r, k, span, now, flags, check).index != -1
    ensures var f := ForGet(r, k, span, now, flags, check);
            0 <= f.index < |f.ring.slots| &&
            (f.ring.slots[f.index].len == r.slots[Target(r, k)].len
             <==> (flags.renew && Renewable(r.slots[k], span, now) && r.slots[k].newIndex == -1
                   && !Live(r.slots[r.cur], now)
                   ==> r.slots[r.cur].len == r.slots[k].len))
  {
    TargetLives(r, span, now, k);
    assert Forwards(r.slots, span, now, k);
  }

  /** Reads move buffers between slots but neither lose nor share one. */
  lemma ForGetBuffers(r: Ring, index: int, span: int, now: int, flags: Flags, check: nat, base: nat, per: nat,
                      size: nat)
    requires OneHop(r, span, now) && index >= -1 && Buffers(r.slots, base, per, size)
    ensures Buffers(ForGet(r, index, span, now, flags, check).ring.slots, base, per, size)
    ensures multiset(Words(ForGet(r, index, span, now, flags, check).ring.slots)) == multiset(Words(r.slots))
  {
    var f := ForGet(r, index, span, now, flags, check);
    if f.ring == r {
    } else {
      var g := TakeSlot(r, span, now, Flags(false, true), r.slots[index].check);
      TakeKeeps(r, span, now, Flags(false, true), r.slots[index].check);
      if g.index < 0 {
        assert Words(f.ring.slots) == Words(r.slots);
      } else {
        SwapBag(Words(r.slots), Words(f.ring.slots), index, g.index);
      }
    }
  }

  datatype Store = Store(ring: Ring, mem: seq<byte>)

  datatype Outcome = Outcome(store: Store, index: int)

  predicate StoreShaped(s: Store, base: nat, per: nat) {
    && Shaped(s.ring)
    && forall i: nat ::
         i < |s.ring.slots| ==> base <= s.ring.slots[i].word && s.ring.slots[i].word + per <= base + |s.mem|
  }

  function Clip(data: seq<byte>, per: nat): seq<byte> {
    if |data| > per then data[..per] else data
  }

  /** hc_ta_set_item_mem with index -1: a new slot, its buffer filled with what fits of `data`. */
  function SetMem(s: Store, base: nat, per: nat, span: int, now: int, flags: Flags, check: nat,
                  data: seq<byte>): Outcome
    requires StoreShaped(s, base, per)
  {
    var f := TakeSlot(s.ring, span, now, flags, check);
    if f.index == -1 then Outcome(s, -1)
    else
      var x := f.ring.slots[f.index];
      Outcome(Store(f.ring.(slots := f.ring.slots[f.index := x.(len := |Clip(data, per)|)]),
                    Overwrite(s.mem, x.word - base, Clip(data, per))), f.index)
  }

  /** The buffer a reader of handle `k` sees. */
  function SeenBytes(s: Store, base: nat, per: nat, k: nat): seq<byte>
    requires StoreShaped(s, base, per) && k < |s.ring.slots|
  {
    s.mem[Seen(s.ring, k) - base..][..per]
  }

  /** The invariant of a ring with buffers. */
  ghost predicate Good(s: Store, base: nat, per: nat, span: int, now: int) {
    OneHop(s.ring, span, now) && Buffers(s.ring.slots, base, per, |s.mem|)
  }

  lemma BytesApart(mem: seq<byte>, p: nat, bytes: seq<byte>, q: nat, n: nat)
    requires p + |bytes| <= |mem| && q + n <= |mem| && (p + |bytes| <= q || q + n <= p)
    ensures Overwrite(mem, p, bytes)[q..][..n] == mem[q..][..n]
  {}

  lemma BytesPut(mem: seq<byte>, p: nat, bytes: seq<byte>, n: nat)
    requires p + n <= |mem| && |bytes| <= n
    ensures Overwrite(mem, p, bytes)[p..][..n][..|bytes|] == bytes
  {
    SliceOfSlice(Overwrite(mem, p, bytes), p, n, 0, |bytes|);
    assert Overwrite(mem, p, bytes)[p..][..n] == Overwrite(mem, p, bytes)[p..p + n];
  }

  lemma GoodShape(s: Store, base: nat, per: nat, span: int, now: int)
    requires Good(s, base, per, span, now)
    ensures StoreShaped(s, base, per)
  {
    forall i: nat | i < |s.ring.slots|
      ensures base <= s.ring.slots[i].word && s.ring.slots[i].word + per <= base + |s.mem|
    {
      assert Inside(s.ring.slots[i], base, per, |s.mem|);
    }
  }

  /** Taking a slot and noting a length touch no word. */
  lemma SetMemGood(s: Store, base: nat, per: nat, span: int, now: int, flags: Flags, check: nat, data: seq<byte>)
    requires Good(s, base, per, span, now) && StoreShaped(s, base, per)
    ensures var o := SetMem(s, base, per, span, now, flags, check, data);
            && Good(o.store, base, per, span, now) && StoreShaped(o.store, base, per)
            && |o.store.ring.slots| == |s.ring.slots| && Words(o.store.ring.slots) == Words(s.ring.slots)
  {
    hide Overwrite, Taken;
    var f := TakeSlot(s.ring, span, now, flags, check);
    TakeKeeps(s.ring, span, now, flags, check);
    var o := SetMem(s, base, per, span, now, flags, check, data);
    if f.index >= 0 {
      TakenWord(s.ring.slots[f.index], span, now, flags, check);
      forall i: nat | i < |s.ring.slots| ensures Forwards(o.store.ring.slots, span, now, i) {
        assert Forwards(f.ring.slots, span, now, i);
      }
      assert forall i: nat :: i < |s.ring.slots| ==> o.store.ring.slots[i].word == s.ring.slots[i].word;
      SameWords(s.ring.slots, o.store.ring.slots, base, per, |s.mem|);
      GoodShape(o.store, base, per, span, now);
    }
  }

  lemma TakenWord(x: Slot, span: int, now: int, flags: Flags, check: nat)
    ensures Taken(x, span, now, flags, check).word == x.word
  {}

  lemma SameWords(a: seq<Slot>, b: seq<Slot>, base: nat, per: nat, size: nat)
    requires |a| == |b| && Buffers(a, base, per, size)
    requires forall i: nat :: i < |a| ==> b[i].word == a[i].word
    ensures Buffers(b, base, per, size) && Words(a) == Words(b)
  {
    forall i: nat | i < |b| ensures Inside(b[i], base, per, size) {
      assert Inside(a[i], base, per, size);
    }
    forall i: nat, j: nat | i < |b| && j < |b| && i != j ensures Disjoint(b[i], b[j], per) {
      assert Disjoint(a[i], a[j], per);
    }
  }

  /** A new entry goes into the cursor's slot, if its time is over, and is found again there. */
  lemma SetMemFinds(s: Store, base: nat, per: nat, span: int, now: int, flags: Flags, check: nat, data: seq<byte>)
    requires Good(s, base, per, span, now) && StoreShaped(s, base, per)
    ensures var o := SetMem(s, base, per, span, now, flags, check, data);
            && StoreShaped(o.store, base, per)
            && (o.index == -1 <==> now < s.ring.slots[s.ring.cur].timeout)
            && (o.index != -1 ==> && o.index == s.ring.cur
                                  && o.store.ring.cur == if s.ring.cur + 1 == |s.ring.slots| then 0 else s.ring.cur + 1)
            && (o.index != -1 ==> && 0 <= o.index < |s.ring.slots| && o.index < |o.store.ring.slots|
                                  && o.store.ring.slots[o.index].timeout == span + now
                                  && var len := if |data| < per then |data| else per;
                                     && o.store.ring.slots[o.index].len == len
                                     && SeenBytes(o.store, base, per, o.index)[..len] == data[..len])
  {
    SetMemGood(s, base, per, span, now, flags, check, data);
    hide Good, Overwrite;
    var o := SetMem(s, base, per, span, now, flags, check, data);
    if o.index != -1 {
      BytesPut(s.mem, s.ring.slots[o.index].word - base, Clip(data, per), per);
    }
  }

  /** A new entry touches no live data. */
  lemma SetMemOthers(s: Store, base: nat, per: nat, span: int, now: int, flags: Flags, check: nat, data: seq<byte>,
                     k: nat)
    requires Good(s, base, per, span, now) && StoreShaped(s, base, per)
    requires k < |s.ring.slots| && Live(s.ring.slots[k], now)
    ensures var o := SetMem(s, base, per, span, now, flags, check, data);
            && StoreShaped(o.store, base, per) && |o.store.ring.slots| == |s.ring.slots|
            && o.store.ring.slots[k] == s.ring.slots[k] && Seen(o.store.ring, k) == Seen(s.ring, k)
            && SeenBytes(o.store, base, per, k) == SeenBytes(s, base, per, k)
  {
    hide Overwrite, Taken;
    SetMemGood(s, base, per, span, now, flags, check, data);
    var f := TakeSlot(s.ring, span, now, flags, check);
    TakeKeeps(s.ring, span, now, flags, check);
    if f.index >= 0 {
      var t := Target(s.ring, k);
      TakenWord(s.ring.slots[f.index], span, now, flags, check);
      assert Disjoint(s.ring.slots[f.index], s.ring.slots[t], per);
      BytesApart(s.mem, s.ring.slots[f.index].word - base, Clip(data, per), s.ring.slots[t].word - base, per);
    }
  }

  /** calloc and hc_time_array_init_data. */
  function FreshSlots(n: nat, base: nat, per: nat): (slots: seq<Slot>)
    ensures |slots| == n
  {
    seq(n, i requires 0 <= i < n => Slot(0, 0, base + i * per, 0, 0, 0))
  }

  /** How many bytes are allocated for `n` buffers of `per` bytes: the product is formed in 32 bits. */
  function BlockSize(n: nat, per: nat): nat {
    n * per % 0x1_0000_0000
  }

  lemma BlockSizeFits(n: nat, per: nat)
    ensures BlockSize(n, per) == n * per <==> n * per < 0x1_0000_0000
  {}

  /** The buffers laid out at the start are disjoint and inside their block if and only if 32 bits hold its size. */
  lemma FreshGood(n: nat, base: nat, per: nat, mem: seq<byte>, span: int, now: int)
    requires n > 0 && |mem| == BlockSize(n, per) && now >= 0
    ensures Good(Store(Ring(FreshSlots(n, base, per), 0), mem), base, per, span, now) <==> n * per < 0x1_0000_0000
    ensures StoreShaped(Store(Ring(FreshSlots(n, base, per), 0), mem), base, per) <==> n * per < 0x1_0000_0000
  {
    hide BlockSize;
    BlockSizeFits(n, per);
    if n * per < 0x1_0000_0000 {
      FreshInside(n, base, per, mem, span, now);
      GoodShape(Store(Ring(FreshSlots(n, base, per), 0), mem), base, per, span, now);
    } else {
      LastOutside(n, base, per, mem);
    }
  }

  lemma LastOutside(n: nat, base: nat, per: nat, mem: seq<byte>)
    requires n > 0 && |mem| == BlockSize(n, per) && n * per >= 0x1_0000_0000
    ensures !Inside(FreshSlots(n, base, per)[n - 1], base, per, |mem|)
  {
    assert (n - 1) * per + per == n * per;
  }

  lemma FreshInside(n: nat, base: nat, per: nat, mem: seq<byte>, span: int, now: int)
    requires n > 0 && |mem| == n * per && now >= 0
    ensures Good(Store(Ring(FreshSlots(n, base, per), 0), mem), base, per, span, now)
  {
    var slots := FreshSlots(n, base, per);
    forall i: nat | i < n ensures Inside(slots[i], base, per, |mem|) {
      Row(i, n, per);
    }
    forall i: nat, j: nat | i < n && j < n && i != j ensures Disjoint(slots[i], slots[j], per) {
      if i < j {
        Row(i, j, per);
      } else {
        Row(j, i, per);
      }
    }
  }

  lemma Row(i: nat, j: nat, per: nat)
    requires i < j
    ensures i * per + per <= j * per
  {
    assert (i + 1) * per <= j * per;
  }

  /** The length is lost by the first entry of every fresh ring of two slots or more: made at `now` and read in the
      second half of its life, its data are all there, but their length has become 0. */
  lemma LengthLost(n: nat, base: nat, per: nat, mem: seq<byte>, span: int, now: int, later: int, check: nat,
                   data: seq<byte>)
    requires n >= 2 && |mem| == n * per < 0x1_0000_0000 && now >= 0 && data != [] && per > 0
    requires now + span - span / 2 <= later < now + span
    ensures var start := Store(Ring(FreshSlots(n, base, per), 0), mem);
            && StoreShaped(start, base, per)
            && var o := SetMem(start, base, per, span, now, Flags(true, true), check, data);
               && o.index == 0 && |o.store.ring.slots| == n
               && o.store.ring.slots[0].len == (if |data| < per then |data| else per) > 0
               && var f := ForGet(o.store.ring, 0, span, later, Flags(true, true), check);
                  && f.index == 1 && |f.ring.slots| == n && f.ring.slots[1].word == o.store.ring.slots[0].word
                  && f.ring.slots[1].len == 0
  {
    FreshGood(n, base, per, mem, span, now);
    GoodShape(Store(Ring(FreshSlots(n, base, per), 0), mem), base, per, span, now);
  }

  /** The check of a slot that has been taken `n` times without one of its own. */
  function Uses(check: nat, n: nat): nat {
    if n == 0 then check else CountUse(Uses(check, n - 1))
  }

  /** It counts in its low 32 bits, and so comes back only after 2^32 times. */
  lemma {:induction false} UsesCount(check: nat, n: nat)
    ensures Uses(check, n) / 0x1_0000_0000 == check / 0x1_0000_0000
    ensures Uses(check, n) % 0x1_0000_0000 == (check % 0x1_0000_0000 + n) % 0x1_0000_0000
    ensures Uses(check, n) == check <==> n % 0x1_0000_0000 == 0
  {
    if n > 0 {
      UsesCount(check, n - 1);
      OneUse(Uses(check, n - 1));
      ModAdd(check % 0x1_0000_0000, n);
    } else {
      ModAdd(check % 0x1_0000_0000, 0);
    }
  }

  lemma OneUse(check: nat)
    ensures CountUse(check) / 0x1_0000_0000 == check / 0x1_0000_0000
    ensures CountUse(check) % 0x1_0000_0000 == (check % 0x1_0000_0000 + 1) % 0x1_0000_0000
  {}

  lemma ModAdd(low: nat, n: nat)
    requires low < 0x1_0000_0000
    ensures n > 0 ==> ((low + (n - 1)) % 0x1_0000_0000 + 1) % 0x1_0000_0000 == (low + n) % 0x1_0000_0000
    ensures (low + n) % 0x1_0000_0000 == low <==> n % 0x1_0000_0000 == 0
  {}

  /** A handle of an earlier entry is refused when it is compared: each new entry that brings no check of its own gives
      its slot another one. */
  lemma OldHandleRefused(s: Store, base: nat, per: nat, span: int, now: int, renew: bool, data: seq<byte>, later: int)
    requires Good(s, base, per, span, now) && StoreShaped(s, base, per)
    ensures var o := SetMem(s, base, per, span, now, Flags(renew, false), 0, data);
            o.index != -1 ==>
              && 0 <= o.index < |s.ring.slots| && o.index < |o.store.ring.slots| && Shaped(o.store.ring)
              && o.store.ring.slots[o.index].check == Uses(s.ring.slots[o.index].check, 1)
              && ForGet(o.store.ring, o.index, span, later, Flags(renew, true), s.ring.slots[o.index].check).index == -1
  {
    if SetMem(s, base, per, span, now, Flags(renew, false), 0, data).index != -1 {
      var check := s.ring.slots[s.ring.cur].check;
      assert Uses(check, 1) == CountUse(Uses(check, 0));
      UsesCount(check, 1);
    }
  }

  // ---------------------------------------------------------------------------
  // Runs
  // ---------------------------------------------------------------------------

  datatype Op =
    | OpSet(now: int, flags: Flags, check: nat, data: seq<byte>)
    | OpGet(now: int, index: nat, flags: Flags, check: nat)

  function Step(s: Store, base: nat, per: nat, span: int, op: Op): Outcome
    requires StoreShaped(s, base, per)
  {
    match op
    case OpSet(now, flags, check, data) => SetMem(s, base, per, span, now, flags, check, data)
    case OpGet(now, index, flags, check) =>
      var f := ForGet(s.ring, index, span, now, flags, check);
      Outcome(Store(f.ring, s.mem), f.index)
  }

  lemma StepKeeps(s: Store, base: nat, per: nat, span: int, op: Op)
    requires Good(s, base, per, span, op.now) && StoreShaped(s, base, per)
    ensures var t := Step(s, base, per, span, op).store;
            && Good(t, base, per, span, op.now) && StoreShaped(t, base, per) && |t.ring.slots| == |s.ring.slots|
            && multiset(Words(t.ring.slots)) == multiset(Words(s.ring.slots))
            && forall k: nat :: k < |s.ring.slots| && Live(s.ring.slots[k], op.now) ==>
                 && Live(t.ring.slots[k], op.now) && t.ring.slots[k].timeout >= s.ring.slots[k].timeout
                 && t.ring.slots[k].check == s.ring.slots[k].check
                 && Seen(t.ring, k) == Seen(s.ring, k) && SeenBytes(t, base, per, k) == SeenBytes(s, base, per, k)
  {
    hide OneHop, Buffers, SetMem, ForGet, StoreShaped, Seen, Words;
    match op
    case OpSet(now, flags, check, data) =>
      SetMemGood(s, base, per, span, now, flags, check, data);
      forall k: nat | k < |s.ring.slots| && Live(s.ring.slots[k], now)
        ensures var t := Step(s, base, per, span, op).store;
                t.ring.slots[k] == s.ring.slots[k] && Seen(t.ring, k) == Seen(s.ring, k)
                && SeenBytes(t, base, per, k) == SeenBytes(s, base, per, k)
      {
        SetMemOthers(s, base, per, span, now, flags, check, data, k);
      }
    case OpGet(now, index, flags, check) =>
      ForGetKeeps(s.ring, index, span, now, flags, check);
      ForGetBuffers(s.ring, index, span, now, flags, check, base, per, |s.mem|);
      GoodShape(Step(s, base, per, span, op).store, base, per, span, now);
  }

  /** The clock never runs backwards. */
  ghost predicate Timely(last: int, ops: seq<Op>)
    decreases |ops|
  {
    ops == [] || (last <= ops[0].now && Timely(ops[0].now, ops[1..]))
  }

  ghost function Clock(last: int, ops: seq<Op>): int
    decreases |ops|
  {
    if ops == [] then last else Clock(ops[0].now, ops[1..])
  }

  lemma {:induction false} ClockForward(last: int, ops: seq<Op>)
    requires Timely(last, ops)
    ensures last <= Clock(last, ops)
    decreases |ops|
  {
    if ops != [] {
      ClockForward(ops[0].now, ops[1..]);
    }
  }

  ghost function Run(s: Store, base: nat, per: nat, span: int, last: int, ops: seq<Op>): (t: Store)
    requires Good(s, base, per, span, last) && Timely(last, ops)
    ensures Good(t, base, per, span, Clock(last, ops)) && |t.ring.slots| == |s.ring.slots| && StoreShaped(t, base, per)
    decreases |ops|
  {
    GoodShape(s, base, per, span, last);
    if ops == [] then s
    else
      Later(s.ring, span, last, ops[0].now);
      StepKeeps(s, base, per, span, ops[0]);
      Run(Step(s, base, per, span, ops[0]).store, base, per, span, ops[0].now, ops[1..])
  }

  /** Whatever others set and read meanwhile, a handle shows the same data as long as its slot's time is not over. */
  lemma {:induction false} HandleKeepsData(s: Store, base: nat, per: nat, span: int, last: int, ops: seq<Op>, k: nat)
    requires Good(s, base, per, span, last) && StoreShaped(s, base, per) && Timely(last, ops) && k < |s.ring.slots|
    requires Live(s.ring.slots[k], Clock(last, ops))
    ensures var t := Run(s, base, per, span, last, ops);
            && Live(t.ring.slots[k], Clock(last, ops)) && t.ring.slots[k].timeout >= s.ring.slots[k].timeout
            && t.ring.slots[k].check == s.ring.slots[k].check
            && Seen(t.ring, k) == Seen(s.ring, k) && SeenBytes(t, base, per, k) == SeenBytes(s, base, per, k)
    decreases |ops|
  {
    if ops != [] {
      hide OneHop, Buffers, Step, StoreShaped, Seen, SeenBytes;
      ClockForward(ops[0].now, ops[1..]);
      Later(s.ring, span, last, ops[0].now);
      StepKeeps(s, base, per, span, ops[0]);
      HandleKeepsData(Step(s, base, per, span, ops[0]).store, base, per, span, ops[0].now, ops[1..], k);
    }
  }

  /** No buffer is ever lost or shared. */
  lemma {:induction false} BuffersPermuted(s: Store, base: nat, per: nat, span: int, last: int, ops: seq<Op>)
    requires Good(s, base, per, span, last) && Timely(last, ops)
    ensures multiset(Words(Run(s, base, per, span, last, ops).ring.slots)) == multiset(Words(s.ring.slots))
    decreases |ops|
  {
    if ops != [] {
      hide OneHop, Buffers, Step, StoreShaped, Seen, SeenBytes, Words;
      GoodShape(s, base, per, span, last);
      Later(s.ring, span, last, ops[0].now);
      StepKeeps(s, base, per, span, ops[0]);
      BuffersPermuted(Step(s, base, per, span, ops[0]).store, base, per, span, ops[0].now, ops[1..]);
    }
  }

  // ---------------------------------------------------------------------------
  // A reader
  // ---------------------------------------------------------------------------

  /** What others do before the reader's next read at `now`. */
  datatype Round = Round(ops: seq<Op>, now: int)

  /** Word, bytes and check behind an answered read. */
  datatype Data = Nothing | Data(word: nat, bytes: seq<byte>, check: nat)

  ghost predicate InTurn(last: int, rounds: seq<Round>)
    decreases |rounds|
  {
    rounds == [] ||
    (Timely(last, rounds[0].ops) && Clock(last, rounds[0].ops) <= rounds[0].now && InTurn(rounds[0].now, rounds[1..]))
  }

  /** No two reads are more than half a span apart. */
  ghost predicate Spaced(last: int, rounds: seq<Round>, span: int)
    decreases |rounds|
  {
    rounds == [] || (rounds[0].now <= last + span / 2 && Spaced(rounds[0].now, rounds[1..], span))
  }

  ghost function DataAt(s: Store, base: nat, per: nat, k: nat): Data
    requires StoreShaped(s, base, per) && k < |s.ring.slots|
  {
    Data(Seen(s.ring, k), SeenBytes(s, base, per, k), s.ring.slots[k].check)
  }

  /** The ring at the reader's next read. */
  ghost function Waited(s: Store, base: nat, per: nat, span: int, last: int, round: Round): (t: Store)
    requires Good(s, base, per, span, last) && Timely(last, round.ops) && Clock(last, round.ops) <= round.now
    ensures Good(t, base, per, span, round.now) && StoreShaped(t, base, per) && |t.ring.slots| == |s.ring.slots|
  {
    var t := Run(s, base, per, span, last, round.ops);
    Later(t.ring, span, Clock(last, round.ops), round.now);
    t
  }

  /** What a reader gets that reads through the handle its last answered read gave, with renewal. */
  ghost function Answers(s: Store, base: nat, per: nat, span: int, last: int, k: nat, check: nat,
                         rounds: seq<Round>): (a: seq<Data>)
    requires Good(s, base, per, span, last) && k < |s.ring.slots| && InTurn(last, rounds)
    ensures |a| == |rounds|
    decreases |rounds|
  {
    if rounds == [] then []
    else
      var now := rounds[0].now;
      var t := Waited(s, base, per, span, last, rounds[0]);
      StepKeeps(t, base, per, span, OpGet(now, k, Flags(true, true), check));
      ForGetKeeps(t.ring, k, span, now, Flags(true, true), check);
      var o := Step(t, base, per, span, OpGet(now, k, Flags(true, true), check));
      if o.index == -1 then [Nothing] + Answers(o.store, base, per, span, now, k, check, rounds[1..])
      else [DataAt(o.store, base, per, o.index)] + Answers(o.store, base, per, span, now, o.index, check, rounds[1..])
  }

  /** One round: a handle good for half a span is read successfully, and the handle it gives is good for half a span. */
  lemma RoundKeeps(s: Store, base: nat, per: nat, span: int, last: int, k: nat, round: Round)
    requires Good(s, base, per, span, last) && StoreShaped(s, base, per) && k < |s.ring.slots|
    requires last + span / 2 < s.ring.slots[k].timeout && round.now <= last + span / 2
    requires Timely(last, round.ops) && Clock(last, round.ops) <= round.now
    ensures var t := Waited(s, base, per, span, last, round);
            var o := Step(t, base, per, span, OpGet(round.now, k, Flags(true, true), s.ring.slots[k].check));
            && Good(o.store, base, per, span, round.now) && StoreShaped(o.store, base, per)
            && |o.store.ring.slots| == |s.ring.slots| && 0 <= o.index < |s.ring.slots|
            && round.now + span / 2 < o.store.ring.slots[o.index].timeout
            && DataAt(o.store, base, per, o.index) == DataAt(s, base, per, k)
  {
    hide OneHop, Buffers, StoreShaped, ForGet, Seen;
    var check := s.ring.slots[k].check;
    HandleKeepsData(s, base, per, span, last, round.ops, k);
    var t := Waited(s, base, per, span, last, round);
    StepKeeps(t, base, per, span, OpGet(round.now, k, Flags(true, true), check));
    ForGetKeeps(t.ring, k, span, round.now, Flags(true, true), check);
    ForGetLeads(t.ring, k, span, round.now, Flags(true, true), check);
    var o := Step(t, base, per, span, OpGet(round.now, k, Flags(true, true), check));
    SeenAtEnd(o.store.ring, o.index);
  }

  lemma SeenAtEnd(r: Ring, k: nat)
    requires k < |r.slots| && Target(r, k) == k
    ensures Seen(r, k) == r.slots[k].word
  {}

  /** A session that is read, with renewal, at least once in every half span never expires: of any number of such reads
      each succeeds, although the check is compared, and shows the same data, whatever others do in between. The handle
      may be that of a new entry or of an earlier read. */
  lemma {:induction false} ReaderKeepsSession(s: Store, base: nat, per: nat, span: int, last: int, k: nat,
                                              rounds: seq<Round>)
    requires Good(s, base, per, span, last) && StoreShaped(s, base, per) && k < |s.ring.slots|
    requires last + span / 2 < s.ring.slots[k].timeout
    requires InTurn(last, rounds) && Spaced(last, rounds, span)
    ensures forall i :: 0 <= i < |rounds| ==>
              Answers(s, base, per, span, last, k, s.ring.slots[k].check, rounds)[i] == DataAt(s, base, per, k)
    decreases |rounds|
  {
    if rounds != [] {
      hide Good, StoreShaped, Step, Seen, SeenBytes, Waited;
      RoundKeeps(s, base, per, span, last, k, rounds[0]);
      var t := Waited(s, base, per, span, last, rounds[0]);
      var o := Step(t, base, per, span, OpGet(rounds[0].now, k, Flags(true, true), s.ring.slots[k].check));
      ReaderKeepsSession(o.store, base, per, span, rounds[0].now, o.index, rounds[1..]);
    }
  }
}
