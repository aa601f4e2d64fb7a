/** HC_TimeArray of src/util/hc_time_array.c: slots and buffers changed in place, as TimeSlots says. */
module TimeArray {
  import opened Bytes
  import opened TimeSlots

  class TimeRing {
    const span: int
    const per: nat
    /** The address of the buffer block. */
    const base: nat
    const items: array<Slot>
    const buf: array<byte>
    var curIndex: nat

    ghost predicate Valid()
      reads this, items, buf
    {
      StoreShaped(State(), base, per)
    }

    ghost function State(): Store
      reads this, items, buf
    {
      Store(Ring(items[..], curIndex), buf[..])
    }

    /** hc_time_array_create and hc_time_array_init_data; less than one slot means 32. All buffers lie inside the block
        allocated for them if and only if 32 bits hold their size. */
    constructor (max: int, timeout: int, per: nat, base: nat)
      ensures fresh(items) && fresh(buf) && items.Length == if 1 > max then 32 else max
      ensures State().ring == Ring(FreshSlots(items.Length, base, per), 0)
      ensures this.span == timeout && this.per == per && this.base == base
      ensures Valid() <==> items.Length * per < 0x1_0000_0000
      ensures Valid() ==> forall now: nat :: Good(State(), base, per, span, now)
    {
      var n: nat := if 1 > max then 32 else max;
      this.span, this.per, this.base := timeout, per, base;
      items := new Slot[n](_ => Slot(0, 0, 0, 0, 0, 0));
      buf := new byte[BlockSize(n, per)];
      curIndex := 0;
      new;
      var startAddr := base;
      for i := 0 to n
        invariant startAddr == base + i * per
        invariant fresh(items) && curIndex == 0
        invariant items[..i] == FreshSlots(n, base, per)[..i]
        invariant forall k :: i <= k < n ==> items[k] == Slot(0, 0, 0, 0, 0, 0)
      {
        items[i] := items[i].(word := startAddr);
        startAddr := startAddr + per;
      }
      assert items[..] == FreshSlots(n, base, per);
      FreshGood(n, base, per, buf[..], span, 0);
      forall now: nat | Valid() ensures Good(State(), base, per, span, now) {
        FreshGood(n, base, per, buf[..], span, now);
      }
    }

    /** ta_get_new_index. */
    method GetNewIndex(now: int, flags: Flags, check: nat) returns (index: int)
      requires Shaped(State().ring)
      modifies this`curIndex, items
      ensures Found(State().ring, index) == TakeSlot(old(State().ring), span, now, flags, check)
    {
      index := curIndex;
      if now < items[index].timeout {
        return -1;
      }
      items[index] := items[index].(timeout := span + now, newIndex := -1);
      if flags.check {
        items[index] := items[index].(check := check);
      } else {
        items[index] := items[index].(check := CountUse(items[index].check));
      }
      curIndex := curIndex + 1;
      if curIndex < items.Length {
        return;
      }
      curIndex := 0;
    }

    /** ta_get_index_for_get without a check function. */
    method GetIndexForGet(index: int, now: int, flags: Flags, check: nat) returns (r: int)
      requires Shaped(State().ring) && index >= -1
      modifies this`curIndex, items
      ensures Found(State().ring, r) == ForGet(old(State().ring), index, span, now, flags, check)
    {
      if index == -1 || index >= items.Length {
        return -1;
      }
      if flags.check && check != items[index].check {
        return -1;
      }
      var itemSec := items[index].timeout;
      var renewSec := itemSec - span / 2;
      if renewSec <= now && itemSec > now {
        var newIndex := items[index].newIndex;
        if -1 == newIndex {
          if flags.renew {
            newIndex := GetNewIndex(now, Flags(false, true), items[index].check);
            if 0 > newIndex {
              items[index] := items[index].(timeout := span + now);
              curIndex := index;
              return index;
            }
            items[index] := items[index].(newIndex := newIndex);
            var tmp := items[newIndex].word;
            items[newIndex] := items[newIndex].(word := items[index].word);
            items[index] := items[index].(word := tmp);
            items[newIndex] := items[newIndex].(userFlag := items[index].userFlag);
            return newIndex;
          }
          return index;
        }
        return newIndex;
      } else if itemSec <= now {
        return -1;
      }
      return index;
    }

    /** hc_ta_get_item and hc_ta_get_itemdata: the slot read, and the start of its buffer. */
    method GetItem(index: int, now: int, flags: Flags, check: nat) returns (r: int, word: nat)
      requires Good(State(), base, per, span, now) && index >= -1
      modifies this`curIndex, items
      ensures Good(State(), base, per, span, now) && Valid()
      ensures r == -1 <==> || index == -1 || index >= items.Length || (flags.check && check != old(items[index].check))
                           || old(items[index].timeout) <= now
      ensures r != -1 ==>
                && 0 <= r < items.Length
                && word == Seen(old(State().ring), index) == Seen(State().ring, index) == items[r].word
      ensures Found(State().ring, r) == ForGet(old(State().ring), index, span, now, flags, check)
    {
      ForGetKeeps(State().ring, index, span, now, flags, check);
      ForGetBuffers(State().ring, index, span, now, flags, check, base, per, buf.Length);
      if ForGet(State().ring, index, span, now, flags, check).index != -1 {
        ForGetLeads(State().ring, index, span, now, flags, check);
      }
      r := GetIndexForGet(index, now, flags, check);
      GoodShape(State(), base, per, span, now);
      word := if r == -1 then 0 else items[r].word;
    }

    /** hc_ta_set_item_mem with index -1. */
    method SetItemMem(now: int, data: seq<byte>, flags: Flags, check: nat) returns (r: int)
      requires Good(State(), base, per, span, now)
      modifies this`curIndex, items, buf
      ensures Good(State(), base, per, span, now) && Valid()
      ensures Outcome(State(), r) == old(SetMem(State(), base, per, span, now, flags, check, data))
      ensures r == -1 <==> old(curIndex < items.Length && items[curIndex].timeout > now)
      ensures r != -1 ==>
                && 0 <= r < items.Length && items[r].timeout == span + now
                && var len := if |data| < per then |data| else per;
                   && items[r].len == len && SeenBytes(State(), base, per, r)[..len] == data[..len]
    {
      hide Good, Buffers, OneHop, Overwrite;
      GoodShape(State(), base, per, span, now);
      SetMemGood(State(), base, per, span, now, flags, check, data);
      SetMemFinds(State(), base, per, span, now, flags, check, data);
      r := GetNewIndex(now, flags, check);
      if -1 == r {
        return;
      }
      var itemData := items[r].word;
      var dataLen := if |data| > per then per else |data|;
      ghost var was := buf[..];
      CopyIn(buf, itemData - base, data[..dataLen]);
      OverwriteIs(was, buf[..], itemData - base, Clip(data, per));
      items[r] := items[r].(len := dataLen);
    }
  }
}
