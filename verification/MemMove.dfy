/** hc_mem_move of src/util/hc_util.c with a negative offset: a move towards the front, word by word. */
module MemMove {
  import opened Bytes

  /** `n` bytes from `from` on stand `-offset` bytes further front as well; nothing else has changed. */
  ghost predicate Shifted(now: seq<byte>, was: seq<byte>, from: nat, offset: int, n: nat)
    requires offset < 0 <= from + offset && from + n <= |was| == |now|
  {
    forall k {:trigger now[k]} :: 0 <= k < |now| ==> now[k] == if from + offset <= k < from + offset + n
        then was[k - offset] else was[k]
  }

  /** A load of `n` bytes and a store of the same bytes. */
  method MoveWord(a: array<byte>, from: nat, to: nat, n: nat)
    requires to < from && from + n <= a.Length
    modifies a
    ensures forall k :: 0 <= k < a.Length ==> a[k] == if to <= k < to + n then old(a[from + k - to]) else old(a[k])
  {
    var word := a[from..from + n];
    CopyIn(a, to, word);
    assert forall k :: to <= k < to + n ==> a[k] == a[to..to + n][k - to];
  }

  /** Moving the next `n` bytes after `i` bytes have been moved. */
  method MoveNext(a: array<byte>, start: nat, offset: int, i: nat, n: nat, ghost was: seq<byte>) returns (next: nat)
    requires offset < 0 <= start + offset && start + i + n <= a.Length == |was|
    requires Shifted(a[..], was, start, offset, i)
    modifies a
    ensures next == i + n && Shifted(a[..], was, start, offset, next)
  {
    ghost var mid := a[..];
    MoveWord(a, start + i, start + offset + i, n);
    forall k | 0 <= k < a.Length
      ensures a[..][k] == if start + offset <= k < start + offset + (i + n) then was[k - offset] else was[k]
    {
      if start + offset + i <= k < start + offset + i + n {
        assert a[k] == mid[start + i + k - (start + offset + i)] == mid[k - offset] == was[k - offset];
      } else {
        assert a[k] == mid[k];
      }
    }
    next := i + n;
  }

  /** Equal to memmove: the target holds the source's old bytes though the two may overlap, and no byte outside the
      target changes. Tails of 1 to 7 bytes are moved in pieces of 1, 2 and 4. */
  method MoveFront(a: array<byte>, start: nat, len: nat, offset: int)
    requires offset < 0 <= start + offset && start + len <= a.Length
    modifies a
    ensures Shifted(a[..], old(a[..]), start, offset, len)
    ensures a[start + offset..start + offset + len] == old(a[start..start + len])
  {
    hide Shifted;
    ghost var was := a[..];
    var i := 0;
    NotShifted(was, start, offset);
    while len - i >= 8
      invariant i <= len && Shifted(a[..], was, start, offset, i)
    {
      i := MoveNext(a, start, offset, i, 8, was);
    }
    MoveTail(a, start, len, offset, i, was);
    ShiftedSlice(a[..], was, start, offset, len);
    assert was[start..start + len] == old(a[start..start + len]);
    assert a[..][start + offset..start + offset + len] == a[start + offset..start + offset + len];
  }

  /** The cases below 8. */
  method MoveTail(a: array<byte>, start: nat, len: nat, offset: int, i0: nat, ghost was: seq<byte>)
    requires offset < 0 <= start + offset && start + len <= a.Length == |was| && i0 <= len < i0 + 8
    requires Shifted(a[..], was, start, offset, i0)
    modifies a
    ensures Shifted(a[..], was, start, offset, len)
  {
    hide Shifted;
    var i := i0;
    var curLen := len - i;
    if curLen >= 4 {
      if curLen == 7 || curLen == 5 {
        i := MoveNext(a, start, offset, i, 1, was);
      }
      if curLen >= 6 {
        i := MoveNext(a, start, offset, i, 2, was);
      }
      i := MoveNext(a, start, offset, i, 4, was);
    } else if curLen >= 2 {
      if curLen == 3 {
        i := MoveNext(a, start, offset, i, 1, was);
      }
      i := MoveNext(a, start, offset, i, 2, was);
    } else if curLen == 1 {
      i := MoveNext(a, start, offset, i, 1, was);
    }
  }

  lemma NotShifted(s: seq<byte>, from: nat, offset: int)
    requires offset < 0 <= from + offset && from <= |s|
    ensures Shifted(s, s, from, offset, 0)
  {}

  lemma ShiftedSlice(now: seq<byte>, was: seq<byte>, from: nat, offset: int, n: nat)
    requires offset < 0 <= from + offset && from + n <= |was| == |now| && Shifted(now, was, from, offset, n)
    ensures now[from + offset..from + offset + n] == was[from..from + n]
    ensures now[..from + offset] == was[..from + offset] && now[from + n..] == was[from + n..]
  {
    var a, b := now[from + offset..from + offset + n], was[from..from + n];
    forall j | 0 <= j < n ensures a[j] == b[j] {
      assert a[j] == now[from + offset + j];
    }
  }
}
