/** Byte buffers and the little-endian integers that C code loads from and stores into them. */
module Bytes {

  type byte = x: int | 0 <= x < 256

  const CR: byte := 13
  const LF: byte := 10
  const SP: byte := 32

  /** The number a little-endian field of any width holds. */
  function FromLe(s: seq<byte>): (n: nat) {
    if s == [] then 0 else s[0] + 256 * FromLe(s[1..])
  }

  /** The low `n` bytes of `v`, least significant first; higher bytes are cut off as in a C store. */
  function ToLe(v: nat, n: nat): (s: seq<byte>)
    ensures |s| == n
  {
    if n == 0 then [] else [v % 256] + ToLe(v / 256, n - 1)
  }

  function Pow256(n: nat): (p: nat)
    ensures p > 0
  {
    if n == 0 then 1 else 256 * Pow256(n - 1)
  }

  lemma Pow256Widths()
    ensures Pow256(4) == 0x1_0000_0000
    ensures Pow256(8) == 0x1_0000_0000_0000_0000
  {
    assert Pow256(2) == 0x1_0000;
    assert Pow256(3) == 0x100_0000;
    assert Pow256(4) == 0x1_0000_0000;
    assert Pow256(5) == 0x100_0000_0000;
    assert Pow256(6) == 0x1_0000_0000_0000;
    assert Pow256(7) == 0x100_0000_0000_0000;
  }

  /** A field that is wide enough gives back the number stored in it. */
  lemma {:induction false} LoadUndoesStore(v: nat, n: nat)
    requires v < Pow256(n)
    ensures FromLe(ToLe(v, n)) == v
  {
    if n > 0 {
      LoadUndoesStore(v / 256, n - 1);
      assert ToLe(v, n)[1..] == ToLe(v / 256, n - 1);
    }
  }

  lemma SliceOfSlice<T>(s: seq<T>, p: nat, n: nat, lo: nat, hi: nat)
    requires p + n <= |s| && lo <= hi <= n
    ensures s[p..p + n][lo..hi] == s[p + lo..p + hi]
  {
    var a, b := s[p..p + n][lo..hi], s[p + lo..p + hi];
    assert forall i :: 0 <= i < |a| ==> a[i] == b[i];
  }

  /** `s` with the bytes from `off` on replaced by `bytes`. */
  function Overwrite(s: seq<byte>, off: nat, bytes: seq<byte>): (r: seq<byte>)
    requires off + |bytes| <= |s|
    ensures |r| == |s|
  {
    s[..off] + bytes + s[off + |bytes|..]
  }

  lemma OverwriteIs(was: seq<byte>, now: seq<byte>, off: nat, bytes: seq<byte>)
    requires |now| == |was| && off + |bytes| <= |was| && now[off..off + |bytes|] == bytes
    requires forall k :: 0 <= k < |was| && !(off <= k < off + |bytes|) ==> now[k] == was[k]
    ensures now == Overwrite(was, off, bytes)
  {
    assert now == now[..off] + now[off..off + |bytes|] + now[off + |bytes|..];
    assert now[..off] == was[..off] && now[off + |bytes|..] == was[off + |bytes|..];
  }

  /** memcpy into `a` at `p`. */
  method CopyIn(a: array<byte>, p: nat, bytes: seq<byte>)
    requires p + |bytes| <= a.Length
    modifies a
    ensures a[p..p + |bytes|] == bytes
    ensures forall k :: 0 <= k < a.Length && !(p <= k < p + |bytes|) ==> a[k] == old(a[k])
  {
    forall k | 0 <= k < |bytes| {
      a[p + k] := bytes[k];
    }
  }
}
