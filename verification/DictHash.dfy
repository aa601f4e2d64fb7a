/** The hash of src/util/hc_dict.c: 16-bit arithmetic over two-byte words of the key. */
module DictHash {
  import opened Bytes

  function Pow2(n: nat): (p: nat)
    ensures p > 0
    ensures n > 0 ==> p >= 2
  {
    if n == 0 then 1 else 2 * Pow2(n - 1)
  }

  lemma Pow2Step(n: nat)
    requires n >= 1
    ensures Pow2(n + 1) == 2 * Pow2(n) && Pow2(n) % 2 == 0
  {}

  /** A C right shift of a non-negative value. */
  function Shr(v: nat, n: nat): (r: nat)
    ensures r <= v
    ensures v > 0 && n > 0 ==> r < v
  {
    if n == 0 then v else Shr(v / 2, n - 1)
  }

  /** The bitwise operators on the low `bits` bits. */
  function Xor(a: nat, b: nat, bits: nat): (r: nat) {
    if bits == 0 then 0 else (a + b) % 2 + 2 * Xor(a / 2, b / 2, bits - 1)
  }

  function And(a: nat, b: nat, bits: nat): (r: nat) {
    if bits == 0 then 0 else (a % 2) * (b % 2) + 2 * And(a / 2, b / 2, bits - 1)
  }

  lemma {:induction false} AndBelow(a: nat, b: nat, bits: nat)
    ensures And(a, b, bits) <= b
  {
    if bits > 0 {
      AndBelow(a / 2, b / 2, bits - 1);
    }
  }

  /** The word read at `top`: a lone byte is sign-extended, otherwise two bytes in little-endian order. */
  function WordAt(key: seq<byte>, top: nat): (w: nat)
    requires top < |key| && (|key| == 1 || top + 1 < |key|)
    ensures w < 0x1_0000
  {
    var lo: int := key[top];
    if |key| == 1 then (if lo < 128 then lo else 0xFF00 + lo)
    else
      var hi: int := key[top + 1];
      lo + 256 * hi
  }

  /** The next read position: two bytes on, or one when only one byte would be left. */
  function NextTop(len: nat, top: nat): nat {
    if len == top + 3 then top + 1 else top + 2
  }

  /** cur + (cur >> bit) + (cur >> 2*bit) + ... */
  function Folded(cur: nat, bit: nat): (s: nat)
    requires bit >= 1
    decreases cur
  {
    if cur == 0 then 0 else cur + Folded(Shr(cur, bit), bit)
  }

  function HashFrom(key: seq<byte>, bit: nat, top: nat, hex: nat): nat
    requires bit >= 1
    requires top < |key| ==> |key| == 1 || top + 1 < |key|
    decreases |key| - top
  {
    if top >= |key| then hex
    else
      var next := NextTop(|key|, top);
      HashFrom(key, bit, next, Xor(hex, (Folded(WordAt(key, top), bit) + bit + next) % 0x1_0000, 16))
  }

  /** The slot of a key in a table of 2^bit slots; the size is cut to a short before 1 is taken off. */
  function Hash(bit: nat, key: seq<byte>): nat
    requires bit >= 1
  {
    And(HashFrom(key, bit, 0, 0), (Pow2(bit) + 0xFFFF) % 0x1_0000, 16)
  }

  lemma {:induction false} Pow2Short(n: nat)
    ensures n <= 16 ==> 0x1_0000 % Pow2(n) == 0 && Pow2(n) <= 0x1_0000
    ensures n >= 16 ==> Pow2(n) >= 0x1_0000
  {
    if n > 16 {
      Pow2Short(n - 1);
    } else {
      assert Pow2(2) == 4 && Pow2(4) == 16 && Pow2(6) == 64 && Pow2(8) == 256 && Pow2(10) == 1024
             && Pow2(12) == 4096 && Pow2(14) == 0x4000 && Pow2(16) == 0x1_0000;
    }
  }

  /** Every key's slot lies inside the table, also for tables larger than 16 bits can index. */
  lemma HashInTable(bit: nat, key: seq<byte>)
    requires bit >= 1
    ensures Hash(bit, key) < Pow2(bit)
  {
    hide HashFrom, And, Pow2;
    AndBelow(HashFrom(key, bit, 0, 0), (Pow2(bit) + 0xFFFF) % 0x1_0000, 16);
    Pow2Short(bit);
    MaskBelow(Pow2(bit));
  }

  lemma MaskBelow(size: nat)
    requires size > 0
    ensures (size + 0xFFFF) % 0x1_0000 < size
  {
    if size <= 0x1_0000 {
      assert (size + 0xFFFF) % 0x1_0000 == size - 1;
    }
  }

  lemma {:induction false} XorZero(b: nat, bits: nat)
    requires b < Pow2(bits)
    ensures Xor(0, b, bits) == b
  {
    if bits > 0 {
      XorZero(b / 2, bits - 1);
    }
  }

  lemma {:induction false} AndOnes(a: nat, bits: nat)
    requires a < Pow2(bits)
    ensures And(a, Pow2(bits) - 1, bits) == a
  {
    if bits > 0 {
      assert (Pow2(bits) - 1) / 2 == Pow2(bits - 1) - 1 && (Pow2(bits) - 1) % 2 == 1;
      AndOnes(a / 2, bits - 1);
    }
  }

  lemma {:induction false} ShrAll(v: nat, n: nat)
    requires v < Pow2(n)
    ensures Shr(v, n) == 0
  {
    if n > 0 {
      ShrAll(v / 2, n - 1);
    }
  }

  /** In a table of 2^16 slots a key of two bytes goes to the slot its bytes name, 18 further on; so no two of them
      share one. */
  lemma TwoByteKeys(a: byte, b: byte)
    ensures Hash(16, [a, b]) == (a + 256 * b + 18) % 0x1_0000
  {
    var key: seq<byte> := [a, b];
    var w := WordAt(key, 0);
    Pow2Short(16);
    ShrAll(w, 16);
    var sum := (w + 18) % 0x1_0000;
    assert Folded(w, 16) == w;
    XorZero(sum, 16);
    AndOnes(sum, 16);
    assert HashFrom(key, 16, 0, 0) == HashFrom(key, 16, 2, sum) == sum;
  }

  /** The inner loop: the shifted copies of one word summed in a short. */
  method FoldWord(word: nat, bit: nat) returns (hexCur: nat)
    requires bit >= 1
    ensures hexCur == Folded(word, bit) % 0x1_0000
  {
    hide Shr;
    var cur := word;
    hexCur := 0;
    ghost var sum: nat := 0;
    while cur != 0
      invariant sum + Folded(cur, bit) == Folded(word, bit)
      invariant hexCur == sum % 0x1_0000
      decreases cur
    {
      AddShort(sum, cur);
      hexCur := (hexCur + cur) % 0x1_0000;
      sum := sum + cur;
      cur := Shr(cur, bit);
    }
  }

  lemma AddShort(a: nat, b: nat)
    ensures (a % 0x1_0000 + b) % 0x1_0000 == (a + b) % 0x1_0000
  {}

  /** hc_dict_key_to_index; every read is inside the key and both loops end. */
  method KeyToIndex(bit: nat, size: nat, key: seq<byte>) returns (index: nat)
    requires bit >= 1 && size == Pow2(bit)
    ensures index == Hash(bit, key) < size
  {
    hide Xor, And, Folded, Pow2, WordAt;
    var hex, top := 0, 0;
    while top < |key|
      invariant top < |key| ==> |key| == 1 || top + 1 < |key|
      invariant HashFrom(key, bit, top, hex) == HashFrom(key, bit, 0, 0)
      decreases |key| - top
    {
      var hexCur := FoldWord(WordAt(key, top), bit);
      top := top + 2;
      if |key| - 1 == top {
        top := top - 1;
      }
      hexCur := (hexCur + bit + top) % 0x1_0000;
      hex := Xor(hex, hexCur, 16);
    }
    HashInTable(bit, key);
    index := And(hex, (size + 0xFFFF) % 0x1_0000, 16);
  }
}
