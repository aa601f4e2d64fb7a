/** hc_num_to_str and hc_str_to_num of src/util/hc_util.c: numbers written backwards into a buffer, and read. */
module NumText {
  import opened Bytes
  import opened Options

  const MINUS: byte := 45

  /** The table g_hex_to_char. */
  function HexChar(d: nat): byte
    requires d < 16
  {
    if d < 10 then 48 + d else 55 + d
  }

  /** The table g_char_to_hex behind its range check: hexadecimal digits of either case. */
  function HexVal(c: byte): Option<nat> {
    if 48 <= c <= 57 then Some(c - 48)
    else if 65 <= c <= 70 then Some(c - 55)
    else if 97 <= c <= 102 then Some(c - 87)
    else None
  }

  function DigitVal(base: nat, c: byte): Option<nat> {
    if base == 16 then HexVal(c) else if 48 <= c <= 57 then Some(c - 48) else None
  }

  /** The writer's digits are 0 to 9 and A to F; the reader takes them in either case, and nothing else. */
  lemma HexTable(d: nat, c: byte)
    requires d < 16
    ensures HexChar(d) == "0123456789ABCDEF"[d] as int
    ensures HexVal(c) == Some(d) <==> c == "0123456789ABCDEF"[d] as int || c == "0123456789abcdef"[d] as int
    ensures DigitVal(10, c) == Some(d) <==> d < 10 && c == "0123456789"[d] as int
    ensures HexVal(c) == None <==> !(48 <= c <= 57 || 65 <= c <= 70 || 97 <= c <= 102)
  {}

  predicate Base(base: nat) {
    base == 10 || base == 16
  }

  /** The digits of a number, highest first; none for zero. */
  function Digits(n: nat, base: nat): seq<byte>
    requires Base(base)
    decreases n
  {
    if n == 0 then [] else Digits(n / base, base) + [HexChar(n % base)]
  }

  function Text(n: int, base: nat): (s: seq<byte>)
    requires Base(base)
  {
    if n == 0 then [48] else (if n < 0 then [MINUS] else []) + Digits(Signed(n < 0, n), base)
  }

  /** The value of `s` read on from `acc`, as long as every byte is a digit. */
  function ValueFrom(acc: nat, base: nat, s: seq<byte>): Option<nat>
    decreases |s|
  {
    if s == [] then Some(acc)
    else
      match DigitVal(base, s[0])
      case None => None
      case Some(d) => ValueFrom(acc * base + d, base, s[1..])
  }

  /** The last digit counts ones, and those before it so many times the base. */
  lemma {:induction false} ValueLast(acc: nat, base: nat, s: seq<byte>, c: byte)
    ensures ValueFrom(acc, base, s + [c])
         == match (ValueFrom(acc, base, s), DigitVal(base, c))
            case (Some(v), Some(d)) => Some(v * base + d)
            case _ => None
    decreases |s|
  {
    if s == [] {
      assert ([] + [c])[1..] == [];
    } else {
      assert (s + [c])[1..] == s[1..] + [c];
      if DigitVal(base, s[0]).Some? {
        ValueLast(acc * base + DigitVal(base, s[0]).value, base, s[1..], c);
      }
    }
  }

  function Signed(neg: bool, v: int): int {
    if neg then 0 - v else v
  }

  /** Storing in 64 bits. */
  function Wrap64(x: int): (r: int)
    ensures -0x8000_0000_0000_0000 <= r < 0x8000_0000_0000_0000
    ensures -0x8000_0000_0000_0000 <= x < 0x8000_0000_0000_0000 ==> r == x
  {
    (x + 0x8000_0000_0000_0000) % 0x1_0000_0000_0000_0000 - 0x8000_0000_0000_0000
  }

  lemma Wrap64Step(x: int, base: nat, d: nat)
    requires Base(base)
    ensures Wrap64(Wrap64(x) * base + d) == Wrap64(x * base + d)
  {
    var q := (x + 0x8000_0000_0000_0000) / 0x1_0000_0000_0000_0000;
    assert Wrap64(x) == x - q * 0x1_0000_0000_0000_0000;
    if base == 10 {
      WrapShift(x * 10 + d, q * 10);
    } else {
      WrapShift(x * 16 + d, q * 16);
    }
  }

  lemma WrapShift(x: int, k: int)
    ensures Wrap64(x - k * 0x1_0000_0000_0000_0000) == Wrap64(x)
  {}

  lemma WrapNeg(x: int)
    ensures Wrap64(0 - Wrap64(x)) == Wrap64(-x)
  {
    var q := (x + 0x8000_0000_0000_0000) / 0x1_0000_0000_0000_0000;
    WrapShift(-x, -q);
  }

  // ---------------------------------------------------------------------------
  // Reading undoes writing
  // ---------------------------------------------------------------------------

  lemma {:induction false} ValueAppend(acc: nat, base: nat, s: seq<byte>, t: seq<byte>)
    requires ValueFrom(acc, base, s).Some?
    ensures ValueFrom(acc, base, s + t) == ValueFrom(ValueFrom(acc, base, s).value, base, t)
    decreases |s|
  {
    if s == [] {
      assert s + t == t;
    } else {
      assert (s + t)[1..] == s[1..] + t;
      ValueAppend(acc * base + DigitVal(base, s[0]).value, base, s[1..], t);
    }
  }

  lemma LastDigit(n: nat, base: nat)
    requires Base(base)
    ensures ValueFrom(n / base, base, [HexChar(n % base)]) == Some(n)
  {
    var d := HexChar(n % base);
    assert n / base * base + n % base == n;
    assert DigitVal(base, d) == Some(n % base);
    assert ValueFrom(n, base, [d][1..]) == Some(n);
  }

  lemma {:induction false} ValueOfDigits(n: nat, base: nat)
    requires Base(base)
    ensures ValueFrom(0, base, Digits(n, base)) == Some(n)
    decreases n
  {
    if n > 0 {
      hide Digits, ValueFrom;
      DigitsStep(n, base);
      ValueOfDigits(n / base, base);
      ValueAppend(0, base, Digits(n / base, base), [HexChar(n % base)]);
      LastDigit(n, base);
    } else {
      NoDigits(base);
    }
  }

  ghost function Pow(base: nat, k: nat): nat {
    if k == 0 then 1 else base * Pow(base, k - 1)
  }

  /** The number of digits is the least that can hold the number. */
  lemma {:induction false} DigitsFit(n: nat, base: nat, k: nat)
    requires Base(base)
    ensures |Digits(n, base)| <= k <==> n < Pow(base, k)
    decreases n
  {
    if n > 0 && k > 0 {
      DigitsFit(n / base, base, k - 1);
    } else if n > 0 {
      assert |Digits(n, base)| > 0;
    } else {
      PowPositive(base, k);
    }
  }

  lemma {:induction false} PowPositive(base: nat, k: nat)
    requires Base(base)
    ensures Pow(base, k) > 0
  {
    if k > 0 {
      PowPositive(base, k - 1);
    }
  }

  // ---------------------------------------------------------------------------
  // The code
  // ---------------------------------------------------------------------------

  lemma DigitsStep(n: nat, base: nat)
    requires Base(base) && n > 0
    ensures Digits(n, base) == Digits(n / base, base) + [HexChar(n % base)] && 0 <= n / base < n
  {
    if base == 10 {
      assert n / 10 < n;
    } else {
      assert n / 16 < n;
    }
  }

  /** The digit loop; `i` is the position before the first digit. */
  method WriteDigits(num0: nat, base: nat, buf: array<byte>, p: nat) returns (i: int)
    requires Base(base) && p < buf.Length && |Digits(num0, base)| <= p + 1
    modifies buf
    ensures -1 <= i <= p && p - i == |Digits(num0, base)| && buf[i + 1..p + 1] == Digits(num0, base)
    ensures forall k :: 0 <= k < buf.Length && !(i < k <= p) ==> buf[k] == old(buf[k])
  {
    hide Digits;
    var num: nat := num0;
    i := p;
    while num != 0
      invariant -1 <= i <= p
      invariant Digits(num0, base) == Digits(num, base) + buf[i + 1..p + 1]
      invariant forall k :: 0 <= k < buf.Length && !(i < k <= p) ==> buf[k] == old(buf[k])
      decreases num
    {
      ghost var tail := buf[i + 1..p + 1];
      DigitsStep(num, base);
      buf[i] := HexChar(num % base);
      assert buf[i..p + 1] == [HexChar(num % base)] + tail;
      num := num / base;
      i := i - 1;
    }
    NoDigits(base);
  }

  lemma NoDigits(base: nat)
    requires Base(base)
    ensures Digits(0, base) == []
  {}

  /** hc_num_to_str: digits from position `p` downwards, a minus sign before them; where the text begins and how long
      it is. The buffer need only have room for the text. */
  method NumToStr(num0: int, base: nat, buf: array<byte>, p: nat) returns (start: nat, len: nat)
    requires Base(base) && -0x8000_0000_0000_0000 < num0 < 0x8000_0000_0000_0000
    requires p < buf.Length && |Text(num0, base)| <= p + 1
    modifies buf
    ensures start + len == p + 1 && buf[start..p + 1] == Text(num0, base)
    ensures forall k :: 0 <= k < buf.Length && !(start <= k <= p) ==> buf[k] == old(buf[k])
  {
    hide Text, Digits;
    TextIs(num0, base);
    var num := num0;
    if 0 == num {
      buf[p] := 48;
      assert buf[p..p + 1] == [48];
      return p, 1;
    }
    var neg := false;
    if 0 > num {
      num := 0 - num;
      neg := true;
    }
    var i := WriteDigits(num, base, buf, p);
    if neg {
      ghost var digits := buf[i + 1..p + 1];
      buf[i] := MINUS;
      i := i - 1;
      assert buf[i + 1..p + 1] == [MINUS] + digits;
    }
    start, len := i + 1, p - i;
  }

  lemma TextIs(num: int, base: nat)
    requires Base(base)
    ensures Text(num, base) == if num == 0 then [48] else if num < 0 then [MINUS] + Digits(-num, base)
        else Digits(num, base)
  {}

  /** hc_str_to_num: a minus sign and digits, read into 64 bits; false when some byte is no digit. */
  method StrToNum(base: nat, str: array<byte>, at: nat, len: nat) returns (num: int, ok: bool)
    requires Base(base) && at < str.Length && at + len <= str.Length
    ensures var neg := str[at] == MINUS;
            var digits := if neg then if len == 0 then [] else str[at + 1..at + len] else str[at..at + len];
            && (ok <==> ValueFrom(0, base, digits).Some?)
            && (ok ==> num == Wrap64(Signed(neg, ValueFrom(0, base, digits).value)))
  {
    var i := 0;
    var neg := false;
    num := 0;
    if MINUS == str[at] {
      neg := true;
      i := 1;
    }
    ghost var digits := if neg then if len == 0 then [] else str[at + 1..at + len] else str[at..at + len];
    ghost var acc: nat := 0;
    while i < len
      invariant num == Wrap64(acc) && (i <= len || (i == 1 && len == 0 && neg))
      invariant ValueFrom(0, base, digits) == ValueFrom(acc, base, if i <= len then str[at + i..at + len] else [])
    {
      ghost var rest := str[at + i..at + len];
      assert rest[0] == str[at + i] && rest[1..] == str[at + i + 1..at + len];
      var c := DigitVal(base, str[at + i]);
      if c == None {
        return num, false;
      }
      Wrap64Step(acc, base, c.value);
      num := Wrap64(num * base + c.value);
      acc := acc * base + c.value;
      i := i + 1;
    }
    ok := true;
    if neg {
      WrapNeg(acc);
      num := Wrap64(0 - num);
    }
  }

  /** Reading gives back every number written, in either base. */
  lemma TextRead(n: int, base: nat)
    requires Base(base)
    ensures var s := Text(n, base);
            && s != [] && (s[0] == MINUS <==> n < 0)
            && ValueFrom(0, base, if n < 0 then s[1..] else s) == Some(Signed(n < 0, n))
  {
    if n != 0 {
      var m: nat := Signed(n < 0, n);
      ValueOfDigits(m, base);
      FirstDigit(m, base);
      assert n < 0 ==> Text(n, base)[1..] == Digits(m, base);
      assert n > 0 ==> Text(n, base) == Digits(m, base);
    } else {
      assert ValueFrom(0, base, [48]) == ValueFrom(0, base, [48][1..]);
    }
  }

  lemma {:induction false} FirstDigit(n: nat, base: nat)
    requires Base(base) && n > 0
    ensures Digits(n, base) != [] && Digits(n, base)[0] != MINUS
    decreases n
  {
    if n / base > 0 {
      FirstDigit(n / base, base);
    }
  }

  /** Writing into any buffer with room and reading back is the identity; the text of a 64-bit number takes at most 20
      bytes in base 10 and 17 in base 16. */
  method WriteThenRead(n: int, base: nat, buf: array<byte>, p: nat) returns (m: int, ok: bool)
    requires Base(base) && -0x8000_0000_0000_0000 < n < 0x8000_0000_0000_0000
    requires p < buf.Length && p + 1 >= (if base == 10 then 20 else 17)
    modifies buf
    ensures ok && m == n
  {
    Width(n, base);
    var start, len := NumToStr(n, base, buf, p);
    TextRead(n, base);
    assert buf[start..start + len] == Text(n, base);
    m, ok := StrToNum(base, buf, start, len);
  }

  lemma Width(n: int, base: nat)
    requires Base(base) && -0x8000_0000_0000_0000 < n < 0x8000_0000_0000_0000
    ensures |Text(n, base)| <= if base == 10 then 20 else 17
  {
    var m: nat := Signed(n < 0, n);
    if base == 10 {
      Pow19();
      DigitsFit(m, 10, 19);
    } else {
      Pow16();
      DigitsFit(m, 16, 16);
    }
  }

  lemma Pow19()
    ensures Pow(10, 19) == 10_000_000_000_000_000_000
  {
    assert Pow(10, 5) == 100_000;
    assert Pow(10, 10) == 10_000_000_000;
    assert Pow(10, 15) == 1_000_000_000_000_000;
  }

  lemma Pow16()
    ensures Pow(16, 16) == 0x1_0000_0000_0000_0000
  {
    assert Pow(16, 4) == 0x1_0000;
    assert Pow(16, 8) == 0x1_0000_0000;
    assert Pow(16, 12) == 0x1_0000_0000_0000;
  }
}
