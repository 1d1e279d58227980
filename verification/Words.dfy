/** Fixed-width words as JavaScript BigInts see them: unbounded integers that are cut back to a width. */
module Words {

  type byte = x: int | 0 <= x < 0x100
  type u64 = x: int | 0 <= x < 0x1_0000_0000_0000_0000

  const TWO32: int := 0x1_0000_0000
  const TWO64: int := 0x1_0000_0000_0000_0000

  function Pow2(n: nat): (p: int)
    ensures p >= 1
  {
    if n == 0 then 1 else 2 * Pow2(n - 1)
  }

  /** `BigInt.asUintN(w, x)`: the non-negative residue modulo 2^w. */
  function Trunc(w: nat, x: int): (r: nat)
    ensures r < Pow2(w)
  {
    x % Pow2(w)
  }

  /** `BigInt.asIntN(w, x)`: the residue of x modulo 2^w that lies in [-2^(w-1), 2^(w-1)). */
  function AsIntN(w: nat, x: int): (r: int)
    requires w > 0
    ensures -Pow2(w - 1) <= r < Pow2(w - 1)
  {
    var shifted := x + Pow2(w - 1);
    shifted % Pow2(w) - Pow2(w - 1)
  }

  // BigInt's bitwise operators, on the non-negative operands the interpreter gives them.

  function BigAnd(a: nat, b: nat): nat {
    if a == 0 || b == 0 then 0 else 2 * BigAnd(a / 2, b / 2) + (if a % 2 == 1 && b % 2 == 1 then 1 else 0)
  }

  function BigOr(a: nat, b: nat): nat {
    if a == 0 then b
    else if b == 0 then a
    else 2 * BigOr(a / 2, b / 2) + (if a % 2 == 1 || b % 2 == 1 then 1 else 0)
  }

  function BigXor(a: nat, b: nat): nat {
    if a == 0 then b
    else if b == 0 then a
    else 2 * BigXor(a / 2, b / 2) + (if a % 2 != b % 2 then 1 else 0)
  }

  /** `x << n` on BigInts. */
  function Shl(x: int, n: nat): (r: int)
    ensures x >= 0 ==> r >= x
  {
    if n == 0 then x else 2 * Shl(x, n - 1)
  }

  /** `x >> n` on BigInts: halving rounds down, so the sign stays. */
  function Shr(x: int, n: nat): (r: int)
    ensures x >= 0 <==> r >= 0
    decreases n
  {
    if n == 0 then x else Shr(x / 2, n - 1)
  }

  // Little-endian bytes

  /** The low n bytes of an integer in two's complement, least significant first: what a DataView setter writes. */
  function LeBytes(v: int, n: nat): (b: seq<byte>)
    ensures |b| == n
    decreases n
  {
    if n == 0 then [] else [v % 0x100] + LeBytes(v / 0x100, n - 1)
  }

  /** The unsigned number a DataView getter reads. */
  function LeValue(b: seq<byte>): nat {
    if b == [] then 0 else b[0] as int + 0x100 * LeValue(b[1..])
  }

  method PutLe(buffer: array<byte>, at: nat, v: int, n: nat)
    requires at + n <= buffer.Length
    modifies buffer
    ensures buffer[..] == old(buffer[..at]) + LeBytes(v, n) + old(buffer[at + n..])
  {
    var rest := v;
    for k := 0 to n
      invariant buffer[..at + k] + LeBytes(rest, n - k) == old(buffer[..at]) + LeBytes(v, n)
      invariant buffer[at + k..] == old(buffer[at + k..])
    {
      ghost var before := buffer[..at + k];
      buffer[at + k] := rest % 0x100;
      assert buffer[..at + k + 1] == before + [rest % 0x100];
      rest := rest / 0x100;
    }
    assert buffer[..] == buffer[..at + n] + buffer[at + n..];
  }

  lemma {:induction false} LeValueOfBytes(v: int, n: nat)
    ensures LeValue(LeBytes(v, n)) == Trunc(8 * n, v)
    decreases n
  {
    if n == 0 {
      ModUnique(v, 1, v, 0);
    } else {
      LeValueOfBytes(v / 0x100, n - 1);
      Pow2Plus8(8 * n - 8);
      ModByte(v, Pow2(8 * n - 8));
    }
  }

  lemma ModByte(v: int, m: int)
    requires m > 0
    ensures v % (0x100 * m) == v % 0x100 + 0x100 * ((v / 0x100) % m)
  {
    var h := v / 0x100;
    ModUnique(v, 0x100 * m, h / m, 0x100 * (h % m) + v % 0x100);
  }

  lemma {:induction false} LeBytesOfValue(b: seq<byte>)
    ensures LeBytes(LeValue(b), |b|) == b
    ensures LeValue(b) < Pow2(8 * |b|)
  {
    if b == [] {
    } else {
      LeBytesOfValue(b[1..]);
      Pow2Plus8(8 * |b| - 8);
      assert LeValue(b) / 0x100 == LeValue(b[1..]);
    }
  }

  lemma LeFieldWidths(v: int)
    ensures LeValue(LeBytes(v, 2)) == v % 0x1_0000
    ensures LeValue(LeBytes(v, 4)) == v % 0x1_0000_0000
  {
    Pow2Values();
    LeValueOfBytes(v, 2);
    LeValueOfBytes(v, 4);
  }

  /** Byte strings of one length are equal when they read as equal numbers. */
  lemma LeInjective(a: seq<byte>, b: seq<byte>)
    requires |a| == |b| && LeValue(a) == LeValue(b)
    ensures a == b
  {
    LeBytesOfValue(a);
    LeBytesOfValue(b);
  }

  // Powers of two and residues

  lemma Pow2Values()
    ensures Pow2(8) == 0x100 && Pow2(16) == 0x1_0000
    ensures Pow2(31) == 0x8000_0000 && Pow2(32) == TWO32
    ensures Pow2(63) == 0x8000_0000_0000_0000 && Pow2(64) == TWO64
  {
    hide Pow2;
    Pow2Zero();
    Pow2Plus8(0);
    Pow2Plus8(8);
    Pow2Plus8(16);
    Pow2Plus8(23);
    Pow2Plus8(24);
    Pow2Plus8(32);
    Pow2Plus8(40);
    Pow2Plus8(48);
    Pow2Plus8(56);
    Pow2Doubles(31);
    Pow2Doubles(63);
  }

  lemma Pow2Zero()
    ensures Pow2(0) == 1
  {
  }

  lemma Pow2Doubles(n: nat)
    ensures Pow2(n + 1) == 2 * Pow2(n)
  {
  }

  lemma Pow2Plus8(n: nat)
    ensures Pow2(n + 8) == 0x100 * Pow2(n)
  {
    assert Pow2(n + 2) == 4 * Pow2(n);
    assert Pow2(n + 4) == 4 * Pow2(n + 2);
    assert Pow2(n + 6) == 4 * Pow2(n + 4);
  }

  lemma ModUnique(x: int, m: int, q: int, r: int)
    requires 0 <= r < m
    requires x == m * q + r
    ensures x % m == r && x / m == q
  {
    var d := x / m - q;
    assert m * d == r - x % m by {
      assert x == m * (x / m) + x % m;
      assert m * d == m * (x / m) - m * q;
    }
    MulAwayFromZero(m, d);
  }

  lemma MulAwayFromZero(m: int, d: int)
    requires m > 0
    ensures d >= 1 ==> m * d >= m
    ensures d <= -1 ==> m * d <= -m
  {
    if d >= 1 {
      assert m * (d - 1) >= 0;
    } else if d <= -1 {
      assert m * (d + 1) <= 0;
    }
  }

  /** Adding a multiple of the modulus changes nothing. */
  lemma ModShift(x: int, m: int, k: int)
    requires m > 0
    ensures (x + m * k) % m == x % m
  {
    ModUnique(x + m * k, m, x / m + k, x % m);
  }

  /** The residue of the top half: what an even number leaves modulo 2m. */
  lemma ModDouble(x: int, m: int)
    requires m > 0
    ensures x % (2 * m) == 2 * ((x / 2) % m) + x % 2
  {
    var h := x / 2;
    ModUnique(x, 2 * m, h / m, 2 * (h % m) + x % 2);
  }

  /** Masking with 2^n isolates bit n. */
  lemma {:induction false} TopBit(n: nat, v: nat)
    requires v < 2 * Pow2(n)
    ensures BigAnd(v, Pow2(n)) == if v < Pow2(n) then 0 else Pow2(n)
  {
    if n == 0 {
      assert v == 0 || v == 1;
    } else {
      TopBit(n - 1, v / 2);
    }
  }

  lemma TruncStep(w: nat, x: int)
    requires w > 0
    ensures Trunc(w, x) == 2 * Trunc(w - 1, x / 2) + x % 2
  {
    ModDouble(x, Pow2(w - 1));
  }

  lemma {:induction false} ShlIsProduct(x: int, n: nat)
    ensures Shl(x, n) == x * Pow2(n)
  {
    if n == 0 {
    } else {
      ShlIsProduct(x, n - 1);
    }
  }

  /** Or-ing a value into the clear low bits of another adds them. */
  lemma {:induction false} OrOfDisjoint(k: nat, lo: nat, hi: nat)
    requires lo < Pow2(k)
    ensures Shl(hi, k) >= 0
    ensures BigOr(lo, Shl(hi, k)) == lo + Shl(hi, k)
  {
    if k == 0 {
    } else {
      OrOfDisjoint(k - 1, lo / 2, hi);
      OrOfEven(lo, Shl(hi, k - 1));
    }
  }

  lemma OrOfEven(a: nat, m: nat)
    ensures BigOr(a, 2 * m) == 2 * BigOr(a / 2, m) + a % 2
  {
    var b := 2 * m;
    assert b / 2 == m && b % 2 == 0;
  }

  /** And-ing with 2^k - 1 keeps the low k bits: the interpreter's shift masks 31 and 63. */
  lemma {:induction false} AndOfMask(k: nat, a: nat, mask: nat)
    requires mask == Pow2(k) - 1
    ensures BigAnd(a, mask) == Trunc(k, a)
  {
    if k == 0 {
      ModUnique(a, 1, a, 0);
    } else {
      AndOfMask(k - 1, a / 2, mask / 2);
      TruncStep(k, a);
    }
  }
}
