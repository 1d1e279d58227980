/**
 * Bit vectors, least significant bit first, and the arithmetic of RFC 9669 written on them: a ripple-carry adder, a
 * shift-and-add multiplier, shifts that move bits. Nothing here mentions a modulus; the lemmas below connect each
 * operation to arithmetic on integers cut back to the width.
 */
module BitVectors {
  import opened Words

  type Bits = seq<bool>

  /** The low w bits of an integer in two's complement (negative integers included). */
  function ToBits(w: nat, x: int): (b: Bits)
    ensures |b| == w
  {
    if w == 0 then [] else [x % 2 == 1] + ToBits(w - 1, x / 2)
  }

  /** The unsigned number a bit vector stands for. */
  function Unsigned(b: Bits): nat {
    if b == [] then 0 else (if b[0] then 1 else 0) + 2 * Unsigned(b[1..])
  }

  /** The two's complement number a bit vector stands for. */
  function TwosComplement(b: Bits): int
    requires b != []
  {
    if Sign(b) then Unsigned(b) - Pow2(|b|) else Unsigned(b)
  }

  predicate Sign(b: Bits)
    requires b != []
  {
    b[|b| - 1]
  }

  function Repeat(n: nat, bit: bool): (b: Bits)
    ensures |b| == n
    ensures forall i :: 0 <= i < n ==> b[i] == bit
  {
    if n == 0 then [] else [bit] + Repeat(n - 1, bit)
  }

  function Zeros(n: nat): (b: Bits)
    ensures |b| == n
  {
    Repeat(n, false)
  }

  // Bitwise operations

  function Not(x: Bits): (r: Bits)
    ensures |r| == |x|
  {
    if x == [] then [] else [!x[0]] + Not(x[1..])
  }

  function And(x: Bits, y: Bits): (r: Bits)
    requires |x| == |y|
    ensures |r| == |x|
  {
    if x == [] then [] else [x[0] && y[0]] + And(x[1..], y[1..])
  }

  function Or(x: Bits, y: Bits): (r: Bits)
    requires |x| == |y|
    ensures |r| == |x|
  {
    if x == [] then [] else [x[0] || y[0]] + Or(x[1..], y[1..])
  }

  function Xor(x: Bits, y: Bits): (r: Bits)
    requires |x| == |y|
    ensures |r| == |x|
  {
    if x == [] then [] else [x[0] != y[0]] + Xor(x[1..], y[1..])
  }

  // Arithmetic

  /** A ripple-carry adder; the carry out of the top bit is dropped. */
  function Add(x: Bits, y: Bits, carry: bool): (r: Bits)
    requires |x| == |y|
    ensures |r| == |x|
  {
    if x == [] then []
    else
      var out := (x[0] && y[0]) || (carry && (x[0] || y[0]));
      [(x[0] != y[0]) != carry] + Add(x[1..], y[1..], out)
  }

  function Subtract(x: Bits, y: Bits): Bits
    requires |x| == |y|
  {
    Add(x, Not(y), true)
  }

  function Negate(x: Bits): Bits {
    Add(Not(x), Zeros(|x|), true)
  }

  /** Shift-and-add multiplication of x by y, in the width of x. */
  function Multiply(x: Bits, y: Bits): (r: Bits)
    ensures |r| == |x|
    decreases |y|
  {
    if y == [] then Zeros(|x|)
    else Add(if y[0] then x else Zeros(|x|), ShiftLeft(Multiply(x, y[1..]), 1), false)
  }

  /** x >= y, decided at the highest bit in which they differ. */
  predicate AtLeast(x: Bits, y: Bits)
    requires |x| == |y|
  {
    if x == [] then true
    else if x[1..] == y[1..] then x[0] || !y[0]
    else AtLeast(x[1..], y[1..])
  }

  datatype Quotient = Quotient(q: Bits, r: Bits)

  /** Long division, from the most significant bit of x down: bring down a bit, subtract y if it fits. */
  function Divide(x: Bits, y: Bits): (d: Quotient)
    ensures |d.q| == |x| && |d.r| == |y|
  {
    if x == [] then Quotient([], Zeros(|y|))
    else
      var high := Divide(x[1..], y);
      var partial := [x[0]] + high.r;
      var wide := y + [false];
      if AtLeast(partial, wide) then Quotient([true] + high.q, Subtract(partial, wide)[..|y|])
      else Quotient([false] + high.q, partial[..|y|])
  }

  function Magnitude(x: Bits): (r: Bits)
    requires x != []
    ensures |r| == |x|
  {
    if Sign(x) then Negate(x) else x
  }

  /** Division toward zero by way of the magnitudes. */
  function SignedDivide(x: Bits, y: Bits): (r: Bits)
    requires |x| == |y| > 0
    ensures |r| == |x|
  {
    var q := Divide(Magnitude(x), Magnitude(y)).q;
    if Sign(x) != Sign(y) then Negate(q) else q
  }

  /** The remainder takes the sign of the dividend. */
  function SignedRemainder(x: Bits, y: Bits): (r: Bits)
    requires |x| == |y| > 0
    ensures |r| == |x|
  {
    var r := Divide(Magnitude(x), Magnitude(y)).r;
    if Sign(x) then Negate(r) else r
  }

  /** The low n bits, sign-extended. */
  function SignedMove(x: Bits, n: nat): (r: Bits)
    requires 0 < n <= |x|
    ensures |r| == |x|
  {
    x[..n] + Repeat(|x| - n, Sign(x[..n]))
  }

  function ShiftLeft(x: Bits, n: nat): (r: Bits)
    ensures |r| == |x|
  {
    if n <= |x| then Zeros(n) + x[..|x| - n] else Zeros(|x|)
  }

  function ShiftRight(x: Bits, n: nat, fill: bool): (r: Bits)
    ensures |r| == |x|
  {
    if n <= |x| then x[n..] + Repeat(n, fill) else Repeat(|x|, fill)
  }

  // Reading numbers

  lemma {:induction false} UnsignedOfBits(w: nat, x: int)
    ensures Unsigned(ToBits(w, x)) == Trunc(w, x)
  {
    if w == 0 {
    } else {
      UnsignedOfBits(w - 1, x / 2);
      TruncStep(w, x);
      assert ToBits(w, x)[1..] == ToBits(w - 1, x / 2);
    }
  }

  lemma {:induction false} BitsOfUnsigned(b: Bits)
    ensures ToBits(|b|, Unsigned(b)) == b
    ensures Unsigned(b) < Pow2(|b|)
  {
    if b == [] {
    } else {
      BitsOfUnsigned(b[1..]);
      assert Unsigned(b) / 2 == Unsigned(b[1..]);
      assert b == [b[0]] + b[1..];
    }
  }

  /** Only the residue matters. */
  lemma BitsOfTrunc(w: nat, x: int)
    ensures ToBits(w, Trunc(w, x)) == ToBits(w, x)
  {
    UnsignedOfBits(w, x);
    BitsOfUnsigned(ToBits(w, x));
  }

  lemma {:induction false} BitsSplit(m: nat, n: nat, x: int)
    ensures ToBits(m + n, x) == ToBits(m, x) + ToBits(n, Shr(x, m))
  {
    if m == 0 {
    } else {
      BitsSplit(m - 1, n, x / 2);
      var low, high := ToBits(m - 1, x / 2), ToBits(n, Shr(x, m));
      assert ToBits(m + n, x) == [x % 2 == 1] + (low + high) == ToBits(m, x) + high;
    }
  }

  /** The top bit is the sign, and extending it preserves the number. */
  lemma {:induction false} SignExtend(w: nat, s: nat, x: int)
    requires w > 0
    requires -Pow2(w - 1) <= x < Pow2(w - 1)
    ensures Sign(ToBits(w, x)) == (x < 0)
    ensures ToBits(w + s, x) == ToBits(w, x) + Repeat(s, x < 0)
  {
    hide ToBits;
    BitsUnfold(w, x);
    BitsUnfold(w + s, x);
    if w == 1 {
      assert x == 0 || x == -1;
      BitsUnfold(0, x / 2);
      BitsOfConstant(s, x);
    } else {
      SignExtend(w - 1, s, x / 2);
      var low, sign := ToBits(w - 1, x / 2), Repeat(s, x < 0);
      assert [x % 2 == 1] + (low + sign) == ([x % 2 == 1] + low) + sign;
    }
  }

  lemma {:induction false} BitsOfConstant(s: nat, x: int)
    requires x == 0 || x == -1
    ensures ToBits(s, x) == Repeat(s, x < 0)
  {
    if s == 0 {
    } else {
      BitsOfConstant(s - 1, x / 2);
    }
  }

  lemma TwosComplementOfBits(w: nat, x: int)
    requires w > 0
    ensures TwosComplement(ToBits(w, x)) == AsIntN(w, x)
  {
    var y := AsIntN(w, x);
    AsIntNCongruent(w, x);
    BitsOfTrunc(w, x);
    BitsOfTrunc(w, y);
    SignExtend(w, 0, y);
    UnsignedOfBits(w, y);
    if y < 0 {
      ModUnique(y, Pow2(w), -1, y + Pow2(w));
    } else {
      ModUnique(y, Pow2(w), 0, y);
    }
  }

  lemma AsIntNCongruent(w: nat, x: int)
    requires w > 0
    ensures Trunc(w, AsIntN(w, x)) == Trunc(w, x)
  {
    var h := Pow2(w - 1);
    var q := (x + h) / (2 * h);
    assert x + h == 2 * h * q + (x + h) % (2 * h);
    assert x == AsIntN(w, x) + Pow2(w) * q;
    ModShift(AsIntN(w, x), Pow2(w), q);
  }

  // The operations mean what their names say

  lemma BitsUnfold(w: nat, x: int)
    ensures ToBits(w, x) == if w == 0 then [] else [x % 2 == 1] + ToBits(w - 1, x / 2)
  {
  }

  lemma CarryOut(a: int, b: int, c: int)
    requires 0 <= c <= 1
    ensures (a + b + c) / 2 == a / 2 + b / 2 + (a % 2 + b % 2 + c) / 2
    ensures (a + b + c) % 2 == (a % 2 + b % 2 + c) % 2
  {
  }

  lemma {:induction false} AddMeaning(w: nat, a: int, b: int, carry: bool)
    ensures Add(ToBits(w, a), ToBits(w, b), carry) == ToBits(w, a + b + if carry then 1 else 0)
  {
    hide ToBits;
    var c := if carry then 1 else 0;
    BitsUnfold(w, a);
    BitsUnfold(w, b);
    BitsUnfold(w, a + b + c);
    if w > 0 {
      var out := (a % 2 == 1 && b % 2 == 1) || (carry && (a % 2 == 1 || b % 2 == 1));
      CarryOut(a, b, c);
      AddMeaning(w - 1, a / 2, b / 2, out);
      assert ToBits(w, a)[1..] == ToBits(w - 1, a / 2) && ToBits(w, b)[1..] == ToBits(w - 1, b / 2);
    }
  }

  lemma {:induction false} NotMeaning(w: nat, a: int)
    ensures Not(ToBits(w, a)) == ToBits(w, -a - 1)
  {
    if w == 0 {
    } else {
      NotMeaning(w - 1, a / 2);
      assert (-a - 1) / 2 == -(a / 2) - 1 && (-a - 1) % 2 == 1 - a % 2;
      assert ToBits(w, a)[1..] == ToBits(w - 1, a / 2);
    }
  }

  lemma SubtractMeaning(w: nat, a: int, b: int)
    ensures Subtract(ToBits(w, a), ToBits(w, b)) == ToBits(w, a - b)
  {
    NotMeaning(w, b);
    AddMeaning(w, a, -b - 1, true);
  }

  lemma NegateMeaning(w: nat, a: int)
    ensures Negate(ToBits(w, a)) == ToBits(w, -a)
  {
    NotMeaning(w, a);
    BitsOfConstant(w, 0);
    AddMeaning(w, -a - 1, 0, true);
  }

  lemma {:induction false} MultiplyMeaning(w: nat, a: int, n: nat, b: int)
    ensures Multiply(ToBits(w, a), ToBits(n, b)) == ToBits(w, a * Trunc(n, b))
    decreases n
  {
    BitsOfConstant(w, 0);
    if w == 0 {
    } else if n == 0 {
      assert a * Trunc(n, b) == 0;
    } else {
      var m := Trunc(n - 1, b / 2);
      var low := if b % 2 == 1 then a else 0;
      MultiplyMeaning(w, a, n - 1, b / 2);
      TruncStep(n, b);
      assert ToBits(n, b)[1..] == ToBits(n - 1, b / 2);
      ShiftLeftMeaning(w, a * m, 1);
      assert Shl(a * m, 1) == 2 * Shl(a * m, 0);
      AddMeaning(w, low, a * m * 2, false);
      OneMoreBit(a, m, b);
    }
  }

  lemma OneMoreBit(a: int, m: int, b: int)
    ensures (if b % 2 == 1 then a else 0) + a * m * 2 == a * (2 * m + b % 2)
  {
  }

  lemma {:induction false} ShiftLeftMeaning(w: nat, a: int, n: nat)
    requires n <= w
    ensures ShiftLeft(ToBits(w, a), n) == ToBits(w, Shl(a, n))
  {
    if n == 0 {
    } else {
      var y := Shl(a, n - 1);
      ShiftLeftMeaning(w, a, n - 1);
      assert 2 * y / 2 == y && 2 * y % 2 == 0;
      assert ToBits(w, 2 * y) == [false] + ToBits(w - 1, y);
      BitsSplit(w - 1, 1, y);
      assert ShiftLeft(ToBits(w, a), n) == [false] + ShiftLeft(ToBits(w, a), n - 1)[..w - 1];
    }
  }

  lemma ShiftRightMeaning(w: nat, a: int, n: nat)
    requires 0 < w && n <= w
    requires -Pow2(w - 1) <= a < Pow2(w - 1)
    ensures ShiftRight(ToBits(w, a), n, a < 0) == ToBits(w, Shr(a, n))
  {
    SignExtend(w, n, a);
    DropLowBits(w, a, n);
  }

  /** Dividing by 2^n drops the low n bits of the sign-extended number. */
  lemma DropLowBits(w: nat, a: int, n: nat)
    ensures ToBits(w, Shr(a, n)) == ToBits(w + n, a)[n..]
    ensures n <= w ==> ToBits(w - n, Shr(a, n)) == ToBits(w, a)[n..]
  {
    BitsSplit(n, w, a);
    if n <= w {
      BitsSplit(n, w - n, a);
    }
  }

  /** Logical right shift, for operands that already fit the width. */
  lemma LogicalShiftMeaning(w: nat, a: int, n: nat)
    requires 0 <= a < Pow2(w) && n <= w
    ensures ShiftRight(ToBits(w, a), n, false) == ToBits(w, Shr(a, n))
  {
    SignExtendByZero(w, n, a);
    DropLowBits(w, a, n);
  }

  lemma {:induction false} ShrToZero(w: nat, a: int)
    requires 0 <= a < Pow2(w)
    ensures Shr(a, w) == 0
  {
    if w == 0 {
    } else {
      ShrToZero(w - 1, a / 2);
    }
  }

  lemma SignExtendByZero(w: nat, s: nat, a: int)
    requires 0 <= a < Pow2(w)
    ensures ToBits(w + s, a) == ToBits(w, a) + Zeros(s)
  {
    BitsSplit(w, s, a);
    ShrToZero(w, a);
    BitsOfConstant(s, 0);
  }

  lemma {:induction false} AndMeaning(w: nat, a: nat, b: nat)
    ensures And(ToBits(w, a), ToBits(w, b)) == ToBits(w, BigAnd(a, b))
  {
    if w == 0 {
    } else {
      AndMeaning(w - 1, a / 2, b / 2);
      assert ToBits(w, a)[1..] == ToBits(w - 1, a / 2);
      assert ToBits(w, b)[1..] == ToBits(w - 1, b / 2);
      assert BigAnd(a, b) / 2 == BigAnd(a / 2, b / 2);
    }
  }

  lemma {:induction false} OrMeaning(w: nat, a: nat, b: nat)
    ensures Or(ToBits(w, a), ToBits(w, b)) == ToBits(w, BigOr(a, b))
  {
    if w == 0 {
    } else {
      OrMeaning(w - 1, a / 2, b / 2);
      assert ToBits(w, a)[1..] == ToBits(w - 1, a / 2);
      assert ToBits(w, b)[1..] == ToBits(w - 1, b / 2);
      assert BigOr(a, b) / 2 == BigOr(a / 2, b / 2);
    }
  }

  lemma {:induction false} XorMeaning(w: nat, a: nat, b: nat)
    ensures Xor(ToBits(w, a), ToBits(w, b)) == ToBits(w, BigXor(a, b))
  {
    if w == 0 {
    } else {
      XorMeaning(w - 1, a / 2, b / 2);
      assert ToBits(w, a)[1..] == ToBits(w - 1, a / 2);
      assert ToBits(w, b)[1..] == ToBits(w - 1, b / 2);
      assert BigXor(a, b) / 2 == BigXor(a / 2, b / 2);
    }
  }

  // Division

  lemma SameNumber(x: Bits, y: Bits)
    requires |x| == |y|
    ensures Unsigned(x) == Unsigned(y) <==> x == y
  {
    BitsOfUnsigned(x);
    BitsOfUnsigned(y);
  }

  lemma {:induction false} AtLeastMeaning(x: Bits, y: Bits)
    requires |x| == |y|
    ensures AtLeast(x, y) <==> Unsigned(x) >= Unsigned(y)
  {
    if x != [] {
      AtLeastMeaning(x[1..], y[1..]);
      SameNumber(x[1..], y[1..]);
    }
  }

  /** One step of the division: the partial remainder and the divisor as bits of numbers. */
  lemma DivideStep(bit: bool, r: Bits, y: Bits)
    requires |r| == |y| && Unsigned(r) < Unsigned(y)
    ensures var partial, wide := [bit] + r, y + [false];
            var number := 2 * Unsigned(r) + if bit then 1 else 0;
            if AtLeast(partial, wide)
            then number >= Unsigned(y) && Unsigned(Subtract(partial, wide)[..|y|]) == number - Unsigned(y)
            else number < Unsigned(y) && Unsigned(partial[..|y|]) == number
  {
    hide Subtract, AtLeast, ToBits, Unsigned, Pow2;
    var n, partial, wide := |y|, [bit] + r, y + [false];
    var number := 2 * Unsigned(r) + if bit then 1 else 0;
    BroughtDown(bit, r);
    Widened(y);
    AtLeastMeaning(partial, wide);
    BitsOfUnsigned(y);
    BitsOfUnsigned(partial);
    BitsOfUnsigned(wide);
    if AtLeast(partial, wide) {
      SubtractMeaning(n + 1, number, Unsigned(y));
      Shortened(n, number - Unsigned(y));
    } else {
      Shortened(n, number);
    }
  }

  /** The top bit of a number that fits without it can be dropped. */
  lemma Shortened(n: nat, v: nat)
    requires v < Pow2(n)
    ensures Unsigned(ToBits(n + 1, v)[..n]) == v
  {
    hide ToBits, Unsigned, Pow2;
    BitsSplit(n, 1, v);
    assert ToBits(n + 1, v)[..n] == ToBits(n, v);
    UnsignedOfBits(n, v);
    ModUnique(v, Pow2(n), 0, v);
  }

  lemma BroughtDown(bit: bool, r: Bits)
    ensures Unsigned([bit] + r) == 2 * Unsigned(r) + if bit then 1 else 0
  {
    assert ([bit] + r)[1..] == r;
  }

  lemma {:induction false} Widened(y: Bits)
    ensures Unsigned(y + [false]) == Unsigned(y)
  {
    if y == [] {
      assert [false][1..] == [];
    } else {
      Widened(y[1..]);
      assert (y + [false])[1..] == y[1..] + [false];
    }
  }

  lemma DivideUnfolds(x: Bits, y: Bits)
    requires x != [] && Unsigned(Divide(x[1..], y).r) < Unsigned(y)
    ensures var high := Divide(x[1..], y);
            var number := 2 * Unsigned(high.r) + if x[0] then 1 else 0;
            var fits := number >= Unsigned(y);
            && Divide(x, y).q == [fits] + high.q
            && Unsigned(Divide(x, y).r) == if fits then number - Unsigned(y) else number
  {
    hide AtLeast, Subtract, Unsigned;
    DivideStep(x[0], Divide(x[1..], y).r, y);
  }

  predicate Divides(x: Bits, y: Bits)
    requires Unsigned(y) > 0
  {
    && Unsigned(Divide(x, y).q) == Unsigned(x) / Unsigned(y)
    && Unsigned(Divide(x, y).r) == Unsigned(x) % Unsigned(y)
  }

  lemma DividesOneMore(x: Bits, y: Bits)
    requires x != [] && Unsigned(y) > 0 && Divides(x[1..], y)
    ensures Divides(x, y)
  {
    hide Divide, Unsigned;
    var high, divisor := Divide(x[1..], y), Unsigned(y);
    var bit := if x[0] then 1 else 0;
    DivideUnfolds(x, y);
    BroughtDown(2 * Unsigned(high.r) + bit >= divisor, high.q);
    BroughtDown(x[0], x[1..]);
    assert x == [x[0]] + x[1..];
    LongStep(Unsigned(x[1..]), divisor, bit);
  }

  lemma DividesNothing(y: Bits)
    requires Unsigned(y) > 0
    ensures Divides([], y)
  {
    ZeroNumber(|y|);
    ModUnique(0, Unsigned(y), 0, 0);
  }

  lemma {:induction false} DivideMeaning(x: Bits, y: Bits)
    requires Unsigned(y) > 0
    ensures Divides(x, y)
  {
    hide Divides, Divide, Unsigned;
    if x == [] {
      DividesNothing(y);
    } else {
      DivideMeaning(x[1..], y);
      DividesOneMore(x, y);
    }
  }

  lemma {:induction false} ZeroNumber(n: nat)
    ensures Unsigned(Zeros(n)) == 0
  {
    if n > 0 {
      ZeroNumber(n - 1);
      assert Zeros(n)[1..] == Zeros(n - 1);
    }
  }

  lemma LongStep(tail: nat, divisor: nat, bit: nat)
    requires divisor > 0 && bit <= 1
    ensures var number := 2 * (tail % divisor) + bit;
            var fits := number >= divisor;
            && (2 * tail + bit) / divisor == 2 * (tail / divisor) + (if fits then 1 else 0)
            && (2 * tail + bit) % divisor == if fits then number - divisor else number
  {
    var number := 2 * (tail % divisor) + bit;
    var q, r := tail / divisor, tail % divisor;
    assert tail == divisor * q + r;
    if number >= divisor {
      assert divisor * (2 * q + 1) == 2 * (divisor * q) + divisor;
      ModUnique(2 * tail + bit, divisor, 2 * q + 1, number - divisor);
    } else {
      assert divisor * (2 * q) == 2 * (divisor * q);
      ModUnique(2 * tail + bit, divisor, 2 * q, number);
    }
  }

  lemma DivideBits(w: nat, a: nat, b: nat)
    requires a < Pow2(w) && 0 < b < Pow2(w)
    ensures Divide(ToBits(w, a), ToBits(w, b)).q == ToBits(w, a / b)
    ensures Divide(ToBits(w, a), ToBits(w, b)).r == ToBits(w, a % b)
  {
    hide Divide, ToBits, Unsigned, Pow2;
    UnsignedOfBits(w, a);
    UnsignedOfBits(w, b);
    ModUnique(a, Pow2(w), 0, a);
    ModUnique(b, Pow2(w), 0, b);
    var d := Divide(ToBits(w, a), ToBits(w, b));
    DivideMeaning(ToBits(w, a), ToBits(w, b));
    BitsOfUnsigned(d.q);
    BitsOfUnsigned(d.r);
  }

  // Signed division

  function Abs(x: int): nat {
    if x < 0 then -x else x
  }

  function TowardZero(x: int, y: int): int
    requires y != 0
  {
    if (x < 0) != (y < 0) then -(Abs(x) / Abs(y)) else Abs(x) / Abs(y)
  }

  function RemainderTowardZero(x: int, y: int): int
    requires y != 0
  {
    if x < 0 then -(Abs(x) % Abs(y)) else Abs(x) % Abs(y)
  }

  lemma SignedBits(w: nat, x: int)
    requires w > 0
    ensures var v := AsIntN(w, x);
            && ToBits(w, x) == ToBits(w, v)
            && Sign(ToBits(w, x)) == (v < 0)
            && Magnitude(ToBits(w, x)) == ToBits(w, Abs(v))
            && Abs(v) < Pow2(w)
  {
    var v := AsIntN(w, x);
    AsIntNCongruent(w, x);
    BitsOfTrunc(w, x);
    BitsOfTrunc(w, v);
    SignExtend(w, 0, v);
    NegateMeaning(w, v);
  }

  lemma SignedDivideMeaning(w: nat, a: int, b: int)
    requires w > 0 && AsIntN(w, b) != 0
    ensures SignedDivide(ToBits(w, a), ToBits(w, b)) == ToBits(w, TowardZero(AsIntN(w, a), AsIntN(w, b)))
    ensures SignedRemainder(ToBits(w, a), ToBits(w, b)) == ToBits(w, RemainderTowardZero(AsIntN(w, a), AsIntN(w, b)))
  {
    hide ToBits, AsIntN, Divide, Negate, Magnitude, Sign, Pow2, SignedDivide, SignedRemainder;
    SignedBits(w, a);
    SignedBits(w, b);
    MagnitudesDivide(w, ToBits(w, a), ToBits(w, b), AsIntN(w, a), AsIntN(w, b));
  }

  lemma MagnitudesDivide(w: nat, x: Bits, y: Bits, a: int, b: int)
    requires |x| == |y| == w > 0 && b != 0 && Abs(a) < Pow2(w) && Abs(b) < Pow2(w)
    requires Sign(x) == (a < 0) && Sign(y) == (b < 0)
    requires Magnitude(x) == ToBits(w, Abs(a)) && Magnitude(y) == ToBits(w, Abs(b))
    ensures SignedDivide(x, y) == ToBits(w, TowardZero(a, b))
    ensures SignedRemainder(x, y) == ToBits(w, RemainderTowardZero(a, b))
  {
    hide ToBits, Divide, Negate, Magnitude, Sign, Pow2;
    var m, n := Abs(a), Abs(b);
    DivideBits(w, m, n);
    NegateMeaning(w, m / n);
    NegateMeaning(w, m % n);
  }

  lemma SignedMoveMeaning(w: nat, n: nat, x: int)
    requires 0 < n <= w
    ensures SignedMove(ToBits(w, x), n) == ToBits(w, AsIntN(n, x))
  {
    hide ToBits, AsIntN, Sign, Repeat, Pow2, Magnitude;
    var v := AsIntN(n, x);
    SignedBits(n, x);
    InRange(n, x);
    SignExtend(n, w - n, v);
    BitsSplit(n, w - n, x);
    assert ToBits(w, x)[..n] == ToBits(n, x);
  }

  lemma InRange(w: nat, x: int)
    requires w > 0
    ensures -Pow2(w - 1) <= AsIntN(w, x) < Pow2(w - 1)
  {
  }
}
