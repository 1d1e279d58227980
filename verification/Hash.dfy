/** FNV-1a as the two ports write it: a signed 32-bit loop in load-balancer.ts, a masked one in net.py. */
module Hash {
  import opened Words
  import opened Codec

  const PRIME: int := 0x0100_0193
  const OFFSET_BASIS: int := 0x811c_9dc5

  /** A UTF-16 code unit: what load-balancer.ts iterates over. */
  type unit = c: int | 0 <= c < 0x1_0000

  /** A code point: what Python iterates over. On texts of the basic plane the two are the same numbers. */
  type point = c: int | 0 <= c < 0x11_0000

  /** `a ^ b` on JavaScript numbers: both sides become 32-bit patterns, the result is signed. */
  function JsXor(a: int, b: int): i32 {
    Wrap32(BigXor(a % TWO32, b % TWO32))
  }

  /** `Math.imul`. */
  function Imul(a: int, b: int): i32 {
    Wrap32(a * b)
  }

  /** The specification: the hash of the text as an unsigned 32-bit number. */
  function Fnv(hash: nat, text: seq<point>): nat
    decreases |text|
  {
    if text == [] then hash else Fnv(BigXor(hash, text[0]) * PRIME % TWO32, text[1..])
  }

  lemma {:induction false} FnvSnoc(hash: nat, text: seq<point>, c: point)
    ensures Fnv(hash, text + [c]) == BigXor(Fnv(hash, text), c) * PRIME % TWO32
    decreases |text|
  {
    if text == [] {
      assert text + [c] == [c];
      assert Fnv(hash, [c]) == Fnv(BigXor(hash, c) * PRIME % TWO32, []);
    } else {
      FnvSnoc(BigXor(hash, text[0]) * PRIME % TWO32, text[1..], c);
      assert (text + [c])[1..] == text[1..] + [c];
    }
  }

  /** Known answers for the empty text and for the code units 0 and 1. */
  lemma KnownAnswers()
    ensures Fnv(OFFSET_BASIS, []) == 0x811c_9dc5
    ensures Fnv(OFFSET_BASIS, [0]) == 0x050c_5d1f && Fnv(OFFSET_BASIS, [1]) == 0x040c_5b8c
  {
    assert BigXor(OFFSET_BASIS, 0) == OFFSET_BASIS;
    assert BigXor(OFFSET_BASIS, 1) == OFFSET_BASIS - 1 by {
      assert BigXor(OFFSET_BASIS / 2, 0) == OFFSET_BASIS / 2;
    }
    assert [0][1..] == [] && [1][1..] == [];
  }

  /** One signed round and one masked round leave the same 32 bits. */
  lemma RoundsAgree(signed: int, h: nat, c: unit)
    requires signed % TWO32 == h
    ensures Imul(JsXor(signed, c), PRIME) % TWO32 == BigXor(h, c) * PRIME % TWO32
  {
    hide BigXor;
    var x := BigXor(h, c);
    var y: int := JsXor(signed, c);
    assert y % TWO32 == x % TWO32;
    WrapKeepsResidue(y * PRIME);
    ProductResidue(x, y);
  }

  lemma WrapKeepsResidue(x: int)
    ensures Wrap32(x) % TWO32 == x % TWO32
  {
  }

  lemma ProductResidue(x: int, y: int)
    requires x % TWO32 == y % TWO32
    ensures x * PRIME % TWO32 == y * PRIME % TWO32
  {
    var k := x / TWO32 - y / TWO32;
    assert x == y + TWO32 * k;
    ModShift(y * PRIME, TWO32, k * PRIME);
  }

  /** load-balancer.ts */
  method Fnv1aTypeScript(text: seq<unit>) returns (hash: nat)
    ensures hash == Fnv(OFFSET_BASIS, text)
  {
    var h: int := OFFSET_BASIS;
    for i := 0 to |text|
      invariant h % TWO32 == Fnv(OFFSET_BASIS, text[..i])
    {
      RoundsAgree(h, Fnv(OFFSET_BASIS, text[..i]), text[i]);
      FnvSnoc(OFFSET_BASIS, text[..i], text[i]);
      assert text[..i + 1] == text[..i] + [text[i]];
      h := JsXor(h, text[i]);
      h := Imul(h, PRIME);
    }
    assert text[..|text|] == text;
    hash := h % TWO32;
  }

  /** net.py */
  method Fnv1aPython(text: seq<point>) returns (hash: nat)
    ensures hash == Fnv(OFFSET_BASIS, text)
  {
    hash := OFFSET_BASIS;
    for i := 0 to |text|
      invariant hash == Fnv(OFFSET_BASIS, text[..i])
    {
      FnvSnoc(OFFSET_BASIS, text[..i], text[i]);
      assert text[..i + 1] == text[..i] + [text[i]];
      hash := BigXor(hash, text[i]);
      hash := hash * PRIME % TWO32;
    }
    assert text[..|text|] == text;
  }
}
