/**
 * Effective addresses: vm.ts leaves `reg + off` unwrapped, while ebpf.py and RFC 9669 take it modulo 2^64. An i16
 * offset cannot carry an address from outside around into the context or the stack, unless the context is absurdly
 * long.
 */
module Addresses {
  import opened Words
  import opened Codec
  import opened Machine

  function Wrapped(base: u64, off: i16): u64 {
    (base + off) % TWO64
  }

  /** Room above the context for the largest offset to wrap past without landing inside; any real buffer leaves it. */
  predicate CtxFits(e: Env) {
    CTX_BASE + |e.ctx| <= TWO64 - 0x8000
  }

  lemma AddressesAgree(base: u64, off: i16, size: nat, write: bool, ctxLen: nat)
    requires size > 0 && CTX_BASE + ctxLen <= TWO64 - 0x8000
    ensures Resolve(Wrapped(base, off), size, write, ctxLen)
         == Resolve(EffectiveAddress(base, off), size, write, ctxLen)
  {
  }

  /** The bound is exact: a context that reaches higher is hit by a negative offset that wraps. */
  lemma AddressesAgreeExactly(ctxLen: nat)
    ensures (forall base: u64, off: i16, size: nat, write: bool :: size > 0 ==>
               Resolve(Wrapped(base, off), size, write, ctxLen)
               == Resolve(EffectiveAddress(base, off), size, write, ctxLen))
            <==> CTX_BASE + ctxLen <= TWO64 - 0x8000
  {
    if CTX_BASE + ctxLen > TWO64 - 0x8000 {
      assert Wrapped(0, -0x8000) == TWO64 - 0x8000;
      assert Resolve(Wrapped(0, -0x8000), 1, false, ctxLen) != Resolve(EffectiveAddress(0, -0x8000), 1, false, ctxLen);
    } else {
      forall base: u64, off: i16, size: nat, write: bool | size > 0
        ensures Resolve(Wrapped(base, off), size, write, ctxLen)
             == Resolve(EffectiveAddress(base, off), size, write, ctxLen)
      {
        AddressesAgree(base, off, size, write, ctxLen);
      }
    }
  }
}
