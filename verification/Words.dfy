/** Unsigned 64-bit arithmetic. */
module Words {

  const TWO64: nat := 0x1_0000_0000_0000_0000

  function Sub64(a: int, b: int): nat {
    (a - b) % TWO64
  }

  /** The value a 64-bit counter shows after counting to n. */
  function Wrap(n: nat): nat {
    if n < TWO64 then n else Wrap(n - TWO64)
  }

  lemma {:induction false} WrapIsModulo(n: nat)
    ensures Wrap(n) == n % TWO64
  {
    if n >= TWO64 {
      WrapIsModulo(n - TWO64);
    }
  }

  /** Wrapping at every step comes to the same as wrapping once. */
  lemma {:induction false} WrapAdd(a: nat, b: nat)
    ensures Wrap(Wrap(a) + b) == Wrap(a + b)
  {
    if a >= TWO64 {
      WrapAdd(a - TWO64, b);
    }
  }

  lemma WrapSum(a: nat, b: nat, c: nat)
    requires Wrap(a) == Wrap(b)
    ensures Wrap(a + Wrap(c)) == Wrap(b + c)
  {
    WrapAdd(c, a);
    WrapAdd(a, c);
    WrapAdd(b, c);
  }
}
