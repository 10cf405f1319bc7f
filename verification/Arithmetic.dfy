// Machine integers.
module Arithmetic {
  // The numbers of values of 32 and of 64 bits.
  const WORD: nat := 0x1_0000_0000
  const TWO64: nat := 0x1_0000_0000_0000_0000

  type word = n: nat | n < WORD

  // Unsigned arithmetic wraps round.
  function Wrap(n: int): word {
    n % WORD
  }

  lemma NoWrap(n: nat)
    requires n < WORD
    ensures Wrap(n) == n
  {
  }

  lemma WrapTwice(a: int, b: int)
    ensures Wrap(Wrap(a) + b) == Wrap(a + b)
  {
    var q := a / WORD;
    assert a + b == a % WORD + b + q * WORD;
  }

  lemma Multiple(k: int, n: nat)
    requires k >= 1
    ensures k * n >= n && (-k) * n <= 0 - n
  {
  }

  // Quotient and remainder are determined.
  lemma Remainder(n: int, q: int, d: nat, r: nat)
    requires n == q * d + r && r < d
    ensures n / d == q && n % d == r
  {
    var e, t := n / d, n % d;
    assert n == e * d + t;
    assert (e - q) * d == e * d - q * d;
    assert (q - e) * d == q * d - e * d;
    if e > q {
      Multiple(e - q, d);
    } else if e < q {
      Multiple(q - e, d);
    }
  }
}
