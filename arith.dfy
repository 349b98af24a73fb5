/** Small facts about Euclidean division by a positive divisor, used by the
    byte-interleaving proofs. Every divisor here is a channel count or a
    sample-group size, hence positive. */
module Arith {

  lemma MulMono(a: int, b: int, c: int)
    requires a <= b && 0 <= c
    ensures a * c <= b * c
  {
    assert b * c - a * c == (b - a) * c;
  }

  /** Quotient and remainder are determined by any decomposition x == q * n + r with 0 <= r < n. */
  lemma DivModUnique(x: int, n: int, q: int, r: int)
    requires n > 0 && 0 <= r < n && x == q * n + r
    ensures x / n == q && x % n == r
  {
    var q', r' := x / n, x % n;
    assert x == q' * n + r';
    if q' > q {
      MulMono(q + 1, q', n);
      assert false;
    } else if q' < q {
      MulMono(q' + 1, q, n);
      assert false;
    }
  }

  lemma MultipleMod(g: int, n: int)
    requires n > 0
    ensures (g * n) % n == 0 && (g * n) / n == g
  {
    DivModUnique(g * n, n, g, 0);
  }

  /** Adding one more multiple of the divisor adds exactly that many to the quotient. */
  lemma DivAddMultiple(x: int, c: int, b: int)
    requires c > 0
    ensures (x + c * b) / c == x / c + b
    ensures (x + c * b) % c == x % c
  {
    DivModUnique(x + c * b, c, x / c + b, x % c);
  }

  lemma DivMono(x: int, y: int, c: int)
    requires c > 0 && x <= y
    ensures x / c <= y / c
  {
    if x / c > y / c {
      MulMono(y / c + 1, x / c, c);
      assert false;
    }
  }

  /** A multiple of n that does not fit below x stays below it after division. */
  lemma MulLeDiv(a: int, c: int, x: int)
    requires c > 0 && a * c <= x
    ensures a <= x / c
  {
    MultipleMod(a, c);
    DivMono(a * c, x, c);
  }

  /** A number strictly between two consecutive multiples of n is not a multiple of n. */
  lemma StrictlyBetweenMultiples(x: int, start: int, n: int)
    requires n > 0 && start % n == 0 && start < x < start + n
    ensures x % n != 0
  {
    DivModUnique(x, n, start / n, x - start);
  }

  /** Offset k * b + l inside a group of c samples of b bytes stays below the group size. */
  lemma OffsetInGroup(k: int, l: int, c: int, b: int)
    requires 0 <= k < c && 0 <= l < b
    ensures k * b + l < c * b
  {
    MulMono(k + 1, c, b);
  }
}
