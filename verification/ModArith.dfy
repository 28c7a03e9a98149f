/** Residue arithmetic modulo a positive `q`: the facts about `%` that scalar and
    point expressions of a prime-order group need. */
module ModArith {

  lemma RemainderUnique(n: int, d: int, r: int, q: int)
    requires 0 <= r < q && n == d * q + r
    ensures n % q == r
  {
    var e := n / q - d;
    assert e * q == r - n % q by {
      assert n == n / q * q + n % q;
      assert e * q == n / q * q - d * q;
    }
    assert e > 0 ==> e * q >= q;
    assert e < 0 ==> e * q <= -q;
  }

  lemma AddMultiple(x: int, k: int, q: int)
    requires q > 0
    ensures (x + k * q) % q == x % q
  {
    assert x + k * q == (x / q + k) * q + x % q by {
      assert x == x / q * q + x % q;
      assert (x / q + k) * q == x / q * q + k * q;
    }
    RemainderUnique(x + k * q, x / q + k, x % q, q);
  }

  /** Reducing a summand first changes nothing. */
  lemma ReduceAdd(a: int, b: int, q: int)
    requires q > 0
    ensures (a % q + b) % q == (a + b) % q
  {
    AddMultiple(a % q + b, a / q, q);
    assert a == a / q * q + a % q;
  }

  /** Reducing a factor first changes nothing. */
  lemma ReduceMul(a: int, b: int, q: int)
    requires q > 0
    ensures (a % q * b) % q == (a * b) % q
  {
    AddMultiple(a % q * b, a / q * b, q);
    assert a * b == a % q * b + a / q * b * q by {
      assert a == a / q * q + a % q;
      assert a / q * q * b == a / q * b * q;
    }
  }

  /** The identity behind a Schnorr-style response: `(alpha - c*x)*h + c*(x*h)` is
      `alpha*h`, whatever is reduced on the way. */
  lemma ResponseCancels(alpha: int, c: int, x: int, h: int, q: int)
    requires q > 0
    ensures ((alpha - c * x) % q * h % q + c * (x * h % q) % q) % q == alpha * h % q
  {
    var s := alpha - c * x;
    ReduceMul(s, h, q);
    ReduceMul(x * h, c, q);
    assert (x * h) % q * c == c * (x * h % q);
    ReduceAdd(s * h, c * (x * h % q) % q, q);
    ReduceAdd(c * (x * h), s * h, q);
    assert (x * h) * c == c * (x * h);
    assert s * h + c * (x * h) == alpha * h by {
      assert s * h == alpha * h - c * x * h;
      assert c * x * h == c * (x * h);
    }
  }
}
