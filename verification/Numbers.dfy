/** Division, exclusive or, powers of two and low binary digits. */
module Numbers {
  import opened Text

  const WORD := 0x1_0000_0000
  const TOP := 0x8000_0000

  // ---- Division ----

  lemma Multiple(e: int, d: int)
    requires d > 0
    ensures e >= 1 ==> e * d >= d
    ensures e <= -1 ==> e * d <= -d
  {
  }

  lemma DivModUnique(n: int, d: int, q: int, r: int)
    requires d > 0 && n == q * d + r && 0 <= r < d
    ensures n / d == q && n % d == r
  {
    var e := n / d - q;
    assert e * d == r - n % d;
    Multiple(e, d);
  }

  // ---- Exclusive or ----

  lemma {:induction false} XorHalves(a: nat, b: nat)
    ensures Xor(a, b) / 2 == Xor(a / 2, b / 2)
    ensures Xor(a, b) % 2 == if a % 2 == b % 2 then 0 else 1
  {
    if a == 0 || b == 0 {
    } else {
      var half := Xor(a / 2, b / 2);
      assert Xor(a, b) == 2 * half + if a % 2 == b % 2 then 0 else 1;
    }
  }

  lemma {:induction false} XorAssociative(a: nat, b: nat, c: nat)
    ensures Xor(Xor(a, b), c) == Xor(a, Xor(b, c))
    decreases a + b + c
  {
    if a == 0 || b == 0 || c == 0 {
    } else {
      XorAssociative(a / 2, b / 2, c / 2);
      XorHalves(a, b);
      XorHalves(b, c);
      XorHalves(Xor(a, b), c);
      XorHalves(a, Xor(b, c));
    }
  }

  lemma {:induction false} XorSelf(a: nat)
    ensures Xor(a, a) == 0
  {
    if a == 0 {
    } else {
      XorSelf(a / 2);
    }
  }

  lemma {:induction false} XorCommutes(a: nat, b: nat)
    ensures Xor(a, b) == Xor(b, a)
  {
    if a == 0 || b == 0 {
    } else {
      XorCommutes(a / 2, b / 2);
    }
  }

  lemma XorCancels(a: nat, b: nat, c: nat)
    ensures Xor(a, c) == Xor(b, c) <==> a == b
    ensures Xor(c, a) == Xor(c, b) <==> a == b
  {
    XorAssociative(a, c, c);
    XorAssociative(b, c, c);
    XorSelf(c);
    XorCommutes(a, c);
    XorCommutes(b, c);
  }

  lemma XorSwap(a: nat, b: nat, c: nat)
    ensures Xor(Xor(a, b), c) == Xor(Xor(a, c), b)
  {
    XorAssociative(a, b, c);
    XorAssociative(a, c, b);
    XorCommutes(b, c);
  }

  function Power(k: nat): (p: nat)
    ensures p > 0
  {
    if k == 0 then 1 else 2 * Power(k - 1)
  }

  /** b with k zeros after its last binary digit. */
  function Shifted(b: nat, k: nat): nat {
    if k == 0 then b else 2 * Shifted(b, k - 1)
  }

  lemma {:induction false} XorBelow(a: nat, b: nat, k: nat)
    requires a < Power(k) && b < Power(k)
    ensures Xor(a, b) < Power(k)
  {
    if k == 0 {
    } else {
      XorBelow(a / 2, b / 2, k - 1);
      XorHalves(a, b);
    }
  }

  /** A number with bit k set keeps it under exclusive or with a number that has no bit from k on. */
  lemma {:induction false} XorKeepsTop(a: nat, b: nat, k: nat)
    requires a < Power(k) <= b < Power(k + 1)
    ensures Power(k) <= Xor(a, b) < Power(k + 1)
  {
    if k == 0 {
    } else {
      XorKeepsTop(a / 2, b / 2, k - 1);
      XorHalves(a, b);
    }
  }

  lemma Powers()
    ensures Power(8) == 256 && Power(31) == TOP && Power(32) == WORD
  {
    assert Power(8) == 256;
    assert Power(16) == 65536;
    assert Power(24) == 0x1000000;
    assert Power(31) == TOP;
  }

  /** Digits below and above place k do not overlap. */
  lemma {:induction false} XorDisjoint(a: nat, b: nat, k: nat)
    requires a < Power(k)
    ensures Xor(a, Shifted(b, k)) == a + Shifted(b, k)
    decreases k
  {
    if k == 0 {
    } else {
      XorDisjoint(a / 2, b, k - 1);
      XorHalves(a, Shifted(b, k));
    }
  }

  lemma ByteUp(b: nat)
    ensures Shifted(b, 8) == 256 * b
  {
    assert Shifted(b, 1) == 2 * b;
    assert Shifted(b, 3) == 8 * b;
    assert Shifted(b, 5) == 32 * b;
    assert Shifted(b, 7) == 128 * b;
  }

  // ---- Low digits ----

  /** The lowest k binary digits of x. */
  function Low(x: nat, k: nat): nat {
    x % Power(k)
  }

  lemma LowHalves(x: nat, k: nat)
    requires k > 0
    ensures Low(x, k) == 2 * Low(x / 2, k - 1) + x % 2
    ensures Low(x, k) / 2 == Low(x / 2, k - 1) && Low(x, k) % 2 == x % 2
  {
    var p, h := Power(k - 1), x / 2;
    var q, m := h / p, h % p;
    assert h == p * q + m;
    assert x == q * (2 * p) + (2 * m + x % 2);
    DivModUnique(x, 2 * p, q, 2 * m + x % 2);
  }

  lemma {:induction false} LowLow(x: nat, m: nat, k: nat)
    requires k <= m
    ensures Low(Low(x, m), k) == Low(x, k)
  {
    if k == 0 {
    } else {
      LowHalves(x, m);
      LowHalves(x, k);
      LowHalves(Low(x, m), k);
      LowLow(x / 2, m - 1, k - 1);
    }
  }

  lemma {:induction false} XorLow(a: nat, b: nat, k: nat)
    ensures Low(Xor(a, b), k) == Xor(Low(a, k), Low(b, k))
  {
    if k == 0 {
    } else {
      LowHalves(a, k);
      LowHalves(b, k);
      LowHalves(Xor(a, b), k);
      XorHalves(a, b);
      XorHalves(Low(a, k), Low(b, k));
      XorLow(a / 2, b / 2, k - 1);
    }
  }

  lemma HalvesAgree(x: nat, y: nat, k: nat)
    requires k > 0
    ensures Low(x, k) == Low(y, k) <==> x % 2 == y % 2 && Low(x / 2, k - 1) == Low(y / 2, k - 1)
  {
    LowHalves(x, k);
    LowHalves(y, k);
  }
}
