/** How the key hash spreads keys over partitions. */
module KeyRouting {
  import opened Text
  import opened Numbers
  import opened Metadata

  const PRIME := 16777619

  lemma PrimeHalves(x: nat, t: nat)
    ensures (x * PRIME + t) / 2 == x / 2 * PRIME + (x % 2 * PRIME + t) / 2
    ensures (x * PRIME + t) % 2 == (x + t) % 2
  {
    var h, r := x / 2, x % 2;
    assert x == 2 * h + r;
    assert x * PRIME + t == 2 * (h * PRIME) + (r * PRIME + t);
    assert (r * PRIME + t) % 2 == (r + t) % 2;
  }

  /** The prime is odd, so multiplying by it keeps numbers apart that differ in their low digits. */
  lemma {:induction false} TimesPrime(x: nat, y: nat, t: nat, k: nat)
    ensures Low(x * PRIME + t, k) == Low(y * PRIME + t, k) <==> Low(x, k) == Low(y, k)
    decreases k
  {
    if k == 0 {
    } else {
      var v, w := x * PRIME + t, y * PRIME + t;
      PrimeHalves(x, t);
      PrimeHalves(y, t);
      HalvesAgree(x, y, k);
      HalvesAgree(v, w, k);
      SumParity(x, y, t);
      if x % 2 == y % 2 {
        TimesPrime(x / 2, y / 2, (x % 2 * PRIME + t) / 2, k - 1);
      }
    }
  }

  lemma SumParity(x: nat, y: nat, t: nat)
    ensures (x + t) % 2 == (y + t) % 2 <==> x % 2 == y % 2
  {
  }

  /** One byte of the hash. */
  function Mixed(h: nat, byte: nat): nat {
    Xor(h, byte) * PRIME % WORD
  }

  lemma MixedLow(g: nat, h: nat, b: nat, c: nat, k: nat)
    requires k <= 32
    ensures Low(Mixed(g, b), k) == Low(Mixed(h, c), k) <==> Xor(Low(g, k), Low(b, k)) == Xor(Low(h, k), Low(c, k))
  {
    Powers();
    var x, y := Xor(g, b), Xor(h, c);
    LowLow(x * PRIME, 32, k);
    LowLow(y * PRIME, 32, k);
    TimesPrime(x, y, 0, k);
    XorLow(g, b, k);
    XorLow(h, c, k);
  }

  function Byte(c: char): nat {
    c as int % 256
  }

  lemma HashSnoc(key: string, c: char, all: string)
    requires all == key + [c]
    ensures Fnv1a(all) == Mixed(Fnv1a(key), Byte(c))
  {
    assert all[..|all| - 1] == key;
  }

  lemma {:induction false} HashesApart(before: string, c: char, d: char, after: string, k: nat)
    requires k <= 32
    ensures Low(Fnv1a(before + [c] + after), k) == Low(Fnv1a(before + [d] + after), k) <==>
            Low(Byte(c), k) == Low(Byte(d), k)
    decreases |after|
  {
    var x, y := before + [c], before + [d];
    if after == "" {
      var h := Fnv1a(before);
      assert x + after == x && y + after == y;
      HashSnoc(before, c, x);
      HashSnoc(before, d, y);
      MixedLow(h, h, Byte(c), Byte(d), k);
      XorCancels(Low(Byte(c), k), Low(Byte(d), k), Low(h, k));
    } else {
      var n := |after| - 1;
      var front, last := after[..n], after[n];
      assert x + after == x + front + [last] && y + after == y + front + [last];
      HashesApart(before, c, d, front, k);
      var g, h := Fnv1a(x + front), Fnv1a(y + front);
      HashSnoc(x + front, last, x + after);
      HashSnoc(y + front, last, y + after);
      MixedLow(g, h, Byte(last), Byte(last), k);
      XorCancels(Low(g, k), Low(h, k), Low(Byte(last), k));
    }
  }

  /** Over 2^k partitions two keys that differ in one byte go to the same one if and only if the last k binary
      digits of that byte agree. */
  lemma RoutesApart(before: string, c: char, d: char, after: string, k: nat)
    requires k <= 32
    ensures PartitionForKey(before + [c] + after, Power(k)) == PartitionForKey(before + [d] + after, Power(k)) <==>
            c as int % 256 % Power(k) == d as int % 256 % Power(k)
  {
    HashesApart(before, c, d, after, k);
  }
}
