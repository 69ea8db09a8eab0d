/** Numbers as bit sequences, highest bit first, and the bitwise operators on them. */
module Bits {

  function Pow2(n: nat): (p: nat)
    ensures p > 0
  {
    if n == 0 then 1 else 2 * Pow2(n - 1)
  }

  /** The low `w` bits of `n`. */
  function BitsOf(n: nat, w: nat): (b: seq<bool>)
    ensures |b| == w
    decreases w
  {
    if w == 0 then [] else BitsOf(n / 2, w - 1) + [n % 2 == 1]
  }

  function NatOf(b: seq<bool>): nat {
    if b == [] then 0 else 2 * NatOf(b[..|b| - 1]) + if b[|b| - 1] then 1 else 0
  }

  /** `|` on non-negative integers. */
  function Or(a: nat, b: nat): nat
    decreases a + b
  {
    if a == 0 && b == 0 then 0
    else 2 * Or(a / 2, b / 2) + if a % 2 == 1 || b % 2 == 1 then 1 else 0
  }

  /** `&` on non-negative integers. */
  function And(a: nat, b: nat): nat
    decreases a + b
  {
    if a == 0 && b == 0 then 0
    else 2 * And(a / 2, b / 2) + if a % 2 == 1 && b % 2 == 1 then 1 else 0
  }

  lemma TwiceProduct(a: nat, b: nat)
    ensures a * (2 * b) == 2 * (a * b)
  {
  }

  lemma {:induction false} PowAdds(m: nat, n: nat)
    ensures Pow2(m + n) == Pow2(m) * Pow2(n)
    decreases n
  {
    if n > 0 {
      PowAdds(m, n - 1);
      TwiceProduct(Pow2(m), Pow2(n - 1));
    }
  }

  /** Adding into free low bits is what `|` does. */
  lemma {:induction false} OrIsSum(h: nat, x: nat, p: nat)
    requires x < Pow2(p)
    ensures Or(h * Pow2(p), x) == h * Pow2(p) + x
    decreases p
  {
    if p == 0 {
      OrZero(h);
      assert h * 1 == h;
    } else {
      var q := Pow2(p - 1);
      TwiceProduct(h, q);
      OrIsSum(h, x / 2, p - 1);
    }
  }

  lemma {:induction false} OrZero(h: nat)
    ensures Or(h, 0) == h
  {
    if h > 0 {
      OrZero(h / 2);
    }
  }

  /** A mask of `p` ones takes the remainder. */
  lemma {:induction false} AndIsRemainder(a: nat, p: nat)
    ensures And(a, Pow2(p) - 1) == Rem(a, Pow2(p))
    decreases p
  {
    if p == 0 {
      AndZero(a);
    } else {
      var q := Pow2(p - 1);
      AndIsRemainder(a / 2, p - 1);
      assert (2 * q - 1) / 2 == q - 1 && (2 * q - 1) % 2 == 1;
      RemainderSplits(a, q);
    }
  }

  lemma {:induction false} AndZero(a: nat)
    ensures And(a, 0) == 0
  {
    if a > 0 {
      AndZero(a / 2);
    }
  }

  /** Division by a power of two, as `>>` and masks do it. */
  function Quot(n: nat, m: nat): nat
    requires m > 0
  {
    n / m
  }

  function Rem(n: nat, m: nat): (r: nat)
    requires m > 0
    ensures r < m
  {
    n % m
  }

  lemma DivisionLaw(n: nat, m: nat)
    requires m > 0
    ensures n == Quot(n, m) * m + Rem(n, m)
  {
  }

  lemma RemainderSplits(a: nat, q: nat)
    requires q > 0
    ensures Rem(a, 2 * q) == 2 * Rem(a / 2, q) + a % 2
  {
    hide Quot, Rem;
    var k, r := Quot(a / 2, q), Rem(a / 2, q);
    DivisionLaw(a / 2, q);
    TwiceProduct(k, q);
    DivisionIs(a, k, 2 * q, 2 * r + a % 2);
  }

  lemma DivisionIs(a: nat, k: nat, m: nat, r: nat)
    requires m > 0 && r < m && a == k * m + r
    ensures Rem(a, m) == r && Quot(a, m) == k
  {
    hide Quot, Rem;
    DivisionLaw(a, m);
    DivisionIsUnique(k, m, r, Quot(a, m), Rem(a, m));
  }

  lemma DivisionIsUnique(k: nat, m: nat, r: nat, k': nat, r': nat)
    requires m > 0 && r < m && r' < m && k * m + r == k' * m + r'
    ensures k == k' && r == r'
  {
    Multiples(k, k', m);
    Multiples(k', k, m);
  }

  lemma {:induction false} Multiples(k: nat, k': nat, m: nat)
    ensures k < k' ==> k' * m >= k * m + m
    decreases k'
  {
    if k < k' {
      NextMultiple(k' - 1, m);
      Multiples(k, k' - 1, m);
    }
  }

  lemma NextMultiple(k: nat, m: nat)
    ensures (k + 1) * m == k * m + m
  {
  }

  /** High bits first, then the low `k`. */
  lemma {:induction false} BitsConcat(a: nat, b: nat, m: nat, k: nat)
    requires b < Pow2(k)
    ensures BitsOf(a * Pow2(k) + b, m + k) == BitsOf(a, m) + BitsOf(b, k)
    decreases k
  {
    if k == 0 {
      assert a * 1 + b == a;
      assert BitsOf(a, m) + [] == BitsOf(a, m);
    } else {
      var n := a * Pow2(k) + b;
      TwiceProduct(a, Pow2(k - 1));
      assert n / 2 == a * Pow2(k - 1) + b / 2 && n % 2 == b % 2;
      BitsConcat(a, b / 2, m, k - 1);
      assert BitsOf(a, m) + (BitsOf(b / 2, k - 1) + [b % 2 == 1]) == BitsOf(a, m) + BitsOf(b / 2, k - 1) + [b % 2 == 1];
    }
  }

  /** A number of `m + k` bits, split. */
  lemma BitsSplit(n: nat, m: nat, k: nat)
    ensures BitsOf(n, m + k) == BitsOf(Quot(n, Pow2(k)), m) + BitsOf(Rem(n, Pow2(k)), k)
  {
    hide BitsOf, Pow2, Quot, Rem;
    DivisionLaw(n, Pow2(k));
    BitsConcat(Quot(n, Pow2(k)), Rem(n, Pow2(k)), m, k);
  }

  lemma {:induction false} NatOfBits(n: nat, w: nat)
    ensures NatOf(BitsOf(n, w)) == Rem(n, Pow2(w))
    decreases w
  {
    if w > 0 {
      NatOfBits(n / 2, w - 1);
      var b := BitsOf(n, w);
      assert b[..|b| - 1] == BitsOf(n / 2, w - 1);
      RemainderSplits(n, Pow2(w - 1));
    }
  }

  lemma {:induction false} NatOfConcat(a: seq<bool>, b: seq<bool>)
    ensures NatOf(a + b) == NatOf(a) * Pow2(|b|) + NatOf(b)
    decreases |b|
  {
    if b == [] {
      assert a + b == a;
    } else {
      var init := b[..|b| - 1];
      assert (a + b)[..|a + b| - 1] == a + init;
      NatOfConcat(a, init);
      TwiceProduct(NatOf(a), Pow2(|init|));
    }
  }
}
