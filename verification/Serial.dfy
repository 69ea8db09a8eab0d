/**
 Serial-number arithmetic of packages/common/src/number.ts (section 3.2 of RFC 1982)
 and the TSN successor of packages/sctp/src/sctp.ts.

 A wire number is an unbounded "virtual" number reduced modulo 2^32 (TSN) or 2^16
 (stream sequence number). The lemmas say when comparing wire numbers gives the
 comparison of the virtual ones.
 */
module SerialNumbers {

  const MOD32: nat := 0x1_0000_0000
  const HALF32: int := 0x8000_0000
  const MOD16: nat := 0x1_0000
  const HALF16: int := 0x8000

  predicate Gt32(a: int, b: int) {
    (a < b && b - a > HALF32) || (a > b && a - b < HALF32)
  }

  predicate Gte32(a: int, b: int) {
    a == b || Gt32(a, b)
  }

  predicate Gt16(a: int, b: int) {
    (a < b && b - a > HALF16) || (a > b && a - b < HALF16)
  }

  function Add16(a: nat, b: nat): nat {
    (a + b) % MOD16
  }

  function PlusOne(a: nat): nat {
    (a + 1) % MOD32
  }

  /** The remainder of JavaScript, which takes the sign of the dividend. */
  function JsRemainder(a: int, m: nat): int
    requires m > 0
  {
    if a >= 0 then a % m else -((-a) % m)
  }

  function MinusOne(a: nat): int {
    JsRemainder(a - 1, MOD32)
  }

  /** Within half the number space, wire order is virtual order. */
  lemma Gt32IsVirtualOrder(x: nat, y: nat)
    requires -HALF32 < x - y < HALF32
    ensures Gt32(x % MOD32, y % MOD32) <==> x > y
    ensures Gte32(x % MOD32, y % MOD32) <==> x >= y
    ensures x % MOD32 == y % MOD32 <==> x == y
  {
    assert x == x / MOD32 * MOD32 + x % MOD32;
    assert y == y / MOD32 * MOD32 + y % MOD32;
  }

  lemma Gt16IsVirtualOrder(x: nat, y: nat)
    requires -HALF16 < x - y < HALF16
    ensures Gt16(x % MOD16, y % MOD16) <==> x > y
    ensures x % MOD16 == y % MOD16 <==> x == y
  {
    assert x == x / MOD16 * MOD16 + x % MOD16;
    assert y == y / MOD16 * MOD16 + y % MOD16;
  }

  /** At exactly half the number space the order is undefined: neither is greater. */
  lemma HalfwayIsUnordered(x: nat)
    ensures !Gt32(x % MOD32, (x + HALF32) % MOD32)
    ensures !Gt32((x + HALF32) % MOD32, x % MOD32)
  {
    assert x == x / MOD32 * MOD32 + x % MOD32;
  }

  lemma PlusOneIsVirtual(x: nat)
    ensures PlusOne(x % MOD32) == (x + 1) % MOD32
  {
  }

  lemma Add16IsVirtual(x: nat, b: nat)
    ensures Add16(x % MOD16, b) == (x + b) % MOD16
  {
  }

  /** `tsnMinusOne` inverts `tsnPlusOne` on every TSN but 0, where it answers -1. */
  lemma MinusOneInvertsPlusOne(x: nat)
    requires x < MOD32
    ensures MinusOne(PlusOne(x)) == x <==> PlusOne(x) != 0
    ensures MinusOne(0) == -1
  {
  }
}
