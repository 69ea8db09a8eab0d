/**
 The checksum of packages/common/src/crc.ts: 32-bit reflected CRC over bytes, for any
 polynomial and seed.

 Three descriptions of one number are proved equal: schoolbook long division of the message
 bits by the generator polynomial (Appendix A of RFC 9260), a shift register fed bit by
 bit, and the table-driven loop that takes sixteen bytes at a time.
 */
module Crc {
  type word = bv32
  type octet = bv8

  const ONES: word := 0xffff_ffff

  // Registers as polynomials over GF(2): bit 0 is the highest coefficient

  function Plus(x: word, y: word): word {
    x ^ y
  }

  predicate Leading(c: word) {
    c & 1 == 1
  }

  function Shift(c: word): word {
    c >> 1
  }

  function Low(c: word): octet {
    (c & 0xff) as octet
  }

  function High(c: word): word {
    c >> 8
  }

  function Widen(b: octet): word {
    b as word
  }

  /** One step of the shift register. */
  function Step(p: word, c: word): word {
    if Leading(c) then Plus(p, Shift(c)) else Shift(c)
  }

  /** Eight steps, as the table generator writes them out. */
  function ByteStep(p: word, c: word): word {
    Step(p, Step(p, Step(p, Step(p, Step(p, Step(p, Step(p, Step(p, c))))))))
  }

  function ByteSteps(p: word, c: word, n: nat): word
    decreases n
  {
    if n == 0 then c else ByteSteps(p, ByteStep(p, c), n - 1)
  }

  /** The register after a message, one byte at a time. */
  function Run(p: word, c: word, message: seq<octet>): word
    decreases message
  {
    if message == [] then c else Run(p, ByteStep(p, Plus(c, Widen(message[0]))), message[1..])
  }

  /** The register starts at the complement of the seed and is complemented at the end. */
  function Checksum(p: word, seed: word, message: seq<octet>): word {
    Plus(Run(p, Plus(seed, ONES), message), ONES)
  }

  // Addition

  lemma Associative(x: word, y: word, z: word)
    ensures Plus(Plus(x, y), z) == Plus(x, Plus(y, z))
  {
  }

  lemma Commutative(x: word, y: word)
    ensures Plus(x, y) == Plus(y, x)
  {
  }

  lemma Neutral(x: word)
    ensures Plus(x, 0) == x == Plus(0, x)
  {
  }

  lemma SelfInverse(x: word, y: word)
    ensures Plus(Plus(x, y), y) == x
  {
  }

  lemma Exchange(a: word, b: word, c: word, d: word)
    ensures Plus(Plus(a, b), Plus(c, d)) == Plus(Plus(a, c), Plus(b, d))
  {
    hide Plus;
    Associative(a, b, Plus(c, d));
    Associative(b, c, d);
    Commutative(b, c);
    Associative(c, b, d);
    Associative(a, c, Plus(b, d));
  }

  // Linearity

  lemma ShiftIsLinear(x: word, y: word)
    ensures Shift(Plus(x, y)) == Plus(Shift(x), Shift(y))
  {
  }

  lemma LeadingIsLinear(x: word, y: word)
    ensures Leading(Plus(x, y)) <==> Leading(x) != Leading(y)
  {
    assert (x ^ y) & 1 == (x & 1) ^ (y & 1);
    assert x & 1 == 0 || x & 1 == 1;
    assert y & 1 == 0 || y & 1 == 1;
  }

  lemma StepIsLinear(p: word, x: word, y: word)
    ensures Step(p, Plus(x, y)) == Plus(Step(p, x), Step(p, y))
  {
    hide Plus, Shift, Leading;
    ShiftIsLinear(x, y);
    LeadingIsLinear(x, y);
    var u, v := Shift(x), Shift(y);
    Exchange(p, u, p, v);
    SelfInverse(0, p);
    Neutral(p);
    Neutral(Plus(u, v));
    Associative(p, u, v);
    Commutative(u, Plus(p, v));
    Associative(p, v, u);
    Commutative(v, u);
  }

  lemma ByteStepIsLinear(p: word, x: word, y: word)
    ensures ByteStep(p, Plus(x, y)) == Plus(ByteStep(p, x), ByteStep(p, y))
  {
    hide Step, Plus;
    var x1, y1 := Step(p, x), Step(p, y);
    var x2, y2 := Step(p, x1), Step(p, y1);
    var x3, y3 := Step(p, x2), Step(p, y2);
    var x4, y4 := Step(p, x3), Step(p, y3);
    var x5, y5 := Step(p, x4), Step(p, y4);
    var x6, y6 := Step(p, x5), Step(p, y5);
    var x7, y7 := Step(p, x6), Step(p, y6);
    StepIsLinear(p, x, y);
    StepIsLinear(p, x1, y1);
    StepIsLinear(p, x2, y2);
    StepIsLinear(p, x3, y3);
    StepIsLinear(p, x4, y4);
    StepIsLinear(p, x5, y5);
    StepIsLinear(p, x6, y6);
    StepIsLinear(p, x7, y7);
  }

  lemma {:induction false} ByteStepsAreLinear(p: word, x: word, y: word, n: nat)
    ensures ByteSteps(p, Plus(x, y), n) == Plus(ByteSteps(p, x, n), ByteSteps(p, y, n))
    decreases n
  {
    hide ByteStep, Plus;
    if n > 0 {
      ByteStepIsLinear(p, x, y);
      ByteStepsAreLinear(p, ByteStep(p, x), ByteStep(p, y), n - 1);
    }
  }

  function Double(y: word): word {
    y << 1
  }

  lemma DoubleShiftsOut(y: word)
    requires y <= 0x7fff_ffff
    ensures !Leading(Double(y)) && Shift(Double(y)) == y
  {
  }

  lemma StepUndoesDouble(p: word, y: word)
    requires y <= 0x7fff_ffff
    ensures Step(p, Double(y)) == y
  {
    hide Leading, Shift, Double, Plus;
    DoubleShiftsOut(y);
  }

  lemma ShiftIsEightDoubles(y: word)
    requires y <= 0xff_ffff
    ensures y << 8 == Double(Double(Double(Double(Double(Double(Double(Double(y))))))))
    ensures Double(y) <= 0x7fff_ffff
    ensures Double(Double(y)) <= 0x7fff_ffff
    ensures Double(Double(Double(y))) <= 0x7fff_ffff
    ensures Double(Double(Double(Double(y)))) <= 0x7fff_ffff
    ensures Double(Double(Double(Double(Double(y))))) <= 0x7fff_ffff
    ensures Double(Double(Double(Double(Double(Double(y)))))) <= 0x7fff_ffff
    ensures Double(Double(Double(Double(Double(Double(Double(y))))))) <= 0x7fff_ffff
  {
  }

  /** A byte's worth of zeros at the bottom is shifted out. */
  lemma ByteStepShifts(p: word, y: word)
    requires y <= 0xff_ffff
    ensures ByteStep(p, y << 8) == y
  {
    hide Step, Double;
    ShiftIsEightDoubles(y);
    var y1 := Double(y);
    var y2 := Double(y1);
    var y3 := Double(y2);
    var y4 := Double(y3);
    var y5 := Double(y4);
    var y6 := Double(y5);
    var y7 := Double(y6);
    StepUndoesDouble(p, y7);
    StepUndoesDouble(p, y6);
    StepUndoesDouble(p, y5);
    StepUndoesDouble(p, y4);
    StepUndoesDouble(p, y3);
    StepUndoesDouble(p, y2);
    StepUndoesDouble(p, y1);
    StepUndoesDouble(p, y);
  }

  lemma WordIsHighAndLow(v: word)
    ensures High(v) <= 0xff_ffff && v == Plus(High(v) << 8, Widen(Low(v)))
  {
    assert v == ((v >> 8) << 8) ^ (v & 0xff);
  }

  /** The register splits into its low byte, which the polynomial acts on, and the rest, which shifts. */
  lemma ByteStepSplits(p: word, v: word)
    ensures ByteStep(p, v) == Plus(High(v), ByteStep(p, Widen(Low(v))))
  {
    hide ByteStep, Plus, High, Widen, Low;
    WordIsHighAndLow(v);
    ByteStepIsLinear(p, High(v) << 8, Widen(Low(v)));
    ByteStepShifts(p, High(v));
  }

  // Whole messages

  lemma {:induction false} ByteStepsOfZero(p: word, n: nat)
    ensures ByteSteps(p, 0, n) == 0
  {
    hide ByteSteps, Plus;
    ByteStepsAreLinear(p, 0, 0, n);
    Neutral(0);
    SelfInverse(0, ByteSteps(p, 0, n));
    Neutral(ByteSteps(p, 0, n));
  }

  /** CRCs chain: a message may be fed in pieces. */
  lemma {:induction false} RunChains(p: word, c: word, a: seq<octet>, b: seq<octet>)
    ensures Run(p, c, a + b) == Run(p, Run(p, c, a), b)
    decreases |a|
  {
    hide ByteStep, Plus, Widen;
    if a == [] {
      assert a + b == b;
    } else {
      assert (a + b)[0] == a[0] && (a + b)[1..] == a[1..] + b;
      RunChains(p, ByteStep(p, Plus(c, Widen(a[0]))), a[1..], b);
    }
  }

  lemma ChecksumChains(p: word, seed: word, a: seq<octet>, b: seq<octet>)
    ensures Checksum(p, seed, a + b) == Checksum(p, Checksum(p, seed, a), b)
  {
    hide Run, Plus;
    RunChains(p, Plus(seed, ONES), a, b);
    SelfInverse(Run(p, Plus(seed, ONES), a), ONES);
  }

  /** The contribution of each byte, pushed through the bytes that follow it. */
  function Mix(p: word, message: seq<octet>): word {
    if message == [] then 0 else Plus(ByteSteps(p, Widen(message[0]), |message|), Mix(p, message[1..]))
  }

  lemma {:induction false} RunIsMix(p: word, c: word, message: seq<octet>)
    ensures Run(p, c, message) == Plus(ByteSteps(p, c, |message|), Mix(p, message))
    decreases |message|
  {
    hide ByteStep, Plus, Widen;
    if message == [] {
      Neutral(c);
    } else {
      var b, n := Widen(message[0]), |message| - 1;
      var c' := ByteStep(p, Plus(c, b));
      RunIsMix(p, c', message[1..]);
      assert ByteSteps(p, Plus(c, b), n + 1) == ByteSteps(p, c', n);
      ByteStepsAreLinear(p, c, b, n + 1);
      Associative(ByteSteps(p, c, n + 1), ByteSteps(p, b, n + 1), Mix(p, message[1..]));
    }
  }

  function PlusByte(b: octet, c: octet): octet {
    b ^ c
  }

  lemma WidenIsLinear(b: octet, c: octet)
    ensures Widen(PlusByte(b, c)) == Plus(Widen(b), Widen(c))
  {
  }

  /** Adding `c` to the register is adding its low byte to the next message byte, and the rest one byte later. */
  lemma AbsorbByte(p: word, x: word, c: word, b: octet, rest: seq<octet>)
    ensures Run(p, Plus(x, c), [b] + rest) ==
            Run(p, Plus(ByteStep(p, Plus(x, Widen(PlusByte(b, Low(c))))), High(c)), rest)
  {
    hide ByteStep, Plus, Widen, PlusByte, Low, High;
    var low := Widen(Low(c));
    WordIsHighAndLow(c);
    ByteStepShifts(p, High(c));
    WidenIsLinear(b, Low(c));
    var hi := High(c) << 8;
    var wb := Widen(b);
    calc {
      Plus(Plus(x, c), wb);
      { Associative(x, c, wb); }
      Plus(x, Plus(Plus(hi, low), wb));
      { Associative(hi, low, wb); Commutative(low, wb); Commutative(hi, Plus(wb, low)); }
      Plus(x, Plus(Plus(wb, low), hi));
      { Associative(x, Plus(wb, low), hi); }
      Plus(Plus(x, Plus(wb, low)), hi);
    }
    ByteStepIsLinear(p, Plus(x, Plus(wb, low)), hi);
    assert ([b] + rest)[0] == b && ([b] + rest)[1..] == rest;
  }

  // Sixteen bytes at a time

  lemma RunOne(p: word, x: word, b: octet)
    ensures Run(p, x, [b]) == ByteStep(p, Plus(x, Widen(b)))
  {
    hide ByteStep, Plus, Widen;
    assert Run(p, ByteStep(p, Plus(x, Widen(b))), [b][1..]) == ByteStep(p, Plus(x, Widen(b)));
  }

  lemma RunCons(p: word, x: word, b: octet, rest: seq<octet>)
    ensures Run(p, x, [b] + rest) == Run(p, Run(p, x, [b]), rest)
  {
    RunChains(p, x, [b], rest);
  }

  lemma FourBytesAreAWord(c: word)
    ensures High(High(High(High(c)))) == 0
  {
  }

  /** The whole register may be added to the next four bytes of the message instead. */
  lemma AbsorbWord(p: word, c: word, b0: octet, b1: octet, b2: octet, b3: octet, rest: seq<octet>)
    ensures Run(p, c, [b0] + ([b1] + ([b2] + ([b3] + rest)))) ==
            Run(p, 0, [PlusByte(b0, Low(c))] + ([PlusByte(b1, Low(High(c)))] +
                      ([PlusByte(b2, Low(High(High(c))))] + ([PlusByte(b3, Low(High(High(High(c)))))] + rest))))
  {
    hide ByteStep, Plus, Widen, PlusByte, Low, High, Run;
    var c1 := High(c);
    var c2 := High(c1);
    var c3 := High(c2);
    var a0, a1, a2, a3 := PlusByte(b0, Low(c)), PlusByte(b1, Low(c1)), PlusByte(b2, Low(c2)), PlusByte(b3, Low(c3));
    var x1 := Run(p, 0, [a0]);
    var x2 := Run(p, x1, [a1]);
    var x3 := Run(p, x2, [a2]);
    var x4 := Run(p, x3, [a3]);
    RunOne(p, 0, a0);
    RunOne(p, x1, a1);
    RunOne(p, x2, a2);
    RunOne(p, x3, a3);
    Neutral(c);
    AbsorbByte(p, 0, c, b0, [b1] + ([b2] + ([b3] + rest)));
    AbsorbByte(p, x1, c1, b1, [b2] + ([b3] + rest));
    AbsorbByte(p, x2, c2, b2, [b3] + rest);
    AbsorbByte(p, x3, c3, b3, rest);
    FourBytesAreAWord(c);
    Neutral(x4);
    RunCons(p, 0, a0, [a1] + ([a2] + ([a3] + rest)));
    RunCons(p, x1, a1, [a2] + ([a3] + rest));
    RunCons(p, x2, a2, [a3] + rest);
    RunCons(p, x3, a3, rest);
  }

  function Octet(n: nat): octet
    requires n < 256
  {
    n as octet
  }

  lemma OctetIndex(b: octet)
    ensures (b as int) < 256 && Octet(b as int) == b
  {
  }

  function Lookup(t: seq<word>, b: octet): word
    requires |t| == 256
  {
    t[b as int]
  }

  /** Table `t` holds, for every byte, the register it leaves after `n` byte steps. */
  ghost predicate IsTable(p: word, t: seq<word>, n: nat) {
    |t| == 256 && forall i :: 0 <= i < 256 ==> t[i] == ByteSteps(p, Widen(Octet(i)), n)
  }

  lemma TableLookup(p: word, t: seq<word>, n: nat, b: octet)
    requires IsTable(p, t, n)
    ensures Lookup(t, b) == ByteSteps(p, Widen(b), n)
  {
    hide ByteSteps, Widen, Octet;
    OctetIndex(b);
  }

  /** The tables in the order `generateSliceBy16Tables` returns them, `t1` first. */
  ghost predicate AreTables(p: word, ts: seq<seq<word>>) {
    |ts| == 15 && forall k :: 0 <= k < 15 ==> IsTable(p, ts[k], k + 2)
  }

  /** A message looked up byte by byte: the first byte in the table for its distance to the end. */
  function Gathered(table0: seq<word>, tables: seq<seq<word>>, message: seq<octet>): word
    requires |table0| == 256 && |tables| == 15 && (forall k :: 0 <= k < 15 ==> |tables[k]| == 256)
    requires |message| <= 16
  {
    if message == [] then 0
    else
      var t := if |message| == 1 then table0 else tables[|message| - 2];
      Plus(Lookup(t, message[0]), Gathered(table0, tables, message[1..]))
  }

  lemma {:induction false} GatheredIsMix(p: word, table0: seq<word>, tables: seq<seq<word>>, message: seq<octet>)
    requires IsTable(p, table0, 1) && AreTables(p, tables) && |message| <= 16
    ensures Gathered(table0, tables, message) == Mix(p, message)
    decreases |message|
  {
    hide ByteSteps, Plus, Widen, Lookup;
    if message != [] {
      TableLookup(p, if |message| == 1 then table0 else tables[|message| - 2], |message|, message[0]);
      GatheredIsMix(p, table0, tables, message[1..]);
    }
  }

  /** The register and sixteen bytes, with the register added to the first four. */
  function Absorbed(c: word, block: seq<octet>): (a: seq<octet>)
    requires |block| >= 4
    ensures |a| == |block|
  {
    [PlusByte(block[0], Low(c))] + ([PlusByte(block[1], Low(High(c)))] +
    ([PlusByte(block[2], Low(High(High(c))))] + ([PlusByte(block[3], Low(High(High(High(c)))))] + block[4..])))
  }

  /** One turn of the fast loop advances the register over sixteen bytes. */
  lemma SliceAdvances(p: word, c: word, table0: seq<word>, tables: seq<seq<word>>, block: seq<octet>)
    requires IsTable(p, table0, 1) && AreTables(p, tables) && |block| == 16
    ensures Gathered(table0, tables, Absorbed(c, block)) == Run(p, c, block)
  {
    hide Run, Mix, Gathered, PlusByte, Low, High, Plus, ByteSteps, IsTable, AreTables;
    assert block == [block[0]] + ([block[1]] + ([block[2]] + ([block[3]] + block[4..])));
    AbsorbWord(p, c, block[0], block[1], block[2], block[3], block[4..]);
    RunIsMix(p, 0, Absorbed(c, block));
    ByteStepsOfZero(p, 16);
    Neutral(Mix(p, Absorbed(c, block)));
    GatheredIsMix(p, table0, tables, Absorbed(c, block));
  }

  /** Looked up from left to right, as the loop body writes it. */
  function Chain(table0: seq<word>, tables: seq<seq<word>>, acc: word, message: seq<octet>): word
    requires |table0| == 256 && |tables| == 15 && (forall k :: 0 <= k < 15 ==> |tables[k]| == 256)
    requires |message| <= 16
    decreases message
  {
    if message == [] then acc
    else
      var t := if |message| == 1 then table0 else tables[|message| - 2];
      Chain(table0, tables, Plus(acc, Lookup(t, message[0])), message[1..])
  }

  lemma {:induction false} ChainIsGathered(table0: seq<word>, tables: seq<seq<word>>, acc: word, message: seq<octet>)
    requires |table0| == 256 && |tables| == 15 && (forall k :: 0 <= k < 15 ==> |tables[k]| == 256)
    requires |message| <= 16
    ensures Chain(table0, tables, acc, message) == Plus(acc, Gathered(table0, tables, message))
    decreases |message|
  {
    hide Plus, Lookup;
    if message == [] {
      Neutral(acc);
    } else {
      var x := Lookup(if |message| == 1 then table0 else tables[|message| - 2], message[0]);
      ChainIsGathered(table0, tables, Plus(acc, x), message[1..]);
      Associative(acc, x, Gathered(table0, tables, message[1..]));
    }
  }

  /** The expression of the fast loop over the sixteen bytes `m`. */
  function Slice(table0: seq<word>, tables: seq<seq<word>>, m: seq<octet>): word
    requires |table0| == 256 && |tables| == 15 && (forall k :: 0 <= k < 15 ==> |tables[k]| == 256)
    requires |m| == 16
  {
    Plus(Plus(Plus(Plus(Plus(Plus(Plus(Plus(Plus(Plus(Plus(Plus(Plus(Plus(Plus(
      Lookup(tables[14], m[0]),
      Lookup(tables[13], m[1])),
      Lookup(tables[12], m[2])),
      Lookup(tables[11], m[3])),
      Lookup(tables[10], m[4])),
      Lookup(tables[9], m[5])),
      Lookup(tables[8], m[6])),
      Lookup(tables[7], m[7])),
      Lookup(tables[6], m[8])),
      Lookup(tables[5], m[9])),
      Lookup(tables[4], m[10])),
      Lookup(tables[3], m[11])),
      Lookup(tables[2], m[12])),
      Lookup(tables[1], m[13])),
      Lookup(tables[0], m[14])),
      Lookup(table0, m[15]))
  }

  lemma ChainStep(table0: seq<word>, tables: seq<seq<word>>, acc: word, m: seq<octet>, j: nat)
    requires |table0| == 256 && |tables| == 15 && (forall k :: 0 <= k < 15 ==> |tables[k]| == 256)
    requires |m| == 16 && j < 16
    ensures Chain(table0, tables, acc, m[j..]) ==
            Chain(table0, tables, Plus(acc, Lookup(if j == 15 then table0 else tables[14 - j], m[j])), m[j + 1..])
  {
    hide Plus, Lookup;
    assert m[j..][0] == m[j] && m[j..][1..] == m[j + 1..];
  }

  lemma {:induction false} ChainFrom(table0: seq<word>, tables: seq<seq<word>>, acc: word, m: seq<octet>)
    requires |table0| == 256 && |tables| == 15 && (forall k :: 0 <= k < 15 ==> |tables[k]| == 256)
    requires |m| == 16 && acc == Lookup(tables[14], m[0])
    ensures Slice(table0, tables, m) == Chain(table0, tables, acc, m[1..])
  {
    hide Plus, Lookup, Chain;
    var a1 := Plus(acc, Lookup(tables[13], m[1]));
    var a2 := Plus(a1, Lookup(tables[12], m[2]));
    var a3 := Plus(a2, Lookup(tables[11], m[3]));
    var a4 := Plus(a3, Lookup(tables[10], m[4]));
    var a5 := Plus(a4, Lookup(tables[9], m[5]));
    var a6 := Plus(a5, Lookup(tables[8], m[6]));
    var a7 := Plus(a6, Lookup(tables[7], m[7]));
    var a8 := Plus(a7, Lookup(tables[6], m[8]));
    var a9 := Plus(a8, Lookup(tables[5], m[9]));
    var a10 := Plus(a9, Lookup(tables[4], m[10]));
    var a11 := Plus(a10, Lookup(tables[3], m[11]));
    var a12 := Plus(a11, Lookup(tables[2], m[12]));
    var a13 := Plus(a12, Lookup(tables[1], m[13]));
    var a14 := Plus(a13, Lookup(tables[0], m[14]));
    ChainStep(table0, tables, acc, m, 1);
    ChainStep(table0, tables, a1, m, 2);
    ChainStep(table0, tables, a2, m, 3);
    ChainStep(table0, tables, a3, m, 4);
    ChainStep(table0, tables, a4, m, 5);
    ChainStep(table0, tables, a5, m, 6);
    ChainStep(table0, tables, a6, m, 7);
    ChainStep(table0, tables, a7, m, 8);
    ChainStep(table0, tables, a8, m, 9);
    ChainStep(table0, tables, a9, m, 10);
    ChainStep(table0, tables, a10, m, 11);
    ChainStep(table0, tables, a11, m, 12);
    ChainStep(table0, tables, a12, m, 13);
    ChainStep(table0, tables, a13, m, 14);
    ChainStep(table0, tables, a14, m, 15);
    ChainOfNone(table0, tables, Plus(a14, Lookup(table0, m[15])), m[16..]);
  }

  lemma ChainOfNone(table0: seq<word>, tables: seq<seq<word>>, acc: word, message: seq<octet>)
    requires |table0| == 256 && |tables| == 15 && (forall k :: 0 <= k < 15 ==> |tables[k]| == 256)
    requires message == []
    ensures Chain(table0, tables, acc, message) == acc
  {
  }

  lemma SliceIsGathered(table0: seq<word>, tables: seq<seq<word>>, m: seq<octet>)
    requires |table0| == 256 && |tables| == 15 && (forall k :: 0 <= k < 15 ==> |tables[k]| == 256)
    requires |m| == 16
    ensures Slice(table0, tables, m) == Gathered(table0, tables, m)
  {
    hide Plus, Lookup, Slice;
    var x := Lookup(tables[14], m[0]);
    ChainFrom(table0, tables, x, m);
    ChainIsGathered(table0, tables, x, m[1..]);
  }

  // The methods of the source

  lemma OneByteStep(p: word, c: word)
    ensures ByteSteps(p, c, 1) == ByteStep(p, c)
  {
    hide ByteStep;
    assert ByteSteps(p, ByteStep(p, c), 0) == ByteStep(p, c);
  }

  method GenerateCrcTable(polynomial: word) returns (table0: seq<word>)
    ensures IsTable(polynomial, table0, 1)
  {
    hide Step, Octet, Widen;
    var table := new word[256];
    for n := 0 to 256
      invariant forall k :: 0 <= k < n ==> table[k] == ByteStep(polynomial, Widen(Octet(k)))
    {
      var c := Widen(Octet(n));
      c := Step(polynomial, c);
      c := Step(polynomial, c);
      c := Step(polynomial, c);
      c := Step(polynomial, c);
      c := Step(polynomial, c);
      c := Step(polynomial, c);
      c := Step(polynomial, c);
      c := Step(polynomial, c);
      table[n] := c;
    }
    table0 := table[..];
    forall k | 0 <= k < 256
      ensures table0[k] == ByteSteps(polynomial, Widen(Octet(k)), 1)
    {
      OneByteStep(polynomial, Widen(Octet(k)));
    }
  }

  lemma {:induction false} OneMoreByteStep(p: word, c: word, n: nat)
    ensures ByteSteps(p, c, n + 1) == ByteStep(p, ByteSteps(p, c, n))
    decreases n
  {
    hide ByteStep;
    if n > 0 {
      OneMoreByteStep(p, ByteStep(p, c), n - 1);
    }
  }

  /** Entry `i` of the flat table: byte `i % 256`, after `i / 256 + 1` byte steps. */
  function FlatEntry(p: word, i: nat): word {
    ByteSteps(p, Widen(Octet(i % 256)), i / 256 + 1)
  }

  lemma NextFlatEntry(p: word, table0: seq<word>, i: nat, v: word)
    requires IsTable(p, table0, 1) && i >= 256 && v == FlatEntry(p, i - 256)
    ensures Plus(High(v), Lookup(table0, Low(v))) == FlatEntry(p, i)
  {
    hide ByteStep, Plus, High, Low, Widen, Octet, Lookup;
    assert (i - 256) % 256 == i % 256 && (i - 256) / 256 + 1 == i / 256;
    OneMoreByteStep(p, Widen(Octet(i % 256)), i / 256);
    ByteStepSplits(p, v);
    TableLookup(p, table0, 1, Low(v));
    OneByteStep(p, Widen(Low(v)));
  }

  lemma FirstRow(p: word, table0: seq<word>, n: nat)
    requires IsTable(p, table0, 1) && n < 256
    ensures table0[n] == FlatEntry(p, n)
  {
    hide ByteSteps, Widen, Octet;
  }

  /** The inner loop: column `n` of the flat table, below its first row. */
  method FillColumn(ghost p: word, table0: seq<word>, table: array<word>, n: nat)
    requires IsTable(p, table0, 1) && n < 256 && table.Length == 4096
    modifies table
    ensures forall i :: 0 <= i < 4096 ==>
              table[i] == if i % 256 == n && i >= 256 then FlatEntry(p, i) else old(table[i])
  {
    hide FlatEntry, Plus, High, Low, Lookup, ByteSteps, Widen, Octet;
    FirstRow(p, table0, n);
    var v := table0[n];
    var c := 256 + n;
    while c < 4096
      invariant c % 256 == n && 256 <= c < 4096 + 256 && v == FlatEntry(p, c - 256)
      invariant forall i :: 0 <= i < 4096 ==>
                  table[i] == if i % 256 == n && 256 <= i < c then FlatEntry(p, i) else old(table[i])
    {
      NextFlatEntry(p, table0, c, v);
      v := Plus(High(v), Lookup(table0, Low(v)));
      table[c] := v;
      c := c + 256;
    }
  }

  /** The loops that fill the flat table, column by column. */
  method FillFlatTable(ghost p: word, table0: seq<word>) returns (flat: seq<word>)
    requires IsTable(p, table0, 1)
    ensures |flat| == 4096 && forall i :: 0 <= i < 4096 ==> flat[i] == FlatEntry(p, i)
  {
    hide FlatEntry, ByteSteps, Widen, Octet;
    var table := new word[4096];
    for n := 0 to 256
      invariant forall i :: 0 <= i < n ==> table[i] == FlatEntry(p, i)
    {
      FirstRow(p, table0, n);
      table[n] := table0[n];
    }
    for n := 0 to 256
      invariant forall i :: 0 <= i < 4096 && (i < 256 || i % 256 < n) ==> table[i] == FlatEntry(p, i)
    {
      FillColumn(p, table0, table, n);
    }
    flat := table[..];
  }

  method GenerateSliceBy16Tables(ghost p: word, table0: seq<word>) returns (tables: seq<seq<word>>)
    requires IsTable(p, table0, 1)
    ensures AreTables(p, tables)
  {
    hide FlatEntry, IsTable;
    var table := FillFlatTable(p, table0);
    tables := [];
    for n := 1 to 16
      invariant |tables| == n - 1
      invariant forall k :: 0 <= k < n - 1 ==> IsTable(p, tables[k], k + 2)
    {
      var t := table[n * 256..n * 256 + 256];
      RowIsTable(p, t, n);
      tables := tables + [t];
    }
  }

  lemma RowIsTable(p: word, t: seq<word>, n: nat)
    requires |t| == 256 && forall i :: 0 <= i < 256 ==> t[i] == FlatEntry(p, n * 256 + i)
    ensures IsTable(p, t, n + 1)
  {
    hide ByteSteps, Widen, Octet;
    forall i | 0 <= i < 256
      ensures t[i] == ByteSteps(p, Widen(Octet(i)), n + 1)
    {
      assert (n * 256 + i) % 256 == i && (n * 256 + i) / 256 == n;
    }
  }

  /** Sixteen bytes at a time, then the tail byte by byte. */
  method CrcBuffer(ghost p: word, value: seq<octet>, seed: word, table0: seq<word>, tables16: seq<seq<word>>)
    returns (checksum: word)
    requires IsTable(p, table0, 1) && AreTables(p, tables16)
    ensures checksum == Checksum(p, seed, value)
  {
    hide Run, Plus, Lookup, ByteSteps, Slice, Low, High, PlusByte;
    var crc := Plus(seed, ONES);
    var i := 0;
    assert value[0..] == value;
    while i < |value| - 15
      invariant i <= |value| && Run(p, Plus(seed, ONES), value) == Run(p, crc, value[i..])
    {
      var m := Absorbed(crc, value[i..i + 16]);
      SliceIsGathered(table0, tables16, m);
      SliceAdvances(p, crc, table0, tables16, value[i..i + 16]);
      RunChains(p, crc, value[i..i + 16], value[i + 16..]);
      assert value[i..] == value[i..i + 16] + value[i + 16..];
      crc := Slice(table0, tables16, m);
      i := i + 16;
    }
    while i < |value|
      invariant i <= |value| && Run(p, Plus(seed, ONES), value) == Run(p, crc, value[i..])
    {
      TableStep(p, table0, crc, value[i]);
      RunCons(p, crc, value[i], value[i + 1..]);
      assert value[i..] == [value[i]] + value[i + 1..];
      crc := Plus(High(crc), Lookup(table0, PlusByte(Low(crc), value[i])));
      i := i + 1;
    }
    assert value[i..] == [];
    RunNothing(p, crc);
    checksum := Plus(crc, ONES);
  }

  lemma RunNothing(p: word, c: word)
    ensures Run(p, c, []) == c
  {
  }

  lemma LowAndHighOfSum(c: word, b: octet)
    ensures Low(Plus(c, Widen(b))) == PlusByte(Low(c), b)
    ensures High(Plus(c, Widen(b))) == High(c)
  {
  }

  lemma TableStep(p: word, table0: seq<word>, c: word, b: octet)
    requires IsTable(p, table0, 1)
    ensures Plus(High(c), Lookup(table0, PlusByte(Low(c), b))) == Run(p, c, [b])
  {
    hide ByteStep, Plus, High, Low, Widen, PlusByte, Lookup;
    var x := Plus(c, Widen(b));
    RunOne(p, c, b);
    ByteStepSplits(p, x);
    LowAndHighOfSum(c, b);
    TableLookup(p, table0, 1, Low(x));
    OneByteStep(p, Widen(Low(x)));
  }
}
