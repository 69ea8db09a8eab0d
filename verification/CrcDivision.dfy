/**
 What the checksum of module `Crc` is: the remainder of schoolbook long division over GF(2)
 (Appendix A of RFC 9260), and why it is used: it tells apart messages of one length that
 differ only inside a window of four bytes.
 */
module CrcDivision {
  import opened Crc

  // Bits, highest coefficient first

  function Bits(c: word, n: nat): (bs: seq<bool>)
    ensures |bs| == n
    decreases n
  {
    if n == 0 then [] else [Leading(c)] + Bits(Shift(c), n - 1)
  }

  /** Bytes are sent low bit first. */
  function MessageBits(message: seq<octet>): seq<bool> {
    if message == [] then [] else Bits(Widen(message[0]), 8) + MessageBits(message[1..])
  }

  function ZeroBits(n: nat): (z: seq<bool>)
    ensures |z| == n && forall i :: 0 <= i < n ==> !z[i]
  {
    seq(n, i => false)
  }

  /** `d` with `g` added to its leading coefficients. */
  function Add(d: seq<bool>, g: seq<bool>): (r: seq<bool>)
    requires |g| <= |d|
    ensures |r| == |d|
    ensures forall i :: 0 <= i < |d| ==> r[i] == if i < |g| then d[i] != g[i] else d[i]
  {
    seq(|d|, i requires 0 <= i < |d| => if i < |g| then d[i] != g[i] else d[i])
  }

  function Complement(d: seq<bool>): (r: seq<bool>)
    ensures |r| == |d| && forall i :: 0 <= i < |d| ==> r[i] == !d[i]
  {
    seq(|d|, i requires 0 <= i < |d| => !d[i])
  }

  /** Long division: the remainder of `d` by the polynomial whose coefficients after the leading one are `g`. */
  function Remainder(d: seq<bool>, g: seq<bool>): seq<bool>
    requires |g| <= |d|
    decreases |d|
  {
    if |d| == |g| then d
    else Remainder(if d[0] then Add(d[1..], g) else d[1..], g)
  }

  /** The shift register fed one message bit. */
  function Feed(p: word, c: word, bit: bool): word {
    if Leading(c) != bit then Plus(p, Shift(c)) else Shift(c)
  }

  function Register(p: word, c: word, bits: seq<bool>): word
    decreases bits
  {
    if bits == [] then c else Register(p, Feed(p, c, bits[0]), bits[1..])
  }

  // The register divides

  lemma {:induction false} BitsOfSum(x: word, y: word, n: nat)
    ensures Bits(Plus(x, y), n) == Add(Bits(x, n), Bits(y, n))
    decreases n
  {
    hide Plus, Leading, Shift, Add;
    if n == 0 {
      AddNothing([]);
    } else {
      LeadingIsLinear(x, y);
      ShiftIsLinear(x, y);
      BitsOfSum(Shift(x), Shift(y), n - 1);
      AddCons(Leading(x), Leading(y), Bits(Shift(x), n - 1), Bits(Shift(y), n - 1));
    }
  }

  lemma AddNothing(d: seq<bool>)
    ensures Add(d, []) == d
  {
  }

  lemma AddCons(x: bool, y: bool, d: seq<bool>, g: seq<bool>)
    requires |d| == |g|
    ensures Add([x] + d, [y] + g) == [x != y] + Add(d, g)
  {
  }

  function Shifts(c: word, n: nat): word
    decreases n
  {
    if n == 0 then c else Shifts(Shift(c), n - 1)
  }

  lemma {:induction false} OneMoreBit(c: word, n: nat)
    ensures Bits(c, n + 1) == Bits(c, n) + [Leading(Shifts(c, n))]
    decreases n
  {
    hide Leading, Shift;
    if n == 0 {
      assert Bits(c, 1) == [Leading(c)] + Bits(Shift(c), 0);
    } else {
      OneMoreBit(Shift(c), n - 1);
    }
  }

  lemma EightShifts(c: word)
    ensures Shifts(c, 8) == High(c)
  {
    var c1 := Shift(c);
    var c2 := Shift(c1);
    var c3 := Shift(c2);
    var c4 := Shift(c3);
    ShiftsOfFour(c);
    ShiftsOfFour(c4);
    ShiftsAdd(c, 4, 4);
    ShiftByFourTwice(c);
  }

  lemma ShiftsOfFour(c: word)
    ensures Shifts(c, 4) == Shift(Shift(Shift(Shift(c))))
  {
    hide Shift;
    assert Shifts(c, 4) == Shifts(Shift(c), 3) == Shifts(Shift(Shift(c)), 2) == Shifts(Shift(Shift(Shift(c))), 1);
  }

  lemma ShiftByFourTwice(c: word)
    ensures Shift(Shift(Shift(Shift(Shift(Shift(Shift(Shift(c)))))))) == High(c)
  {
  }

  lemma {:induction false} ShiftsAdd(c: word, m: nat, n: nat)
    ensures Shifts(c, m + n) == Shifts(Shifts(c, m), n)
    decreases m
  {
    hide Shift;
    if m > 0 {
      ShiftsAdd(Shift(c), m - 1, n);
    }
  }

  lemma AllShiftedOut(c: word)
    ensures Shifts(c, 32) == 0
  {
    hide Shifts, High;
    var c1 := High(c);
    var c2 := High(c1);
    var c3 := High(c2);
    EightShifts(c);
    EightShifts(c1);
    EightShifts(c2);
    EightShifts(c3);
    ShiftsAdd(c, 8, 8);
    ShiftsAdd(c, 16, 8);
    ShiftsAdd(c, 24, 8);
    FourBytesAreAWord(c);
  }

  lemma BitsOfShift(c: word)
    ensures Bits(Shift(c), 32) == Bits(c, 32)[1..] + [false]
  {
    hide Shift, Shifts, Leading;
    OneMoreBit(c, 32);
    AllShiftedOut(c);
    ZeroIsNotLeading();
    assert Bits(c, 33)[1..] == Bits(Shift(c), 32);
    assert (Bits(c, 32) + [false])[1..] == Bits(c, 32)[1..] + [false];
  }

  lemma ZeroIsNotLeading()
    ensures !Leading(0)
  {
  }

  lemma AddTwice(x: seq<bool>, r: seq<bool>, g: seq<bool>)
    requires |r| == |g| <= |x|
    ensures Add(Add(x, r), g) == Add(x, Add(g, r))
  {
  }

  /** Without its leading coefficient the dividend is the next one, with the register shifted. */
  lemma ShiftedDividend(x: seq<bool>, r: seq<bool>)
    requires 0 < |r| < |x|
    ensures Add(x, r)[1..] == Add(x[1..], r[1..] + [false])
  {
    var a, b := Add(x, r)[1..], Add(x[1..], r[1..] + [false]);
    forall i | 0 <= i < |a|
      ensures a[i] == b[i]
    {
      assert a[i] == Add(x, r)[i + 1];
    }
  }

  /** One turn of long division, with the first 32 coefficients kept apart as the register `r`. */
  lemma DivisionTurn(bits: seq<bool>, r: seq<bool>, g: seq<bool>)
    requires bits != [] && |r| == |g| == 32
    ensures
      var r' := r[1..] + [false];
      Remainder(Add(bits + ZeroBits(32), r), g) ==
      Remainder(Add(bits[1..] + ZeroBits(32), if r[0] != bits[0] then Add(g, r') else r'), g)
  {
    hide ZeroBits;
    var x, r' := bits + ZeroBits(32), r[1..] + [false];
    ShiftedDividend(x, r);
    assert x[1..] == bits[1..] + ZeroBits(32);
    AddTwice(x[1..], r', g);
    assert Add(x, r)[0] == (r[0] != bits[0]);
    hide Add;
  }

  /** Dividing from a register: the next message bits are added to the register as they come up. */
  lemma {:induction false} RegisterDivides(p: word, c: word, bits: seq<bool>)
    ensures Remainder(Add(bits + ZeroBits(32), Bits(c, 32)), Bits(p, 32)) == Bits(Register(p, c, bits), 32)
    decreases |bits|
  {
    hide Plus, Leading, Shift, Bits, Add, Remainder;
    if bits == [] {
      assert Add(bits + ZeroBits(32), Bits(c, 32)) == Bits(c, 32);
      DividedOut(Bits(c, 32), Bits(p, 32));
    } else {
      BitsOfShift(c);
      BitsOfSum(p, Shift(c), 32);
      FirstBit(c);
      DivisionTurn(bits, Bits(c, 32), Bits(p, 32));
      RegisterDivides(p, Feed(p, c, bits[0]), bits[1..]);
    }
  }

  lemma DividedOut(d: seq<bool>, g: seq<bool>)
    requires |d| == |g|
    ensures Remainder(d, g) == d
  {
  }

  lemma FirstBit(c: word)
    ensures Bits(c, 32)[0] == Leading(c)
  {
    hide Leading, Shift;
  }

  // Bits against bytes

  function Steps(p: word, c: word, n: nat): word
    decreases n
  {
    if n == 0 then c else Steps(p, Step(p, c), n - 1)
  }

  /** Adding a word to the register feeds its leading bit now and leaves the rest for later. */
  lemma StepFeeds(p: word, c: word, b: word)
    ensures Step(p, Plus(c, b)) == Plus(Feed(p, c, Leading(b)), Shift(b))
  {
    hide Plus, Leading, Shift;
    LeadingIsLinear(c, b);
    ShiftIsLinear(c, b);
    Associative(p, Shift(c), Shift(b));
  }

  lemma {:induction false} RegisterSteps(p: word, c: word, b: word, n: nat)
    requires Shifts(b, n) == 0
    ensures Register(p, c, Bits(b, n)) == Steps(p, Plus(c, b), n)
    decreases n
  {
    hide Plus, Leading, Shift, Step, Feed;
    if n == 0 {
      Neutral(c);
    } else {
      StepFeeds(p, c, b);
      RegisterSteps(p, Feed(p, c, Leading(b)), Shift(b), n - 1);
      assert Bits(b, n)[1..] == Bits(Shift(b), n - 1);
    }
  }

  lemma EightSteps(p: word, c: word)
    ensures Steps(p, c, 8) == ByteStep(p, c)
  {
    hide Step;
    var c4 := Step(p, Step(p, Step(p, Step(p, c))));
    assert Steps(p, c, 8) == Steps(p, Step(p, c), 7) == Steps(p, Step(p, Step(p, c)), 6)
        == Steps(p, Step(p, Step(p, Step(p, c))), 5) == Steps(p, c4, 4);
    assert Steps(p, c4, 4) == Steps(p, Step(p, c4), 3) == Steps(p, Step(p, Step(p, c4)), 2)
        == Steps(p, Step(p, Step(p, Step(p, c4))), 1);
  }

  lemma ByteHasNoHigh(b: octet)
    ensures High(Widen(b)) == 0
  {
  }

  lemma {:induction false} RegisterChains(p: word, c: word, a: seq<bool>, b: seq<bool>)
    ensures Register(p, c, a + b) == Register(p, Register(p, c, a), b)
    decreases |a|
  {
    hide Feed;
    if a == [] {
      assert a + b == b;
    } else {
      assert (a + b)[0] == a[0] && (a + b)[1..] == a[1..] + b;
      RegisterChains(p, Feed(p, c, a[0]), a[1..], b);
    }
  }

  /** Byte at a time is bit at a time. */
  lemma {:induction false} RunIsRegister(p: word, c: word, message: seq<octet>)
    ensures Run(p, c, message) == Register(p, c, MessageBits(message))
    decreases |message|
  {
    hide Plus, Widen, ByteStep, Bits, Shifts, High, Register;
    if message == [] {
      RegisterOfNothing(p, c);
    } else {
      var b := Widen(message[0]);
      EightShifts(b);
      ByteHasNoHigh(message[0]);
      RegisterSteps(p, c, b, 8);
      EightSteps(p, Plus(c, b));
      RegisterChains(p, c, Bits(b, 8), MessageBits(message[1..]));
      RunIsRegister(p, ByteStep(p, Plus(c, b)), message[1..]);
    }
  }

  lemma RegisterOfNothing(p: word, c: word)
    ensures Register(p, c, []) == c
  {
  }

  /** The first `n` bits are ones. */
  predicate AllOnes(m: word, n: nat)
    decreases n
  {
    n == 0 || (Leading(m) && AllOnes(Shift(m), n - 1))
  }

  lemma FourOnes(m: word, n: nat)
    requires m & 15 == 15 && AllOnes(m >> 4, n)
    ensures AllOnes(m, n + 4)
  {
    var m1, m2, m3 := m >> 1, m >> 2, m >> 3;
    assert Shift(m3) == m >> 4 && Shift(m2) == m3 && Shift(m1) == m2 && Shift(m) == m1;
    assert Leading(m) && Leading(m1) && Leading(m2) && Leading(m3);
    assert AllOnes(m3, n + 1);
    assert AllOnes(m2, n + 2);
    assert AllOnes(m1, n + 3);
  }

  lemma ThirtyTwoOnes()
    ensures AllOnes(ONES, 32)
  {
    assert AllOnes(0, 0);
    FourOnes(0xf, 0);
    FourOnes(0xff, 4);
    FourOnes(0xfff, 8);
    FourOnes(0xffff, 12);
    FourOnes(0xf_ffff, 16);
    FourOnes(0xff_ffff, 20);
    FourOnes(0xfff_ffff, 24);
    FourOnes(0xffff_ffff, 28);
  }

  lemma {:induction false} BitsOfOnes(m: word, n: nat)
    requires AllOnes(m, n)
    ensures forall i :: 0 <= i < n ==> Bits(m, n)[i]
    decreases n
  {
    hide Leading, Shift;
    if n > 0 {
      BitsOfOnes(Shift(m), n - 1);
    }
  }

  lemma Inverted(c: word)
    ensures Bits(Plus(c, ONES), 32) == Complement(Bits(c, 32))
  {
    hide Plus, Bits, AllOnes;
    BitsOfSum(c, ONES, 32);
    ThirtyTwoOnes();
    BitsOfOnes(ONES, 32);
  }

  /**
   The checksum of a message is the complement of the remainder of its bits, followed by 32
   zeros, with the complement of the seed added in front.
   */
  lemma ChecksumIsRemainder(p: word, seed: word, message: seq<octet>)
    ensures Bits(Checksum(p, seed, message), 32) ==
            Complement(Remainder(Add(MessageBits(message) + ZeroBits(32), Complement(Bits(seed, 32))), Bits(p, 32)))
  {
    hide Bits, Run, Remainder, Register, Plus;
    Inverted(seed);
    var c := Plus(seed, ONES);
    RunIsRegister(p, c, message);
    RegisterDivides(p, c, MessageBits(message));
    Inverted(Run(p, c, message));
  }

  // What the checksum detects

  /** The constant term of the generator is present, as it is in both polynomials of the source. */
  predicate HasConstantTerm(p: word) {
    p >= 0x8000_0000
  }

  lemma SourcePolynomialsHaveConstantTerm()
    ensures HasConstantTerm(0xedb8_8320) && HasConstantTerm(0x82f6_3b78)
  {
  }

  lemma OnlyZeroStepsToZero(p: word, c: word)
    requires HasConstantTerm(p) && Step(p, c) == 0
    ensures c == 0
  {
  }

  lemma StepIsInjective(p: word, x: word, y: word)
    requires HasConstantTerm(p) && Step(p, x) == Step(p, y)
    ensures x == y
  {
    hide Step, Plus;
    StepIsLinear(p, x, y);
    SumOfEquals(Step(p, x));
    OnlyZeroStepsToZero(p, Plus(x, y));
    EqualIfSumIsZero(x, y);
  }

  lemma SumOfEquals(x: word)
    ensures Plus(x, x) == 0
  {
  }

  lemma EqualIfSumIsZero(x: word, y: word)
    requires Plus(x, y) == 0
    ensures x == y
  {
  }

  lemma ByteStepIsInjective(p: word, x: word, y: word)
    requires HasConstantTerm(p) && ByteStep(p, x) == ByteStep(p, y)
    ensures x == y
  {
    hide Step;
    var x1, y1 := Step(p, x), Step(p, y);
    var x2, y2 := Step(p, x1), Step(p, y1);
    var x3, y3 := Step(p, x2), Step(p, y2);
    var x4, y4 := Step(p, x3), Step(p, y3);
    var x5, y5 := Step(p, x4), Step(p, y4);
    var x6, y6 := Step(p, x5), Step(p, y5);
    var x7, y7 := Step(p, x6), Step(p, y6);
    StepIsInjective(p, x7, y7);
    StepIsInjective(p, x6, y6);
    StepIsInjective(p, x5, y5);
    StepIsInjective(p, x4, y4);
    StepIsInjective(p, x3, y3);
    StepIsInjective(p, x2, y2);
    StepIsInjective(p, x1, y1);
    StepIsInjective(p, x, y);
  }

  lemma {:induction false} ByteStepsAreInjective(p: word, x: word, y: word, n: nat)
    requires HasConstantTerm(p) && ByteSteps(p, x, n) == ByteSteps(p, y, n)
    ensures x == y
    decreases n
  {
    hide ByteStep;
    if n > 0 {
      ByteStepsAreInjective(p, ByteStep(p, x), ByteStep(p, y), n - 1);
      ByteStepIsInjective(p, x, y);
    }
  }

  /** The same message keeps different registers different. */
  lemma RunIsInjective(p: word, x: word, y: word, message: seq<octet>)
    requires HasConstantTerm(p) && Run(p, x, message) == Run(p, y, message)
    ensures x == y
  {
    hide Run, Plus, ByteSteps, Mix;
    var n, m := |message|, Mix(p, message);
    RunIsMix(p, x, message);
    RunIsMix(p, y, message);
    SelfInverse(ByteSteps(p, x, n), m);
    SelfInverse(ByteSteps(p, y, n), m);
    ByteStepsAreInjective(p, x, y, n);
  }

  /** Four bytes as the register they stand for. */
  function FourBytes(b0: octet, b1: octet, b2: octet, b3: octet): word {
    Widen(b0) ^ (Widen(b1) << 8) ^ (Widen(b2) << 16) ^ (Widen(b3) << 24)
  }

  lemma BytesOfFourBytes(b0: octet, b1: octet, b2: octet, b3: octet)
    ensures var c := FourBytes(b0, b1, b2, b3);
            Low(c) == b0 && Low(High(c)) == b1 && Low(High(High(c))) == b2 && Low(High(High(High(c)))) == b3
  {
  }

  lemma PlusByteNeutral(b: octet)
    ensures PlusByte(0, b) == b
  {
  }

  /** Four message bytes act as the register of their bytes, four byte steps on. */
  lemma FourBytesRun(p: word, b0: octet, b1: octet, b2: octet, b3: octet)
    ensures Run(p, 0, [b0, b1, b2, b3]) == Run(p, FourBytes(b0, b1, b2, b3), [0, 0, 0, 0])
  {
    hide Run, FourBytes, Low, High, PlusByte;
    var c := FourBytes(b0, b1, b2, b3);
    BytesOfFourBytes(b0, b1, b2, b3);
    AbsorbWord(p, c, 0, 0, 0, 0, []);
    PlusByteNeutral(b0);
    PlusByteNeutral(b1);
    PlusByteNeutral(b2);
    PlusByteNeutral(b3);
    assert [0 as octet] + ([0 as octet] + ([0 as octet] + ([0 as octet] + []))) == [0, 0, 0, 0];
    assert [b0] + ([b1] + ([b2] + ([b3] + []))) == [b0, b1, b2, b3];
  }

  lemma FourBytesAreTold(p: word, c: word, x: seq<octet>, y: seq<octet>)
    requires HasConstantTerm(p) && |x| == |y| == 4 && Run(p, c, x) == Run(p, c, y)
    ensures x == y
  {
    hide Run, FourBytes, Plus, Mix, ByteSteps, Low, High, Widen;
    RunIsMix(p, c, x);
    RunIsMix(p, c, y);
    RunIsMix(p, 0, x);
    RunIsMix(p, 0, y);
    Commutative(ByteSteps(p, c, 4), Mix(p, x));
    Commutative(ByteSteps(p, c, 4), Mix(p, y));
    SelfInverse(Mix(p, x), ByteSteps(p, c, 4));
    SelfInverse(Mix(p, y), ByteSteps(p, c, 4));
    assert Run(p, 0, x) == Run(p, 0, y);
    assert x == [x[0], x[1], x[2], x[3]] && y == [y[0], y[1], y[2], y[3]];
    FourBytesRun(p, x[0], x[1], x[2], x[3]);
    FourBytesRun(p, y[0], y[1], y[2], y[3]);
    RunIsInjective(p, FourBytes(x[0], x[1], x[2], x[3]), FourBytes(y[0], y[1], y[2], y[3]), [0, 0, 0, 0]);
    BytesOfFourBytes(x[0], x[1], x[2], x[3]);
    BytesOfFourBytes(y[0], y[1], y[2], y[3]);
  }

  /** An error inside four consecutive bytes always changes the checksum. */
  lemma BurstIsDetected(p: word, seed: word, a: seq<octet>, x: seq<octet>, y: seq<octet>, b: seq<octet>)
    requires HasConstantTerm(p) && |x| == |y| <= 4
    ensures Checksum(p, seed, a + x + b) == Checksum(p, seed, a + y + b) <==> x == y
  {
    if Checksum(p, seed, a + x + b) == Checksum(p, seed, a + y + b) {
      hide Run, Plus;
      var c := Plus(seed, ONES);
      SelfInverse(Run(p, c, a + x + b), ONES);
      SelfInverse(Run(p, c, a + y + b), ONES);
      RunChains(p, c, a + x, b);
      RunChains(p, c, a + y, b);
      RunIsInjective(p, Run(p, c, a + x), Run(p, c, a + y), b);
      RunChains(p, c, a, x);
      RunChains(p, c, a, y);
      var z: seq<octet> := seq(4 - |x|, i => 0);
      RunChains(p, Run(p, c, a), x, z);
      RunChains(p, Run(p, c, a), y, z);
      FourBytesAreTold(p, Run(p, c, a), x + z, y + z);
      assert x == (x + z)[..|x|] == (y + z)[..|y|] == y;
    }
  }

  /** A generator without the constant term lets some four-byte error pass. */
  lemma SomeBurstPasses(p: word, seed: word) returns (x: seq<octet>, y: seq<octet>)
    requires !HasConstantTerm(p)
    ensures |x| == |y| == 4 && x != y && Checksum(p, seed, x) == Checksum(p, seed, y)
  {
    hide Run, Plus, ByteStep, Mix, ByteSteps;
    var v := Double(p);
    x := [1, 0, 0, 0];
    y := [Low(v), Low(High(v)), Low(High(High(v))), Low(High(High(High(v))))];
    DoubleShiftsOut(p);
    CollidingWords(p);
    WordOfBytes(v);
    FourBytesRun(p, 1, 0, 0, 0);
    FourBytesRun(p, y[0], y[1], y[2], y[3]);
    RunIsMix(p, 1, [0, 0, 0, 0]);
    RunIsMix(p, v, [0, 0, 0, 0]);
    FirstByteStepDecides(p, 1, v, 4);
    assert Run(p, 0, x) == Run(p, 0, y);
    var c := Plus(seed, ONES);
    RunIsMix(p, c, x);
    RunIsMix(p, c, y);
    RunIsMix(p, 0, x);
    RunIsMix(p, 0, y);
    ByteStepsOfZero(p, 4);
    Neutral(Mix(p, x));
    Neutral(Mix(p, y));
  }

  lemma CollidingWords(p: word)
    requires !HasConstantTerm(p)
    ensures Step(p, 1) == Step(p, Double(p)) && Low(Double(p)) & 1 == 0
    ensures FourBytes(1, 0, 0, 0) == 1
  {
    StepUndoesDouble(p, p);
    assert Step(p, 1) == p;
  }

  lemma WordOfBytes(v: word)
    ensures FourBytes(Low(v), Low(High(v)), Low(High(High(v))), Low(High(High(High(v))))) == v
  {
  }

  lemma FirstByteStepDecides(p: word, x: word, y: word, n: nat)
    requires n > 0 && Step(p, x) == Step(p, y)
    ensures ByteSteps(p, x, n) == ByteSteps(p, y, n)
  {
    hide Step;
    assert ByteStep(p, x) == ByteStep(p, y);
  }
}
