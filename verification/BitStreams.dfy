/**
 `BitStream` of packages/common/src/binary.ts (211-295): fields of up to 31 bits written to and
 read from a byte buffer, highest bit first.
 */
module BitStreams {
  import opened BigEndian
  import opened Bits

  function Minimum(a: nat, b: nat): nat {
    if a <= b then a else b
  }

  /** The bits of a buffer, byte by byte. */
  function BufferBits(s: seq<byte>): (b: seq<bool>)
    ensures |b| == 8 * |s|
  {
    if s == [] then [] else BufferBits(s[..|s| - 1]) + BitsOf(s[|s| - 1], 8)
  }

  lemma {:induction false} BufferBitsOfPrefix(s: seq<byte>, i: nat)
    requires i <= |s|
    ensures BufferBits(s)[..8 * i] == BufferBits(s[..i])
    decreases |s|
  {
    hide BitsOf;
    if i == |s| {
      assert s[..i] == s;
    } else {
      BufferBitsOfPrefix(s[..|s| - 1], i);
      assert s[..|s| - 1][..i] == s[..i];
    }
  }

  lemma BufferBitsOfByte(s: seq<byte>, i: nat)
    requires i < |s|
    ensures BufferBits(s)[..8 * (i + 1)] == BufferBits(s[..i]) + BitsOf(s[i], 8)
  {
    hide BitsOf;
    BufferBitsOfPrefix(s, i + 1);
    assert s[..i + 1][..i] == s[..i] && s[..i + 1][i] == s[i];
  }

  lemma ByteSlice(s: seq<byte>, i: nat)
    requires i < |s|
    ensures BufferBits(s)[8 * i..8 * (i + 1)] == BitsOf(s[i], 8)
  {
    hide BitsOf, BufferBits;
    BufferBitsOfByte(s, i);
    assert BufferBits(s)[8 * i..8 * (i + 1)] == BufferBits(s)[..8 * (i + 1)][8 * i..];
  }

  /** Of a byte whose low `p` bits are free, the next `c` are filled with `x`. */
  lemma PutBits(b: nat, p: nat, c: nat, x: nat)
    requires b < 256 && c <= p <= 8 && x < Pow2(c) && Rem(b, Pow2(p)) == 0
    ensures var b' := Or(b, x * Pow2(p - c));
            && b' < 256 && Rem(b', Pow2(p - c)) == 0
            && BitsOf(b', 8)[..8 - p + c] == BitsOf(b, 8)[..8 - p] + BitsOf(x, c)
  {
    hide Or, BitsOf, Pow2, Rem, Quot;
    var h, q := Quot(b, Pow2(p)), Pow2(p - c);
    DivisionLaw(b, Pow2(p));
    PowAdds(c, p - c);
    ShiftedIsSmall(x, Pow2(c), q);
    OrIsSum(h, x * q, p);
    var b' := Or(b, x * q);
    Factored(h, Pow2(c), q, x);
    var y := h * Pow2(c) + x;
    PowIsPositive(p - c);
    DivisionIs(b', y, q, 0);
    BitsConcat(y, 0, 8 - p + c, p - c);
    BitsConcat(h, x, 8 - p, c);
    PowIsPositive(p);
    BitsConcat(h, 0, 8 - p, p);
    HighPart(b, p, h);
    TopBound(h, p, c, x, b');
    assert BitsOf(b, 8)[..8 - p] == BitsOf(h, 8 - p);
  }

  lemma PowIsPositive(n: nat)
    ensures 0 < Pow2(n)
  {
  }

  lemma ShiftedIsSmall(x: nat, m: nat, q: nat)
    requires x < m && q > 0
    ensures x * q + q <= m * q
  {
    Multiples(x, m, q);
  }

  lemma Factored(h: nat, m: nat, q: nat, x: nat)
    ensures h * (m * q) + x * q == (h * m + x) * q
  {
  }

  lemma HighPart(b: nat, p: nat, h: nat)
    requires b < 256 && p <= 8 && b == h * Pow2(p)
    ensures h < Pow2(8 - p)
  {
    hide Pow2;
    PowAdds(8 - p, p);
    EightBits();
    if h >= Pow2(8 - p) {
      ProductGrows(Pow2(8 - p), h, Pow2(p));
      assert false;
    }
  }

  lemma EightBits()
    ensures Pow2(8) == 256
  {
    assert Pow2(2) == 4 && Pow2(4) == 16 && Pow2(6) == 64;
  }

  lemma ProductGrows(a: nat, b: nat, m: nat)
    requires a <= b
    ensures a * m <= b * m
  {
    Multiples(a, b, m);
  }

  lemma TopBound(h: nat, p: nat, c: nat, x: nat, b': nat)
    requires c <= p <= 8 && h < Pow2(8 - p) && x < Pow2(c) && b' == h * Pow2(p) + x * Pow2(p - c)
    ensures b' < 256
  {
    hide Pow2;
    PowAdds(c, p - c);
    PowIsPositive(p - c);
    ShiftedIsSmall(x, Pow2(c), Pow2(p - c));
    PowIsPositive(p);
    ShiftedIsSmall(h, Pow2(8 - p), Pow2(p));
    PowAdds(8 - p, p);
    EightBits();
  }

  /** The next `c` bits of a byte of which `p` are unread. */
  lemma GetBits(b: nat, p: nat, c: nat)
    requires b < 256 && c <= p <= 8
    ensures NatOf(BitsOf(b, 8)[8 - p..8 - p + c]) == Quot(Rem(b, Pow2(p)), Pow2(p - c))
    ensures Quot(Rem(b, Pow2(p)), Pow2(p - c)) < Pow2(c)
  {
    hide BitsOf, NatOf, Pow2, Rem, Quot;
    var r := Rem(b, Pow2(p));
    var x := Quot(r, Pow2(p - c));
    BitsSplit(b, 8 - p, p);
    BitsSplit(r, c, p - c);
    assert BitsOf(b, 8)[8 - p..8 - p + c] == BitsOf(x, c);
    NatOfBits(x, c);
    QuotIsSmall(r, c, p - c);
    SmallRem(x, Pow2(c));
  }

  lemma QuotIsSmall(r: nat, c: nat, k: nat)
    requires r < Pow2(c + k)
    ensures Quot(r, Pow2(k)) < Pow2(c)
  {
    hide Pow2, Quot, Rem;
    PowAdds(c, k);
    DivisionLaw(r, Pow2(k));
    if Quot(r, Pow2(k)) >= Pow2(c) {
      ProductGrows(Pow2(c), Quot(r, Pow2(k)), Pow2(k));
      assert false;
    }
  }

  lemma SmallRem(x: nat, m: nat)
    requires x < m
    ensures Rem(x, m) == x
  {
  }

  /** Rewriting byte `i` keeps what was written before its free bits and adds `x` behind it. */
  lemma ByteWritten(s: seq<byte>, s': seq<byte>, i: nat, p: nat, c: nat, x: nat)
    requires |s| == |s'| && i < |s| && c <= p <= 8 && s'[..i] == s[..i]
    requires BitsOf(s'[i], 8)[..8 - p + c] == BitsOf(s[i], 8)[..8 - p] + BitsOf(x, c)
    ensures BufferBits(s')[..8 * (i + 1) - p + c] == BufferBits(s)[..8 * (i + 1) - p] + BitsOf(x, c)
  {
    hide BitsOf, BufferBits;
    BufferBitsOfByte(s, i);
    BufferBitsOfByte(s', i);
    var k := 8 * i;
    assert BufferBits(s)[..k + 8 - p] == BufferBits(s[..i]) + BitsOf(s[i], 8)[..8 - p] by {
      assert BufferBits(s)[..k + 8 - p] == BufferBits(s)[..8 * (i + 1)][..k + 8 - p];
    }
    assert BufferBits(s')[..k + 8 - p + c] == BufferBits(s[..i]) + BitsOf(s'[i], 8)[..8 - p + c] by {
      assert BufferBits(s')[..k + 8 - p + c] == BufferBits(s')[..8 * (i + 1)][..k + 8 - p + c];
    }
  }

  /** The bits of byte `i` from `8 - p` on, seen in the buffer from bit `at` on. */
  lemma ByteRead(s: seq<byte>, i: nat, p: nat, c: nat, at: nat)
    requires i < |s| && c <= p <= 8 && at == 8 * i + (8 - p)
    ensures BufferBits(s)[at..at + c] == BitsOf(s[i], 8)[8 - p..8 - p + c]
  {
    hide BitsOf, BufferBits;
    ByteSlice(s, i);
    PartOfByte(BufferBits(s), BitsOf(s[i], 8), i, p, c, at);
  }

  lemma PartOfByte(all: seq<bool>, w: seq<bool>, i: nat, p: nat, c: nat, at: nat)
    requires 8 * (i + 1) <= |all| && |w| == 8 && all[8 * i..8 * (i + 1)] == w && c <= p <= 8 && at == 8 * i + (8 - p)
    ensures all[at..at + c] == w[8 - p..8 - p + c]
  {
    var a, b := all[at..at + c], w[8 - p..8 - p + c];
    forall x | 0 <= x < c
      ensures a[x] == b[x]
    {
      assert w[8 - p + x] == all[8 * i..8 * (i + 1)][8 - p + x];
    }
  }

  lemma SubSlice(b: seq<bool>, i: nat, j: nat, k: nat, l: nat)
    requires k <= l <= j - i && i <= j <= |b|
    ensures b[i..j][k..l] == b[i + k..i + l]
  {
    var m := b[i..j];
    assert forall x :: 0 <= x < l - k ==> m[k..l][x] == m[k + x] == b[i + (k + x)];
  }

  /** `value & (0xffffffff >>> (32 - bits))`. */
  function Masked(value: int, bits: nat): (v: nat)
    ensures v < Pow2(bits)
  {
    value % Pow2(bits)
  }

  lemma MaskedTwice(v: nat, bits: nat)
    ensures Masked(v, bits) == Rem(v, Pow2(bits))
  {
  }

  class BitStream {
    const buffer: array<byte>
    var position: nat
    var bitsPending: nat

    constructor (b: array<byte>)
      ensures Valid() && buffer == b && BitPosition() == 0 && Clean()
    {
      buffer, position, bitsPending := b, 0, 0;
    }

    predicate Valid()
      reads this
    {
      position <= buffer.Length && bitsPending < 8 && (bitsPending > 0 ==> position > 0)
    }

    function BitPosition(): nat
      requires Valid()
      reads this
    {
      8 * position - bitsPending
    }

    /** The unwritten bits of the current byte are zero. */
    ghost predicate Clean()
      requires Valid()
      reads this, buffer
    {
      bitsPending > 0 ==> Rem(buffer[position - 1], Pow2(bitsPending)) == 0
    }

    ghost function AllBits(): (b: seq<bool>)
      reads this, buffer
      ensures |b| == 8 * buffer.Length
    {
      BufferBits(buffer[..])
    }

    ghost function Written(): seq<bool>
      requires Valid()
      reads this, buffer
    {
      AllBits()[..BitPosition()]
    }

    /** Fills free bits of the current byte with the highest of the `bits` bits of `v`. */
    method FillByte(bits: nat, v: nat) returns (c: nat)
      requires Valid() && Clean() && bitsPending > 0 && 0 < bits && v < Pow2(bits)
      modifies this`bitsPending, buffer
      ensures Valid() && Clean() && 0 < c <= bits && c == Minimum(old(bitsPending), bits)
      ensures BitPosition() == old(BitPosition()) + c
      ensures Written() == old(Written()) + BitsOf(Quot(v, Pow2(bits - c)), c)
      ensures forall i :: position <= i < buffer.Length ==> buffer[i] == old(buffer[i])
    {
      hide Or, BitsOf, BufferBits, Pow2, Quot, Rem;
      ghost var s := buffer[..];
      ghost var p := bitsPending;
      var b := buffer[position - 1];
      c := if bitsPending > bits then bits else bitsPending;
      ghost var x := Quot(v, Pow2(bits - c));
      QuotIsSmall(v, c, bits - c);
      PutBits(b, p, c, x);
      ByOne(v);
      ByOne(x);
      if bitsPending > bits {
        buffer[position - 1] := Or(b, v * Pow2(bitsPending - bits));
        bitsPending := bitsPending - bits;
      } else if bitsPending == bits {
        buffer[position - 1] := Or(b, v);
        bitsPending := 0;
      } else {
        buffer[position - 1] := Or(b, Quot(v, Pow2(bits - bitsPending)));
        bitsPending := 0;
      }
      assert buffer[position - 1] == Or(b, x * Pow2(p - c));
      ByteWritten(s, buffer[..], position - 1, p, c, x);
    }

    /** Starts a byte with the highest of the `bits` bits of `v`; what the byte held is lost. */
    method StartByte(bits: nat, v: nat) returns (c: nat)
      requires Valid() && bitsPending == 0 && position < buffer.Length && 0 < bits && v < Pow2(bits)
      modifies this`position, this`bitsPending, buffer
      ensures Valid() && Clean() && 0 < c <= bits && c == Minimum(8, bits)
      ensures BitPosition() == old(BitPosition()) + c
      ensures Written() == old(Written()) + BitsOf(Quot(v, Pow2(bits - c)), c)
      ensures forall i :: position <= i < buffer.Length ==> buffer[i] == old(buffer[i])
    {
      hide Or, BitsOf, BufferBits, Pow2, Quot, Rem;
      ghost var s := buffer[..];
      c := if 8 <= bits then 8 else bits;
      var x := Quot(v, Pow2(bits - c));
      QuotIsSmall(v, c, bits - c);
      ZeroRem(Pow2(8));
      PutBits(0, 8, c, x);
      OrNothing(x * Pow2(8 - c));
      bitsPending := 8 - c;
      buffer[position] := x * Pow2(bitsPending);
      position := position + 1;
      assert BitsOf(s[position - 1], 8)[..0] == [] == BitsOf(0, 8)[..0];
      ByteWritten(s, buffer[..], position - 1, 8, c, x);
    }

    /** Writes the low `bits` bits of `value` behind what is written, and alters none of it. */
    method WriteBits(bits: nat, value: int)
      requires Valid() && Clean() && bits <= 31 && BitPosition() + bits <= 8 * buffer.Length
      modifies this`position, this`bitsPending, buffer
      ensures Valid() && Clean() && BitPosition() == old(BitPosition()) + bits
      ensures Written() == old(Written()) + BitsOf(Masked(value, bits), bits)
      ensures forall i :: position <= i < buffer.Length ==> buffer[i] == old(buffer[i])
      decreases bits
    {
      hide BitsOf, BufferBits, Pow2, Quot, Rem, Masked;
      if bits == 0 {
        NoBits(Masked(value, 0));
        return;
      }
      var v := Masked(value, bits);
      var c;
      if bitsPending > 0 {
        c := FillByte(bits, v);
      } else {
        c := StartByte(bits, v);
      }
      ghost var first := Written();
      BitsSplit(v, c, bits - c);
      if bits - c > 0 {
        MaskedTwice(v, bits - c);
        WriteBits(bits - c, v);
      } else {
        NoBits(Rem(v, Pow2(0)));
      }
      ghost var hi, lo := BitsOf(Quot(v, Pow2(bits - c)), c), BitsOf(Rem(v, Pow2(bits - c)), bits - c);
      assert old(Written()) + hi + lo == old(Written()) + (hi + lo);
    }

    /** Reads at most `bits` bits from one byte. */
    method ReadPart(bits: nat) returns (partial: nat, c: nat)
      requires Valid() && 0 < bits && BitPosition() + bits <= 8 * buffer.Length
      modifies this`position, this`bitsPending
      ensures Valid() && 0 < c <= bits && BitPosition() == old(BitPosition()) + c
      ensures partial < Pow2(c) && partial == NatOf(AllBits()[old(BitPosition())..BitPosition()])
    {
      hide And, BitsOf, NatOf, BufferBits, Pow2, Quot, Rem;
      if bitsPending > 0 {
        AndIsRemainder(buffer[position - 1], bitsPending);
        var b := And(buffer[position - 1], Pow2(bitsPending) - 1);
        c := if bitsPending <= bits then bitsPending else bits;
        GetBits(buffer[position - 1], bitsPending, c);
        ByteRead(buffer[..], position - 1, bitsPending, c, BitPosition());
        bitsPending := bitsPending - c;
        partial := Quot(b, Pow2(bitsPending));
      } else {
        c := if 8 <= bits then 8 else bits;
        GetBits(buffer[position], 8, c);
        WholeByte(buffer[position]);
        ByteRead(buffer[..], position, 8, c, BitPosition());
        bitsPending := 8 - c;
        partial := Quot(buffer[position], Pow2(bitsPending));
        position := position + 1;
      }
    }

    /** Reads the next `bits` bits after those already in `bitBuffer`. */
    method ReadMore(bits: nat, bitBuffer: nat) returns (r: nat)
      requires Valid() && bits <= 31 && BitPosition() + bits <= 8 * buffer.Length
      modifies this`position, this`bitsPending
      ensures Valid() && BitPosition() == old(BitPosition()) + bits
      ensures r == bitBuffer * Pow2(bits) + NatOf(AllBits()[old(BitPosition())..BitPosition()])
      decreases bits
    {
      hide Or, NatOf, BufferBits, Pow2;
      ghost var start := BitPosition();
      if bits == 0 {
        NoNumber(bitBuffer, AllBits()[start..start]);
        return bitBuffer;
      }
      var partial, c := ReadPart(bits);
      ghost var bits1 := AllBits()[start..start + c];
      OrIsSum(bitBuffer, partial, c);
      var bitBuffer' := Or(bitBuffer * Pow2(c), partial);
      if bits - c > 0 {
        r := ReadMore(bits - c, bitBuffer');
        ghost var bits2 := AllBits()[start + c..start + bits];
        assert AllBits()[start..start + bits] == bits1 + bits2;
        NumberGrows(bitBuffer, bits1, bits2);
      } else {
        r := bitBuffer';
      }
    }

    method ReadBits(bits: nat) returns (r: nat)
      requires Valid() && bits <= 31 && BitPosition() + bits <= 8 * buffer.Length
      modifies this`position, this`bitsPending
      ensures Valid() && BitPosition() == old(BitPosition()) + bits
      ensures r == NatOf(AllBits()[old(BitPosition())..BitPosition()])
    {
      r := ReadMore(bits, 0);
    }

    method SeekTo(bitPos: nat)
      requires bitPos <= 8 * buffer.Length
      modifies this`position, this`bitsPending
      ensures Valid() && BitPosition() == bitPos
    {
      position := bitPos / 8;
      bitsPending := bitPos % 8;
      if bitsPending > 0 {
        bitsPending := 8 - bitsPending;
        position := position + 1;
      }
    }
  }

  lemma ByOne(v: nat)
    ensures Quot(v, Pow2(0)) == v && v * Pow2(0) == v
  {
  }

  lemma ZeroRem(m: nat)
    requires m > 0
    ensures Rem(0, m) == 0
  {
  }

  lemma OrNothing(x: nat)
    ensures Or(0, x) == x
    decreases x
  {
    if x > 0 {
      OrNothing(x / 2);
    }
  }

  lemma NoBits(n: nat)
    ensures BitsOf(n, 0) == []
  {
  }

  lemma NoNumber(n: nat, b: seq<bool>)
    requires b == []
    ensures n == n * Pow2(0) + NatOf(b)
  {
  }

  lemma WholeByte(b: nat)
    requires b < 256
    ensures Rem(b, Pow2(8)) == b
  {
    EightBits();
  }

  lemma NumberGrows(n: nat, a: seq<bool>, b: seq<bool>)
    ensures (n * Pow2(|a|) + NatOf(a)) * Pow2(|b|) + NatOf(b) == n * Pow2(|a| + |b|) + NatOf(a + b)
  {
    hide Pow2, NatOf;
    NatOfConcat(a, b);
    PowAdds(|a|, |b|);
    Distributes(n, Pow2(|a|), NatOf(a), Pow2(|b|));
  }

  lemma Distributes(n: nat, p: nat, a: nat, q: nat)
    ensures (n * p + a) * q == n * (p * q) + a * q
  {
  }

  // Fields there and back

  datatype Field = Field(bits: nat, value: int)

  ghost predicate FieldsOk(fields: seq<Field>) {
    forall i :: 0 <= i < |fields| ==> 1 <= fields[i].bits <= 31
  }

  function Width(fields: seq<Field>): nat {
    if fields == [] then 0 else Width(fields[..|fields| - 1]) + fields[|fields| - 1].bits
  }

  function FieldBits(fields: seq<Field>): (b: seq<bool>)
    ensures |b| == Width(fields)
  {
    if fields == [] then []
    else
      var f := fields[|fields| - 1];
      FieldBits(fields[..|fields| - 1]) + BitsOf(Masked(f.value, f.bits), f.bits)
  }

  lemma {:induction false} FieldAt(fields: seq<Field>, i: nat)
    requires i < |fields|
    ensures Width(fields[..i]) + fields[i].bits == Width(fields[..i + 1]) <= Width(fields)
    ensures FieldBits(fields)[Width(fields[..i])..Width(fields[..i + 1])] ==
            BitsOf(Masked(fields[i].value, fields[i].bits), fields[i].bits)
    decreases |fields|
  {
    hide BitsOf, Masked;
    var init := fields[..|fields| - 1];
    assert fields[..i + 1][..i] == fields[..i];
    if i < |init| {
      FieldAt(init, i);
      assert init[..i] == fields[..i] && init[..i + 1] == fields[..i + 1];
    } else {
      assert fields[..i] == init && fields[..i + 1] == fields;
    }
  }

  method WriteFields(stream: BitStream, fields: seq<Field>)
    requires stream.Valid() && stream.BitPosition() == 0 && stream.Clean()
    requires FieldsOk(fields) && Width(fields) <= 8 * stream.buffer.Length
    modifies stream`position, stream`bitsPending, stream.buffer
    ensures stream.Valid() && stream.Written() == FieldBits(fields)
  {
    hide BitsOf, Masked, BufferBits;
    assert fields[..0] == [];
    for i := 0 to |fields|
      invariant stream.Valid() && stream.Clean() && stream.BitPosition() == Width(fields[..i])
      invariant stream.Written() == FieldBits(fields[..i])
    {
      FieldAt(fields, i);
      assert fields[..i + 1][..i] == fields[..i];
      stream.WriteBits(fields[i].bits, fields[i].value);
    }
    assert fields[..|fields|] == fields;
  }

  method ReadFields(stream: BitStream, fields: seq<Field>) returns (values: seq<nat>)
    requires stream.Valid() && stream.BitPosition() == 0 && FieldsOk(fields)
    requires Width(fields) <= 8 * stream.buffer.Length && stream.AllBits()[..Width(fields)] == FieldBits(fields)
    modifies stream`position, stream`bitsPending
    ensures |values| == |fields|
    ensures forall i :: 0 <= i < |fields| ==> values[i] == Masked(fields[i].value, fields[i].bits)
  {
    hide BitsOf, BufferBits, NatOf, Pow2, Masked, FieldBits;
    ghost var all, n := stream.AllBits(), Width(fields);
    values := [];
    assert fields[..0] == [];
    for i := 0 to |fields|
      invariant stream.Valid() && stream.BitPosition() == Width(fields[..i]) && stream.AllBits() == all
      invariant |values| == i && forall j :: 0 <= j < i ==> values[j] == Masked(fields[j].value, fields[j].bits)
    {
      FieldAt(fields, i);
      ghost var at, f := stream.BitPosition(), fields[i];
      var v := stream.ReadBits(fields[i].bits);
      SubSlice(all, 0, n, at, at + f.bits);
      FieldNumber(f);
      values := values + [v];
    }
  }

  /** Fields written to any buffer they fit, then read from bit 0, come back modulo their width. */
  method WriteThenRead(stream: BitStream, fields: seq<Field>) returns (values: seq<nat>)
    requires stream.Valid() && stream.BitPosition() == 0 && stream.Clean()
    requires FieldsOk(fields) && Width(fields) <= 8 * stream.buffer.Length
    modifies stream`position, stream`bitsPending, stream.buffer
    ensures |values| == |fields|
    ensures forall i :: 0 <= i < |fields| ==> values[i] == fields[i].value % Pow2(fields[i].bits)
  {
    hide BitsOf, BufferBits, NatOf, Pow2;
    WriteFields(stream, fields);
    ghost var all := stream.AllBits();
    stream.SeekTo(0);
    assert stream.AllBits() == all;
    values := ReadFields(stream, fields);
  }

  lemma FieldNumber(f: Field)
    ensures NatOf(BitsOf(Masked(f.value, f.bits), f.bits)) == Masked(f.value, f.bits)
  {
    hide Rem;
    var v := Masked(f.value, f.bits);
    NatOfBits(v, f.bits);
    SmallRem(v, Pow2(f.bits));
  }
}
