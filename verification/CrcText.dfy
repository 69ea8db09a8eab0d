/**
 The checksum of a string (`crcGenericString`, packages/common/src/crc.ts:50-84): the source
 encodes UTF-16 code units to UTF-8 on the fly and feeds the register byte by byte.
 */
module CrcText {
  import opened Crc

  type unit = bv16

  predicate Surrogate(c: unit) {
    0xd800 <= c < 0xe000
  }

  /** The bits of a surrogate above the low ten of its code point. */
  function Upper(c: unit): unit {
    (c & 1023) + 64
  }

  function Lower(d: unit): unit {
    d & 1023
  }

  function FourBytesOf(c: unit, d: unit): seq<octet> {
    [(240 | ((c >> 8) & 7)) as octet,
     (128 | ((c >> 2) & 63)) as octet,
     (128 | ((d >> 6) & 15) | ((c & 3) << 4)) as octet,
     (128 | (d & 63)) as octet]
  }

  /** What the four-byte branch makes of a surrogate `c` and the unit `d` after it. */
  function PairBytes(c: unit, d: unit): seq<octet> {
    FourBytesOf(Upper(c), Lower(d))
  }

  function UnitBytes(c: unit): seq<octet>
    requires !Surrogate(c)
  {
    if c < 0x80 then [c as octet]
    else if c < 0x800 then [(192 | ((c >> 6) & 31)) as octet, (128 | (c & 63)) as octet]
    else [(224 | ((c >> 12) & 15)) as octet, (128 | ((c >> 6) & 63)) as octet, (128 | (c & 63)) as octet]
  }

  /** The bytes fed for a string; a surrogate takes the next unit with it, or 0 at the end. */
  function StringBytes(value: seq<unit>): seq<octet> {
    if value == [] then []
    else if !Surrogate(value[0]) then UnitBytes(value[0]) + StringBytes(value[1..])
    else if |value| == 1 then PairBytes(value[0], 0)
    else PairBytes(value[0], value[1]) + StringBytes(value[2..])
  }

  // The two standard encodings of a code point

  type scalar = bv32

  predicate IsScalar(cp: scalar) {
    cp < 0xd800 || 0xe000 <= cp < 0x11_0000
  }

  function Utf16(cp: scalar): seq<unit>
    requires IsScalar(cp)
  {
    if cp < 0x1_0000 then [(cp & 0xffff) as unit]
    else [(0xd800 + (((cp - 0x1_0000) >> 10) & 0x3ff)) as unit, (0xdc00 + ((cp - 0x1_0000) & 0x3ff)) as unit]
  }

  function Utf8(cp: scalar): seq<octet>
    requires IsScalar(cp)
  {
    if cp < 0x80 then [Low(cp)]
    else if cp < 0x800 then [Low(0xc0 | (cp >> 6)), Low(0x80 | (cp & 0x3f))]
    else if cp < 0x1_0000 then [Low(0xe0 | (cp >> 12)), Low(0x80 | ((cp >> 6) & 0x3f)), Low(0x80 | (cp & 0x3f))]
    else [Low(0xf0 | (cp >> 18)), Low(0x80 | ((cp >> 12) & 0x3f)), Low(0x80 | ((cp >> 6) & 0x3f)), Low(0x80 | (cp & 0x3f))]
  }

  ghost predicate AreScalars(text: seq<scalar>) {
    forall i :: 0 <= i < |text| ==> IsScalar(text[i])
  }

  function Units(text: seq<scalar>): seq<unit>
    requires AreScalars(text)
  {
    if text == [] then [] else Utf16(text[0]) + Units(text[1..])
  }

  function Encoded(text: seq<scalar>): seq<octet>
    requires AreScalars(text)
  {
    if text == [] then [] else Utf8(text[0]) + Encoded(text[1..])
  }

  lemma BasicPlane(cp: scalar)
    requires IsScalar(cp) && cp < 0x1_0000
    ensures !Surrogate(Utf16(cp)[0]) && UnitBytes(Utf16(cp)[0]) == Utf8(cp)
  {
  }

  function UpperBits(cp: scalar): unit {
    ((cp >> 10) & 0xffff) as unit
  }

  function LowerBits(cp: scalar): unit {
    (cp & 0x3ff) as unit
  }

  lemma HighSurrogate(cp: scalar)
    requires IsScalar(cp) && cp >= 0x1_0000
    ensures Surrogate(Utf16(cp)[0]) && Upper(Utf16(cp)[0]) == UpperBits(cp)
  {
  }

  lemma LowSurrogate(cp: scalar)
    requires IsScalar(cp) && cp >= 0x1_0000
    ensures Lower(Utf16(cp)[1]) == LowerBits(cp)
  {
  }

  lemma FirstTwoBytes(cp: scalar)
    requires IsScalar(cp) && cp >= 0x1_0000
    ensures FourBytesOf(UpperBits(cp), LowerBits(cp))[0] == Utf8(cp)[0]
    ensures FourBytesOf(UpperBits(cp), LowerBits(cp))[1] == Utf8(cp)[1]
  {
  }

  lemma LastTwoBytes(cp: scalar)
    requires IsScalar(cp) && cp >= 0x1_0000
    ensures FourBytesOf(UpperBits(cp), LowerBits(cp))[2] == Utf8(cp)[2]
    ensures FourBytesOf(UpperBits(cp), LowerBits(cp))[3] == Utf8(cp)[3]
  {
  }

  lemma FourEach(cp: scalar)
    requires IsScalar(cp) && cp >= 0x1_0000
    ensures |Utf8(cp)| == 4 == |FourBytesOf(UpperBits(cp), LowerBits(cp))| && |Utf16(cp)| == 2
  {
    hide UpperBits, LowerBits, Low;
  }

  lemma OtherPlanes(cp: scalar)
    requires IsScalar(cp) && cp >= 0x1_0000
    ensures |Utf16(cp)| == 2 && Surrogate(Utf16(cp)[0]) && PairBytes(Utf16(cp)[0], Utf16(cp)[1]) == Utf8(cp)
  {
    hide Surrogate, Upper, Lower, UpperBits, LowerBits, FourBytesOf, Utf8, Utf16;
    FourEach(cp);
    HighSurrogate(cp);
    LowSurrogate(cp);
    FirstTwoBytes(cp);
    LastTwoBytes(cp);
  }

  /** On well-formed text the bytes fed are its UTF-8 encoding. */
  lemma {:induction false} StringBytesAreUtf8(text: seq<scalar>)
    requires AreScalars(text)
    ensures StringBytes(Units(text)) == Encoded(text)
    decreases |text|
  {
    if text != [] {
      StringBytesAreUtf8(text[1..]);
      var u, rest := Utf16(text[0]), Units(text[1..]);
      if text[0] < 0x1_0000 {
        BasicPlane(text[0]);
        assert (u + rest)[1..] == rest;
      } else {
        OtherPlanes(text[0]);
        assert (u + rest)[2..] == rest;
      }
    }
  }

  method CrcGenericString(ghost p: word, value: seq<unit>, seed: word, table0: seq<word>) returns (checksum: word)
    requires IsTable(p, table0, 1)
    ensures checksum == Checksum(p, seed, StringBytes(value))
  {
    hide Run, Plus, UnitBytes, PairBytes;
    var crc := Plus(seed, ONES);
    var i := 0;
    assert value[0..] == value;
    while i < |value|
      invariant i <= |value|
      invariant Run(p, Plus(seed, ONES), StringBytes(value)) == Run(p, crc, StringBytes(value[i..]))
    {
      var c := value[i];
      ghost var rest := value[i..];
      i := i + 1;
      if !Surrogate(c) {
        RunChains(p, crc, UnitBytes(c), StringBytes(rest[1..]));
        assert rest[1..] == value[i..];
        crc := FeedBytes(p, crc, table0, UnitBytes(c));
      } else {
        var d := if i < |value| then value[i] else 0;
        i := if i < |value| then i + 1 else i;
        RunChains(p, crc, PairBytes(c, d), StringBytes(value[i..]));
        assert |rest| > 1 ==> rest[2..] == value[i..];
        assert |rest| == 1 ==> PairBytes(c, d) + StringBytes(value[i..]) == PairBytes(c, d);
        crc := FeedBytes(p, crc, table0, PairBytes(c, d));
      }
    }
    RunNothing(p, crc);
    checksum := Plus(crc, ONES);
  }

  /** The table steps for one character. */
  method FeedBytes(ghost p: word, c: word, table0: seq<word>, bytes: seq<octet>) returns (crc: word)
    requires IsTable(p, table0, 1)
    ensures crc == Run(p, c, bytes)
  {
    hide Run, Plus, High, Low, Lookup, PlusByte, Widen, ByteSteps, Octet;
    crc := c;
    assert bytes[0..] == bytes;
    for i := 0 to |bytes|
      invariant Run(p, c, bytes) == Run(p, crc, bytes[i..])
    {
      TableStep(p, table0, crc, bytes[i]);
      RunCons(p, crc, bytes[i], bytes[i + 1..]);
      assert bytes[i..] == [bytes[i]] + bytes[i + 1..];
      crc := Plus(High(crc), Lookup(table0, PlusByte(Low(crc), bytes[i])));
    }
    assert bytes[|bytes|..] == [];
    RunNothing(p, crc);
  }
}
