/** Integers in network byte order, as Node's Buffer reads and writes them. */
module BigEndian {
  import opened Wrappers

  type byte = x: int | 0 <= x < 256

  const MAX16: nat := 0x1_0000
  const MAX32: nat := 0x1_0000_0000

  function U16(n: nat): (b: seq<byte>)
    requires n < MAX16
    ensures |b| == 2
  {
    [n / 256, n % 256]
  }

  function U32(n: nat): (b: seq<byte>)
    requires n < MAX32
    ensures |b| == 4
  {
    U16(n / MAX16) + U16(n % MAX16)
  }

  /** Reading past the end throws. */
  function Read16(b: seq<byte>, pos: nat): (r: Option<nat>)
    ensures r.Some? ==> r.value < MAX16
  {
    if pos + 2 <= |b| then (var n: nat := b[pos] as int * 256 + b[pos + 1] as int; Some(n)) else None
  }

  function Read32(b: seq<byte>, pos: nat): (r: Option<nat>)
    ensures r.Some? ==> r.value < MAX32
  {
    if pos + 4 <= |b| then Some(Read16(b, pos).value * MAX16 + Read16(b, pos + 2).value) else None
  }

  /** `Buffer.slice` for non-negative bounds: both are cut at the end of the buffer. */
  function Slice(b: seq<byte>, from: nat, to: nat): seq<byte> {
    var end := if to <= |b| then to else |b|;
    if from <= end then b[from..end] else []
  }

  function Zeros(n: nat): (z: seq<byte>)
    ensures |z| == n
  {
    seq(n, i => 0)
  }

  lemma Read16At(before: seq<byte>, n: nat, after: seq<byte>)
    requires n < MAX16
    ensures Read16(before + U16(n) + after, |before|) == Some(n)
  {
    var b := before + U16(n) + after;
    assert b[|before|] == n / 256 && b[|before| + 1] == n % 256;
  }

  lemma Read32At(before: seq<byte>, n: nat, after: seq<byte>)
    requires n < MAX32
    ensures Read32(before + U32(n) + after, |before|) == Some(n)
  {
    var hi, lo := n / MAX16, n % MAX16;
    Read16At(before, hi, U16(lo) + after);
    Read16At(before + U16(hi), lo, after);
    assert before + U32(n) + after == before + U16(hi) + (U16(lo) + after);
    assert before + U32(n) + after == before + U16(hi) + U16(lo) + after;
  }

  /** The same with the position given on its own. */
  lemma Reads16(b: seq<byte>, pos: nat, n: nat)
    requires n < MAX16 && pos + 2 <= |b| && b[pos..pos + 2] == U16(n)
    ensures Read16(b, pos) == Some(n)
  {
    Read16At(b[..pos], n, b[pos + 2..]);
    assert b == b[..pos] + U16(n) + b[pos + 2..];
  }

  lemma Reads32(b: seq<byte>, pos: nat, n: nat)
    requires n < MAX32 && pos + 4 <= |b| && b[pos..pos + 4] == U32(n)
    ensures Read32(b, pos) == Some(n)
  {
    Read32At(b[..pos], n, b[pos + 4..]);
    assert b == b[..pos] + U32(n) + b[pos + 4..];
  }
}
