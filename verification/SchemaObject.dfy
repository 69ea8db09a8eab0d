/**
 `BinaryReader`, `BinaryWriter` and the recursion over schemas of packages/common/src/binaryData.ts,
 which read from and write to them in place.
 */
module SchemaObject {
  import opened Wrappers
  import opened BigEndian
  import opened Schema

  class BinaryReader {
    const buf: seq<byte>
    var offset: nat

    ghost predicate Valid()
      reads this
    {
      offset <= |buf|
    }

    ghost function Rest(): seq<byte>
      requires Valid()
      reads this
    {
      buf[offset..]
    }

    constructor (b: seq<byte>)
      ensures Valid() && Rest() == b
    {
      buf, offset := b, 0;
    }

    /** `None` where the source throws `NotEnoughDataError`. */
    method TakeBuffer(size: nat) returns (r: Option<seq<byte>>)
      requires Valid()
      modifies this`offset
      ensures Valid()
      ensures r.Some? <==> ReadBuffer(old(Rest()), size).Parsed?
      ensures r.Some? ==> ReadBuffer(old(Rest()), size) == Parsed(Read(r.value, Rest()))
    {
      if size > |buf| - offset {
        return None;
      }
      ghost var b := Rest();
      r := Some(buf[offset..offset + size]);
      offset := offset + size;
      assert r.value == b[..size] && Rest() == b[size..];
    }

    method TakeUIntBE(size: nat) returns (r: Option<nat>)
      requires Valid()
      modifies this`offset
      ensures Valid()
      ensures r.Some? <==> ReadBuffer(old(Rest()), size).Parsed?
      ensures r.Some? ==> var b := old(Rest()); r.value == FromBE(b[..size]) && Rest() == b[size..]
    {
      if size > |buf| - offset {
        return None;
      }
      ghost var b := Rest();
      var n: nat := 0;
      for i := 0 to size
        invariant n == FromBE(b[..i])
      {
        assert b[..i + 1][..i] == b[..i];
        n := 256 * n + buf[offset + i] as nat;
      }
      offset := offset + size;
      r := Some(n);
    }
  }

  class BinaryWriter {
    var chunks: seq<seq<byte>>
    var written: nat

    ghost predicate Valid()
      reads this
    {
      written == |Joined(chunks)|
    }

    ghost function Contents(): seq<byte>
      reads this
    {
      Joined(chunks)
    }

    constructor ()
      ensures Valid() && Contents() == []
    {
      chunks, written := [], 0;
    }

    method WriteBuffer(b: seq<byte>)
      requires Valid()
      modifies this
      ensures Valid() && Contents() == old(Contents()) + b
    {
      chunks := chunks + [b];
      written := written + |b|;
      assert chunks[..|chunks| - 1] == old(chunks);
    }

    /** False where the number does not fit. */
    method WriteUIntBE(value: nat, size: nat) returns (ok: bool)
      requires Valid()
      modifies this
      ensures Valid() && ok == EncodeNum(value, size).Some?
      ensures ok ==> Contents() == old(Contents()) + EncodeNum(value, size).value
    {
      if value >= Power(size) {
        return false;
      }
      WriteBuffer(UIntBE(value, size));
      ok := true;
    }

    /** `Buffer.concat` of the chunks. */
    method ToBuffer() returns (b: seq<byte>)
      ensures b == Contents()
    {
      b := [];
      for i := 0 to |chunks|
        invariant b == Joined(chunks[..i])
      {
        assert chunks[..i + 1][..i] == chunks[..i];
        b := b + chunks[i];
      }
      assert chunks[..|chunks|] == chunks;
    }
  }

  function Joined(chunks: seq<seq<byte>>): seq<byte> {
    if chunks == [] then [] else Joined(chunks[..|chunks| - 1]) + chunks[|chunks| - 1]
  }

  // Decoding

  function ItemsThen(xs: seq<Value>, r: Parse<Read<seq<Value>>>): Parse<Read<seq<Value>>> {
    if r.Parsed? then Parsed(Read(xs + r.value.value, r.value.rest)) else r
  }

  lemma PrependOne(xs: seq<Value>, x: Value, r: Parse<Read<seq<Value>>>)
    ensures ItemsThen(xs, Cons(x, r)) == ItemsThen(xs + [x], r)
  {
    assert r.Parsed? ==> xs + ([x] + r.value.value) == xs + [x] + r.value.value;
  }

  lemma PrependEnds(xs: seq<Value>, b: seq<byte>, r: Parse<Read<seq<Value>>>)
    ensures ItemsThen(xs, Parsed(Read([], b))) == Parsed(Read(xs, b)) && ItemsThen([], r) == r
  {
    assert xs + [] == xs;
    assert r.Parsed? ==> [] + r.value.value == r.value.value;
  }

  /** The outcome `r` with the reader where it was left is what `d` says. */
  ghost predicate Agrees<T>(r: Parse<T>, rest: seq<byte>, d: Parse<Read<T>>) {
    match d
    case Parsed(x) => r == Parsed(x.value) && rest == x.rest
    case Throws => r.Throws?
    case Stuck => r.Stuck?
  }

  method DecodeLength(reader: BinaryReader, l: Length) returns (r: Option<nat>)
    requires reader.Valid()
    modifies reader`offset
    ensures reader.Valid()
    ensures r.Some? <==> ReadLength(l, old(reader.Rest())).Parsed?
    ensures r.None? ==> ReadLength(l, old(reader.Rest())).Throws?
    ensures r.Some? ==> ReadLength(l, old(reader.Rest())) == Parsed(Read(r.value, reader.Rest()))
  {
    match l
    case Fixed(n) => r := Some(n);
    case Prefixed(k) => r := reader.TakeUIntBE(k);
  }

  method DecodeType(reader: BinaryReader, t: Type) returns (r: Parse<Value>)
    requires reader.Valid()
    modifies reader`offset
    ensures reader.Valid() && Agrees(r, reader.Rest(), Decode(t, old(reader.Rest())))
    decreases t, 2
  {
    hide FromBE, ReadLength, DecodeCount, DecodeBytes, DecodeFields;
    match t
    case UInt(size) =>
      var n := reader.TakeUIntBE(size);
      r := if n.Some? then Parsed(Num(n.value)) else Throws;
    case Buf(l) =>
      r := DecodeBuffer(reader, l);
    case Arr(item, l, inBytes) =>
      r := DecodeArray(reader, item, l, inBytes);
    case Obj(fields) =>
      var vs := DecodeObject(reader, fields);
      r := match vs case Parsed(values) => Parsed(Rec(values)) case Throws => Throws case Stuck => Stuck;
  }

  method DecodeBuffer(reader: BinaryReader, l: Length) returns (r: Parse<Value>)
    requires reader.Valid()
    modifies reader`offset
    ensures reader.Valid() && Agrees(r, reader.Rest(), Decode(Buf(l), old(reader.Rest())))
  {
    hide FromBE, ReadLength;
    var n := DecodeLength(reader, l);
    if n.None? {
      return Throws;
    }
    var b := reader.TakeBuffer(n.value);
    r := if b.Some? then Parsed(Bytes(b.value)) else Throws;
  }

  method DecodeArray(reader: BinaryReader, item: Type, l: Length, inBytes: bool) returns (r: Parse<Value>)
    requires reader.Valid()
    modifies reader`offset
    ensures reader.Valid() && Agrees(r, reader.Rest(), Decode(Arr(item, l, inBytes), old(reader.Rest())))
    decreases item, 4
  {
    hide FromBE, ReadLength, DecodeCount, DecodeBytes, DecodeFields;
    var n := DecodeLength(reader, l);
    if n.None? {
      return Throws;
    }
    var items: Parse<seq<Value>>;
    if inBytes {
      items := DecodeByBytes(reader, item, n.value);
    } else {
      items := DecodeByCount(reader, item, n.value);
    }
    r := match items case Parsed(vs) => Parsed(List(vs)) case Throws => Throws case Stuck => Stuck;
  }

  method DecodeByCount(reader: BinaryReader, t: Type, n: nat) returns (r: Parse<seq<Value>>)
    requires reader.Valid()
    modifies reader`offset
    ensures reader.Valid() && Agrees(r, reader.Rest(), DecodeCount(t, old(reader.Rest()), n))
    decreases t, 3
  {
    hide Decode;
    var items: seq<Value> := [];
    ghost var goal := DecodeCount(t, reader.Rest(), n);
    PrependEnds([], [], goal);
    var i := 0;
    while i < n
      invariant i <= n && reader.Valid()
      invariant goal == ItemsThen(items, DecodeCount(t, reader.Rest(), n - i))
    {
      ghost var b := reader.Rest();
      var item := DecodeType(reader, t);
      match item
      case Throws => return Throws;
      case Stuck => return Stuck;
      case Parsed(v) =>
        PrependOne(items, v, DecodeCount(t, reader.Rest(), n - i - 1));
        items := items + [v];
        i := i + 1;
    }
    PrependEnds(items, reader.Rest(), goal);
    r := Parsed(items);
  }

  /** An item that takes no bytes would be read again for ever. */
  method DecodeByBytes(reader: BinaryReader, t: Type, size: nat) returns (r: Parse<seq<Value>>)
    requires reader.Valid()
    modifies reader`offset
    ensures reader.Valid() && Agrees(r, reader.Rest(), DecodeBytes(t, old(reader.Rest()), size))
    decreases t, 3
  {
    hide Decode;
    var items: seq<Value> := [];
    ghost var goal := DecodeBytes(t, reader.Rest(), size);
    PrependEnds([], [], goal);
    var before := reader.offset;
    var bytes := 0;
    while bytes < size
      invariant reader.Valid() && bytes <= size && reader.offset == before + bytes
      invariant goal == ItemsThen(items, DecodeBytes(t, reader.Rest(), size - bytes))
      decreases size - bytes
    {
      var item := DecodeType(reader, t);
      match item
      case Throws => return Throws;
      case Stuck => return Stuck;
      case Parsed(v) =>
        var bytes' := reader.offset - before;
        if bytes' == bytes {
          return Stuck;
        }
        if bytes' > size {
          return Throws;
        }
        PrependOne(items, v, DecodeBytes(t, reader.Rest(), size - bytes'));
        items := items + [v];
        bytes := bytes';
    }
    PrependEnds(items, reader.Rest(), goal);
    r := Parsed(items);
  }

  method DecodeObject(reader: BinaryReader, ts: seq<Type>) returns (r: Parse<seq<Value>>)
    requires reader.Valid()
    modifies reader`offset
    ensures reader.Valid() && Agrees(r, reader.Rest(), DecodeFields(ts, old(reader.Rest())))
    decreases ts, 0
  {
    hide Decode;
    var values: seq<Value> := [];
    ghost var goal := DecodeFields(ts, reader.Rest());
    PrependEnds([], [], goal);
    var i := 0;
    assert ts[0..] == ts;
    while i < |ts|
      invariant i <= |ts| && reader.Valid()
      invariant goal == ItemsThen(values, DecodeFields(ts[i..], reader.Rest()))
    {
      assert ts[i..][0] == ts[i] && ts[i..][1..] == ts[i + 1..];
      var value := DecodeType(reader, ts[i]);
      match value
      case Throws => return Throws;
      case Stuck => return Stuck;
      case Parsed(v) =>
        PrependOne(values, v, DecodeFields(ts[i + 1..], reader.Rest()));
        values := values + [v];
        i := i + 1;
    }
    PrependEnds(values, reader.Rest(), goal);
    r := Parsed(values);
  }

  // Encoding

  lemma AppendLaws(a: seq<byte>, b: Option<seq<byte>>, c: Option<seq<byte>>)
    ensures Append(Some(a), Append(b, c)) == Append(Append(Some(a), b), c)
    ensures Append(Some([]), b) == b && Append(Some(a), Some([])) == Some(a)
  {
    assert a + [] == a;
    assert b.Some? ==> [] + b.value == b.value;
    assert b.Some? && c.Some? ==> a + (b.value + c.value) == a + b.value + c.value;
  }

  /** Writes the length a body is declared with, then the body; false where a check throws. */
  method EncodeWithLength(writer: BinaryWriter, l: Length, size: nat, body: seq<byte>) returns (ok: bool)
    requires writer.Valid()
    modifies writer
    ensures writer.Valid() && ok == WithLength(l, size, body).Some?
    ensures ok ==> writer.Contents() == old(writer.Contents()) + WithLength(l, size, body).value
  {
    hide EncodeNum;
    match l {
      case Fixed(n) =>
        if n != size {
          return false;
        }
      case Prefixed(k) =>
        ok := writer.WriteUIntBE(size, k);
        if !ok {
          return;
        }
    }
    writer.WriteBuffer(body);
    ok := true;
    assert l.Prefixed? ==>
        old(writer.Contents()) + EncodeNum(size, l.size).value + body == old(writer.Contents()) + (EncodeNum(size, l.size).value + body);
  }

  method EncodeType(writer: BinaryWriter, v: Value, t: Type) returns (ok: bool)
    requires writer.Valid()
    modifies writer
    ensures writer.Valid() && ok == Encode(v, t).Some?
    ensures ok ==> writer.Contents() == old(writer.Contents()) + Encode(v, t).value
    decreases t, 0
  {
    hide EncodeNum, WithLength;
    match t
    case UInt(size) =>
      if !v.Num? {
        return false;
      }
      ok := writer.WriteUIntBE(v.n, size);
    case Buf(l) =>
      if !v.Bytes? {
        return false;
      }
      ok := EncodeWithLength(writer, l, |v.b|, v.b);
    case Arr(item, l, inBytes) =>
      if !v.List? {
        return false;
      }
      var body := new BinaryWriter();
      ok := EncodeEach(body, v.items, item);
      if !ok {
        return;
      }
      var size := if inBytes then body.written else |v.items|;
      var bytes := body.ToBuffer();
      ok := EncodeWithLength(writer, l, size, bytes);
    case Obj(fields) =>
      if !v.Rec? || |v.values| != |fields| {
        return false;
      }
      ok := EncodeObject(writer, v.values, fields);
  }

  method EncodeEach(body: BinaryWriter, items: seq<Value>, t: Type) returns (ok: bool)
    requires body.Valid() && body.Contents() == []
    modifies body
    ensures body.Valid() && ok == EncodeItems(items, t).Some?
    ensures ok ==> body.Contents() == EncodeItems(items, t).value
    decreases t, 1
  {
    hide Encode, Append;
    ghost var goal := EncodeItems(items, t);
    AppendLaws([], goal, None);
    var i := 0;
    assert items[0..] == items;
    while i < |items|
      invariant i <= |items| && body.Valid()
      invariant goal == Append(Some(body.Contents()), EncodeItems(items[i..], t))
    {
      assert items[i..][0] == items[i] && items[i..][1..] == items[i + 1..];
      AppendLaws(body.Contents(), Encode(items[i], t), EncodeItems(items[i + 1..], t));
      AppendIs(body.Contents(), Encode(items[i], t), EncodeItems(items[i + 1..], t));
      ok := EncodeType(body, items[i], t);
      if !ok {
        return;
      }
      i := i + 1;
    }
    AppendLaws(body.Contents(), None, None);
    ok := true;
  }

  lemma AppendIs(a: seq<byte>, b: Option<seq<byte>>, c: Option<seq<byte>>)
    ensures b.None? ==> Append(Append(Some(a), b), c).None?
    ensures b.Some? ==> Append(Some(a), b) == Some(a + b.value)
  {
  }

  method EncodeObject(writer: BinaryWriter, values: seq<Value>, ts: seq<Type>) returns (ok: bool)
    requires |values| == |ts| && writer.Valid()
    modifies writer
    ensures writer.Valid() && ok == EncodeFields(values, ts).Some?
    ensures ok ==> writer.Contents() == old(writer.Contents()) + EncodeFields(values, ts).value
    decreases ts, 0
  {
    hide Encode, Append;
    ghost var start := writer.Contents();
    ghost var goal := Append(Some(start), EncodeFields(values, ts));
    var i := 0;
    assert values[0..] == values && ts[0..] == ts;
    while i < |ts|
      invariant i <= |ts| && writer.Valid()
      invariant goal == Append(Some(writer.Contents()), EncodeFields(values[i..], ts[i..]))
    {
      assert ts[i..][0] == ts[i] && ts[i..][1..] == ts[i + 1..];
      assert values[i..][0] == values[i] && values[i..][1..] == values[i + 1..];
      AppendLaws(writer.Contents(), Encode(values[i], ts[i]), EncodeFields(values[i + 1..], ts[i + 1..]));
      AppendIs(writer.Contents(), Encode(values[i], ts[i]), EncodeFields(values[i + 1..], ts[i + 1..]));
      ok := EncodeType(writer, values[i], ts[i]);
      AppendIs(start, EncodeFields(values, ts), None);
      if !ok {
        GoalFails(start, EncodeFields(values, ts));
        return;
      }
      i := i + 1;
    }
    AppendLaws(writer.Contents(), None, None);
    AppendIs(start, EncodeFields(values, ts), None);
    GoalFails(start, EncodeFields(values, ts));
    ok := true;
  }

  lemma GoalFails(a: seq<byte>, b: Option<seq<byte>>)
    ensures Append(Some(a), b).Some? <==> b.Some?
  {
  }
}
