/**
 The declarative codec of packages/common/src/binaryData.ts: unsigned integers, buffers, arrays
 and nested schemas, with fixed lengths or length prefixes. Encoding and decoding are inverse
 in both directions.
 */
module Schema {
  import opened Wrappers
  import opened BigEndian

  /** A fixed length, or a number type of `size` bytes in front. */
  datatype Length = Fixed(n: nat) | Prefixed(size: nat)

  datatype Type =
    | UInt(size: nat)
    | Buf(length: Length)
    | Arr(item: Type, length: Length, inBytes: bool)
    | Obj(fields: seq<Type>)

  /** `Rec` holds the values of an object in the order of its schema's keys. */
  datatype Value =
    | Num(n: nat)
    | Bytes(b: seq<byte>)
    | List(items: seq<Value>)
    | Rec(values: seq<Value>)

  // Integers

  function Power(size: nat): (p: nat)
    ensures p > 0
  {
    if size == 0 then 1 else 256 * Power(size - 1)
  }

  function UIntBE(n: nat, size: nat): (b: seq<byte>)
    ensures |b| == size
    decreases size
  {
    if size == 0 then [] else UIntBE(n / 256, size - 1) + [n % 256]
  }

  function FromBE(b: seq<byte>): nat {
    if b == [] then 0 else 256 * FromBE(b[..|b| - 1]) + b[|b| - 1]
  }

  /** Writing throws unless the number fits. */
  function EncodeNum(n: nat, size: nat): Option<seq<byte>> {
    if n < Power(size) then Some(UIntBE(n, size)) else None
  }

  // Encoding: `None` where the source throws

  function Append(a: Option<seq<byte>>, b: Option<seq<byte>>): Option<seq<byte>> {
    if a.Some? && b.Some? then Some(a.value + b.value) else None
  }

  /** A body of `size` units after the length it is declared with. */
  function WithLength(length: Length, size: nat, body: seq<byte>): Option<seq<byte>> {
    match length
    case Fixed(n) => if n == size then Some(body) else None
    case Prefixed(k) => Append(EncodeNum(size, k), Some(body))
  }

  function Encode(v: Value, t: Type): Option<seq<byte>>
    decreases t, 0
  {
    match t
    case UInt(size) => if v.Num? then EncodeNum(v.n, size) else None
    case Buf(length) => if v.Bytes? then WithLength(length, |v.b|, v.b) else None
    case Arr(item, length, inBytes) =>
      if !v.List? then None
      else
        var body := EncodeItems(v.items, item);
        if body.None? then None
        else WithLength(length, if inBytes then |body.value| else |v.items|, body.value)
    case Obj(fields) => if v.Rec? && |v.values| == |fields| then EncodeFields(v.values, fields) else None
  }

  function EncodeItems(vs: seq<Value>, t: Type): Option<seq<byte>>
    decreases t, |vs| + 1
  {
    if vs == [] then Some([]) else Append(Encode(vs[0], t), EncodeItems(vs[1..], t))
  }

  function EncodeFields(vs: seq<Value>, ts: seq<Type>): Option<seq<byte>>
    requires |vs| == |ts|
    decreases ts, 0
  {
    if ts == [] then Some([]) else Append(Encode(vs[0], ts[0]), EncodeFields(vs[1..], ts[1..]))
  }

  // Decoding: what is read and what is left; a reader that is too short throws

  datatype Read<+T> = Read(value: T, rest: seq<byte>)

  function ReadBuffer(b: seq<byte>, n: nat): Parse<Read<seq<byte>>> {
    if n <= |b| then Parsed(Read(b[..n], b[n..])) else Throws
  }

  function ReadLength(length: Length, b: seq<byte>): Parse<Read<nat>> {
    match length
    case Fixed(n) => Parsed(Read(n, b))
    case Prefixed(k) =>
      match ReadBuffer(b, k)
      case Parsed(r) => Parsed(Read(FromBE(r.value), r.rest))
      case Throws => Throws
      case Stuck => Stuck
  }

  function Decode(t: Type, b: seq<byte>): (r: Parse<Read<Value>>)
    ensures r.Parsed? ==> |r.value.rest| <= |b|
    decreases t, 0, 0
  {
    match t
    case UInt(size) =>
      (match ReadBuffer(b, size)
       case Parsed(r) => Parsed(Read(Num(FromBE(r.value)), r.rest))
       case Throws => Throws
       case Stuck => Stuck)
    case Buf(length) =>
      (match ReadLength(length, b)
       case Parsed(n) =>
         (match ReadBuffer(n.rest, n.value)
          case Parsed(r) => Parsed(Read(Bytes(r.value), r.rest))
          case Throws => Throws
          case Stuck => Stuck)
       case Throws => Throws
       case Stuck => Stuck)
    case Arr(item, length, inBytes) =>
      (match ReadLength(length, b)
       case Parsed(n) =>
         var items := if inBytes then DecodeBytes(item, n.rest, n.value) else DecodeCount(item, n.rest, n.value);
         (match items
          case Parsed(r) => Parsed(Read(List(r.value), r.rest))
          case Throws => Throws
          case Stuck => Stuck)
       case Throws => Throws
       case Stuck => Stuck)
    case Obj(fields) =>
      (match DecodeFields(fields, b)
       case Parsed(r) => Parsed(Read(Rec(r.value), r.rest))
       case Throws => Throws
       case Stuck => Stuck)
  }

  function Cons<T>(x: T, r: Parse<Read<seq<T>>>): Parse<Read<seq<T>>> {
    if r.Parsed? then Parsed(Read([x] + r.value.value, r.value.rest)) else r
  }

  /** The loop over a number of items. */
  function DecodeCount(t: Type, b: seq<byte>, n: nat): (r: Parse<Read<seq<Value>>>)
    ensures r.Parsed? ==> |r.value.rest| <= |b|
    decreases t, 1, n
  {
    if n == 0 then Parsed(Read([], b))
    else
      match Decode(t, b)
      case Parsed(r) => Cons(r.value, DecodeCount(t, r.rest, n - 1))
      case Throws => Throws
      case Stuck => Stuck
  }

  /** The loop over a number of bytes, of which `left` remain. An item that takes none does not advance it. */
  function DecodeBytes(t: Type, b: seq<byte>, left: nat): (r: Parse<Read<seq<Value>>>)
    ensures r.Parsed? ==> |r.value.rest| <= |b|
    decreases t, 1, left
  {
    if left == 0 then Parsed(Read([], b))
    else
      match Decode(t, b)
      case Throws => Throws
      case Stuck => Stuck
      case Parsed(r) =>
        var taken := |b| - |r.rest|;
        if taken == 0 then Stuck
        else if taken > left then Throws
        else Cons(r.value, DecodeBytes(t, r.rest, left - taken))
  }


  function DecodeFields(ts: seq<Type>, b: seq<byte>): (r: Parse<Read<seq<Value>>>)
    ensures r.Parsed? ==> |r.value.rest| <= |b|
    decreases ts, 0, 0
  {
    if ts == [] then Parsed(Read([], b))
    else
      match Decode(ts[0], b)
      case Parsed(r) => Cons(r.value, DecodeFields(ts[1..], r.rest))
      case Throws => Throws
      case Stuck => Stuck
  }

  // Integers there and back

  lemma {:induction false} NumRoundTrip(n: nat, size: nat)
    requires n < Power(size)
    ensures FromBE(UIntBE(n, size)) == n
    decreases size
  {
    if size > 0 {
      NumRoundTrip(n / 256, size - 1);
      var b := UIntBE(n, size);
      assert b[..|b| - 1] == UIntBE(n / 256, size - 1) && b[|b| - 1] == n % 256;
    }
  }

  lemma {:induction false} NumIsCanonical(b: seq<byte>)
    ensures FromBE(b) < Power(|b|) && UIntBE(FromBE(b), |b|) == b
    decreases |b|
  {
    if b != [] {
      var init, last := b[..|b| - 1], b[|b| - 1];
      NumIsCanonical(init);
      assert FromBE(b) / 256 == FromBE(init) && FromBE(b) % 256 == last;
      assert b == init + [last];
    }
  }

  // Which types take no bytes

  predicate ZeroLength(l: Length) {
    match l
    case Fixed(n) => n == 0
    case Prefixed(k) => k == 0
  }

  predicate Void(t: Type) {
    match t
    case UInt(size) => size == 0
    case Buf(l) => ZeroLength(l)
    case Arr(item, l, inBytes) => ZeroLength(l) || (l.Fixed? && !inBytes && Void(item))
    case Obj(fields) => forall i :: 0 <= i < |fields| ==> Void(fields[i])
  }

  /** Arrays measured in bytes have items that take some. */
  predicate Sound(t: Type) {
    match t
    case UInt(_) => true
    case Buf(_) => true
    case Arr(item, _, inBytes) => Sound(item) && (inBytes ==> !Void(item))
    case Obj(fields) => forall i :: 0 <= i < |fields| ==> Sound(fields[i])
  }

  ghost predicate AllVoid(ts: seq<Type>) {
    forall i :: 0 <= i < |ts| ==> Void(ts[i])
  }

  ghost predicate AllSound(ts: seq<Type>) {
    forall i :: 0 <= i < |ts| ==> Sound(ts[i])
  }

  lemma LengthTakesBytes(l: Length, size: nat, body: seq<byte>, e: seq<byte>)
    requires WithLength(l, size, body) == Some(e)
    ensures l.Prefixed? && l.size > 0 ==> e != []
    ensures ZeroLength(l) ==> size == 0 && e == body
    ensures l.Fixed? ==> e == body && size == l.n
  {
  }

  /** The encoding of a value is empty just when its type takes no bytes. */
  lemma {:induction false} EncodingIsEmpty(v: Value, t: Type, e: seq<byte>)
    requires Encode(v, t) == Some(e)
    ensures e == [] <==> Void(t)
    decreases t, 0
  {
    hide WithLength, UIntBE;
    match t
    case UInt(size) =>
    case Buf(l) => LengthTakesBytes(l, |v.b|, v.b, e);
    case Arr(item, l, inBytes) =>
      var body := EncodeItems(v.items, item).value;
      LengthTakesBytes(l, if inBytes then |body| else |v.items|, body, e);
      ItemsAreEmpty(v.items, item, body);
    case Obj(fields) => FieldsAreEmpty(v.values, fields, e);
  }

  lemma {:induction false} ItemsAreEmpty(vs: seq<Value>, t: Type, e: seq<byte>)
    requires EncodeItems(vs, t) == Some(e)
    ensures e == [] <==> vs == [] || Void(t)
    decreases t, |vs| + 1
  {
    hide Encode;
    if vs != [] {
      EncodingIsEmpty(vs[0], t, Encode(vs[0], t).value);
      ItemsAreEmpty(vs[1..], t, EncodeItems(vs[1..], t).value);
    }
  }

  lemma {:induction false} FieldsAreEmpty(vs: seq<Value>, ts: seq<Type>, e: seq<byte>)
    requires |vs| == |ts| && EncodeFields(vs, ts) == Some(e)
    ensures e == [] <==> AllVoid(ts)
    decreases ts, 0
  {
    hide Encode, Void;
    if ts != [] {
      EncodingIsEmpty(vs[0], ts[0], Encode(vs[0], ts[0]).value);
      FieldsAreEmpty(vs[1..], ts[1..], EncodeFields(vs[1..], ts[1..]).value);
      assert AllVoid(ts) <==> Void(ts[0]) && AllVoid(ts[1..]);
    }
  }

  // Decoding undoes encoding

  lemma LengthRoundTrip(l: Length, size: nat, body: seq<byte>, e: seq<byte>, rest: seq<byte>)
    requires WithLength(l, size, body) == Some(e)
    ensures ReadLength(l, e + rest) == Parsed(Read(size, body + rest))
  {
    match l
    case Fixed(n) =>
    case Prefixed(k) =>
      var h := UIntBE(size, k);
      assert e + rest == h + (body + rest);
      assert (e + rest)[..k] == h && (e + rest)[k..] == body + rest;
      NumRoundTrip(size, k);
  }

  /** Decoding an encoded value, whatever follows it, returns the value and leaves what follows. */
  lemma {:induction false} RoundTrip(v: Value, t: Type, e: seq<byte>, rest: seq<byte>)
    requires Sound(t) && Encode(v, t) == Some(e)
    ensures Decode(t, e + rest) == Parsed(Read(v, rest))
    decreases t, 0
  {
    hide UIntBE, FromBE, WithLength, ReadLength;
    match t
    case UInt(size) =>
      NumRoundTrip(v.n, size);
      assert (e + rest)[..size] == e && (e + rest)[size..] == rest;
    case Buf(l) =>
      LengthRoundTrip(l, |v.b|, v.b, e, rest);
      assert (v.b + rest)[..|v.b|] == v.b && (v.b + rest)[|v.b|..] == rest;
    case Arr(item, l, inBytes) =>
      var body := EncodeItems(v.items, item).value;
      LengthRoundTrip(l, if inBytes then |body| else |v.items|, body, e, rest);
      ItemsRoundTrip(v.items, item, body, rest);
    case Obj(fields) => FieldsRoundTrip(v.values, fields, e, rest);
  }

  lemma {:induction false} ItemsRoundTrip(vs: seq<Value>, t: Type, e: seq<byte>, rest: seq<byte>)
    requires Sound(t) && EncodeItems(vs, t) == Some(e)
    ensures DecodeCount(t, e + rest, |vs|) == Parsed(Read(vs, rest))
    ensures !Void(t) ==> DecodeBytes(t, e + rest, |e|) == Parsed(Read(vs, rest))
    decreases t, |vs| + 1
  {
    hide Encode, Decode, Sound, Void;
    if vs == [] {
      assert e + rest == rest;
    } else {
      var h, tail := Encode(vs[0], t).value, EncodeItems(vs[1..], t).value;
      assert e + rest == h + (tail + rest);
      RoundTrip(vs[0], t, h, tail + rest);
      ItemsRoundTrip(vs[1..], t, tail, rest);
      EncodingIsEmpty(vs[0], t, h);
      assert vs == [vs[0]] + vs[1..];
    }
  }

  lemma {:induction false} FieldsRoundTrip(vs: seq<Value>, ts: seq<Type>, e: seq<byte>, rest: seq<byte>)
    requires |vs| == |ts| && AllSound(ts) && EncodeFields(vs, ts) == Some(e)
    ensures DecodeFields(ts, e + rest) == Parsed(Read(vs, rest))
    decreases ts, 0
  {
    hide Encode, Decode, Sound;
    if ts == [] {
      assert e + rest == rest;
    } else {
      var h, tail := Encode(vs[0], ts[0]).value, EncodeFields(vs[1..], ts[1..]).value;
      assert e + rest == h + (tail + rest);
      RoundTrip(vs[0], ts[0], h, tail + rest);
      FieldsRoundTrip(vs[1..], ts[1..], tail, rest);
      assert vs == [vs[0]] + vs[1..];
    }
  }

  // Encoding undoes decoding

  lemma LengthIsCanonical(l: Length, b: seq<byte>, n: Read<nat>)
    requires ReadLength(l, b) == Parsed(n)
    ensures forall body: seq<byte>, rest: seq<byte> :: n.rest == body + rest ==>
              WithLength(l, n.value, body).Some? && b == WithLength(l, n.value, body).value + rest
  {
    forall body: seq<byte>, rest: seq<byte> | n.rest == body + rest
      ensures WithLength(l, n.value, body).Some? && b == WithLength(l, n.value, body).value + rest
    {
      match l
      case Fixed(_) =>
      case Prefixed(k) =>
        NumIsCanonical(b[..k]);
        assert b == b[..k] + (body + rest) == b[..k] + body + rest;
    }
  }

  /** A value that was decoded encodes to exactly the bytes it was decoded from. */
  lemma {:induction false} DecodeIsCanonical(t: Type, b: seq<byte>)
    requires Decode(t, b).Parsed?
    ensures var r := Decode(t, b).value; Encode(r.value, t).Some? && b == Encode(r.value, t).value + r.rest
    decreases t, 0, 0
  {
    hide UIntBE, FromBE, WithLength, ReadLength;
    match t
    case UInt(size) =>
      NumIsCanonical(b[..size]);
      assert b == b[..size] + b[size..];
    case Buf(l) =>
      var n := ReadLength(l, b).value;
      LengthIsCanonical(l, b, n);
      assert n.rest == n.rest[..n.value] + n.rest[n.value..];
    case Arr(item, l, inBytes) =>
      var n := ReadLength(l, b).value;
      LengthIsCanonical(l, b, n);
      if inBytes {
        BytesAreCanonical(item, n.rest, n.value);
      } else {
        CountIsCanonical(item, n.rest, n.value);
      }
    case Obj(fields) => FieldsAreCanonical(fields, b);
  }

  lemma {:induction false} CountIsCanonical(t: Type, b: seq<byte>, n: nat)
    requires DecodeCount(t, b, n).Parsed?
    ensures var r := DecodeCount(t, b, n).value;
            |r.value| == n && EncodeItems(r.value, t).Some? && b == EncodeItems(r.value, t).value + r.rest
    decreases t, 1, n
  {
    hide Encode, Decode;
    if n > 0 {
      DecodeIsCanonical(t, b);
      var h := Decode(t, b).value;
      CountIsCanonical(t, h.rest, n - 1);
      ConsEncodes(t, h, DecodeCount(t, h.rest, n - 1).value);
    }
  }

  lemma {:induction false} BytesAreCanonical(t: Type, b: seq<byte>, left: nat)
    requires DecodeBytes(t, b, left).Parsed?
    ensures var r := DecodeBytes(t, b, left).value;
            EncodeItems(r.value, t).Some? && |EncodeItems(r.value, t).value| == left &&
            b == EncodeItems(r.value, t).value + r.rest
    decreases t, 1, left
  {
    hide Encode, Decode;
    if left > 0 {
      DecodeIsCanonical(t, b);
      var h := Decode(t, b).value;
      BytesAreCanonical(t, h.rest, left - (|b| - |h.rest|));
      ConsEncodes(t, h, DecodeBytes(t, h.rest, left - (|b| - |h.rest|)).value);
    }
  }

  lemma ConsEncodes(t: Type, h: Read<Value>, r: Read<seq<Value>>)
    requires Encode(h.value, t).Some? && EncodeItems(r.value, t).Some?
    requires h.rest == EncodeItems(r.value, t).value + r.rest
    ensures var items := [h.value] + r.value;
            && EncodeItems(items, t) == Some(Encode(h.value, t).value + EncodeItems(r.value, t).value)
            && Encode(h.value, t).value + h.rest == EncodeItems(items, t).value + r.rest
  {
    hide Encode;
    var items := [h.value] + r.value;
    assert items[0] == h.value && items[1..] == r.value;
  }

  lemma {:induction false} FieldsAreCanonical(ts: seq<Type>, b: seq<byte>)
    requires DecodeFields(ts, b).Parsed?
    ensures var r := DecodeFields(ts, b).value;
            |r.value| == |ts| && EncodeFields(r.value, ts).Some? && b == EncodeFields(r.value, ts).value + r.rest
    decreases ts, 0, 0
  {
    hide Encode, Decode;
    if ts != [] {
      DecodeIsCanonical(ts[0], b);
      var h := Decode(ts[0], b).value;
      FieldsAreCanonical(ts[1..], h.rest);
      var r := DecodeFields(ts[1..], h.rest).value;
      var values := [h.value] + r.value;
      assert values[0] == h.value && values[1..] == r.value;
      assert b == Encode(h.value, ts[0]).value + EncodeFields(r.value, ts[1..]).value + r.rest;
    }
  }

  // The byte-length loop

  /** With sound types decoding never gets stuck, whatever the input. */
  lemma {:induction false} DecodeEnds(t: Type, b: seq<byte>)
    requires Sound(t)
    ensures !Decode(t, b).Stuck?
    decreases t, 0, 0
  {
    match t
    case UInt(_) =>
    case Buf(_) =>
    case Arr(item, l, inBytes) =>
      var n := ReadLength(l, b);
      if n.Parsed? {
        ItemsEnd(item, n.value.rest, n.value.value, inBytes);
      }
    case Obj(fields) => FieldsEnd(fields, b);
  }

  lemma {:induction false} ItemsEnd(t: Type, b: seq<byte>, n: nat, inBytes: bool)
    requires Sound(t) && (inBytes ==> !Void(t))
    ensures if inBytes then !DecodeBytes(t, b, n).Stuck? else !DecodeCount(t, b, n).Stuck?
    decreases t, 1, n
  {
    hide Decode, Sound, Void;
    if n > 0 {
      DecodeEnds(t, b);
      var r := Decode(t, b);
      if r.Parsed? {
        if inBytes {
          DecodeIsCanonical(t, b);
          EncodingIsEmpty(r.value.value, t, Encode(r.value.value, t).value);
          var taken := |b| - |r.value.rest|;
          if 0 < taken <= n {
            ItemsEnd(t, r.value.rest, n - taken, inBytes);
          }
        } else {
          ItemsEnd(t, r.value.rest, n - 1, inBytes);
        }
      }
    }
  }

  lemma {:induction false} FieldsEnd(ts: seq<Type>, b: seq<byte>)
    requires AllSound(ts)
    ensures !DecodeFields(ts, b).Stuck?
    decreases ts, 0, 0
  {
    hide Decode, Sound;
    if ts != [] {
      DecodeEnds(ts[0], b);
      if Decode(ts[0], b).Parsed? {
        FieldsEnd(ts[1..], Decode(ts[0], b).value.rest);
      }
    }
  }

  // Exactly which arrays can keep the decoder from ending

  /** On some input decoding does not end. */
  ghost predicate CanHang(t: Type) {
    exists b: seq<byte> :: Decode(t, b).Stuck?
  }

  lemma {:induction false} VoidDecodes(t: Type, b: seq<byte>)
    requires Void(t)
    ensures Decode(t, b).Parsed? && Decode(t, b).value.rest == b
    decreases t, 0, 0
  {
    match t
    case UInt(_) =>
    case Buf(l) => NoLength(l, b);
    case Arr(item, l, inBytes) =>
      if ZeroLength(l) {
        NoLength(l, b);
      } else {
        VoidsDecode(item, b, l.n);
      }
    case Obj(fields) => VoidFieldsDecode(fields, b);
  }

  lemma NoLength(l: Length, b: seq<byte>)
    requires ZeroLength(l)
    ensures ReadLength(l, b) == Parsed(Read(0, b))
  {
    assert b[..0] == [] && b[0..] == b;
  }

  lemma {:induction false} VoidsDecode(t: Type, b: seq<byte>, n: nat)
    requires Void(t)
    ensures DecodeCount(t, b, n).Parsed? && DecodeCount(t, b, n).value.rest == b
    decreases t, 1, n
  {
    hide Decode, Void;
    if n > 0 {
      VoidDecodes(t, b);
      VoidsDecode(t, b, n - 1);
    }
  }

  lemma {:induction false} VoidFieldsDecode(ts: seq<Type>, b: seq<byte>)
    requires AllVoid(ts)
    ensures DecodeFields(ts, b).Parsed? && DecodeFields(ts, b).value.rest == b
    decreases ts, 0, 0
  {
    hide Decode, Void;
    if ts != [] {
      VoidDecodes(ts[0], b);
      VoidFieldsDecode(ts[1..], b);
    }
  }

  lemma {:induction false} ItemsHang(t: Type, b: seq<byte>, n: nat, inBytes: bool)
    requires if inBytes then DecodeBytes(t, b, n).Stuck? else DecodeCount(t, b, n).Stuck?
    ensures n > 0 && ((inBytes && Void(t)) || CanHang(t))
    decreases n
  {
    hide Decode, Void;
    if !Decode(t, b).Stuck? {
      var r := Decode(t, b).value;
      if inBytes {
        DecodeIsCanonical(t, b);
        EncodingIsEmpty(r.value, t, Encode(r.value, t).value);
        var taken := |b| - |r.rest|;
        if taken > 0 {
          ItemsHang(t, r.rest, n - taken, inBytes);
        }
      } else {
        ItemsHang(t, r.rest, n - 1, inBytes);
      }
    }
  }

  /** The length such that at least one item is read. */
  function OneOrMore(l: Length): nat {
    match l
    case Fixed(n) => n
    case Prefixed(_) => 1
  }

  lemma LengthForOne(l: Length, b: seq<byte>) returns (e: seq<byte>)
    requires !ZeroLength(l)
    ensures OneOrMore(l) > 0 && ReadLength(l, e) == Parsed(Read(OneOrMore(l), b))
  {
    var n := OneOrMore(l);
    assert WithLength(l, n, b).Some? by {
      if l.Prefixed? {
        assert Power(l.size) == 256 * Power(l.size - 1);
      }
    }
    e := WithLength(l, n, b).value;
    LengthRoundTrip(l, n, b, e, []);
    assert e + [] == e && b + [] == b;
  }

  /**
   An array can keep the decoder from ending if and only if its length can be positive and its
   items can, or it is measured in bytes and its items take none.
   */
  lemma ArrayHangsIff(item: Type, l: Length, inBytes: bool)
    ensures CanHang(Arr(item, l, inBytes)) <==> !ZeroLength(l) && ((inBytes && Void(item)) || CanHang(item))
  {
    hide ReadLength, Void, DecodeBytes, DecodeCount, ZeroLength;
    var t := Arr(item, l, inBytes);
    if CanHang(t) {
      var b :| Decode(t, b).Stuck?;
      LengthEnds(l, b);
      var n := ReadLength(l, b).value;
      ItemsHang(item, n.rest, n.value, inBytes);
    }
    if !ZeroLength(l) && ((inBytes && Void(item)) || CanHang(item)) {
      var b0: seq<byte> := [];
      if CanHang(item) {
        b0 :| Decode(item, b0).Stuck?;
      }
      var e := LengthForOne(l, b0);
      FirstItemHangs(item, b0, OneOrMore(l), inBytes);
      assert Decode(t, e).Stuck?;
    }
  }

  lemma LengthEnds(l: Length, b: seq<byte>)
    ensures !ReadLength(l, b).Stuck?
    ensures ReadLength(l, b).Parsed? && ZeroLength(l) ==> ReadLength(l, b).value.value == 0
  {
    if ZeroLength(l) {
      NoLength(l, b);
    }
  }

  lemma FirstItemHangs(t: Type, b: seq<byte>, n: nat, inBytes: bool)
    requires n > 0 && (Decode(t, b).Stuck? || (inBytes && Void(t)))
    ensures if inBytes then DecodeBytes(t, b, n).Stuck? else DecodeCount(t, b, n).Stuck?
  {
    hide Decode, Void;
    if Void(t) {
      VoidDecodes(t, b);
    }
  }

  // Objects

  /** Decoding looks at nothing behind what it consumes. */
  lemma {:induction false} DecodeIgnoresRest(t: Type, e: seq<byte>, rest: seq<byte>, x: seq<byte>)
    requires Decode(t, e + rest).Parsed? && Decode(t, e + rest).value.rest == rest
    ensures Decode(t, e + x) == Parsed(Read(Decode(t, e + rest).value.value, x))
    decreases t, 0, 0
  {
    hide FromBE, ReadLength, ReadBuffer, DecodeCount, DecodeBytes, DecodeFields;
    match t
    case UInt(size) => BufferIgnoresRest(e, rest, size, x);
    case Buf(l) =>
      var n := ReadLength(l, e + rest).value;
      BufferConsumes(n.rest, n.value);
      var e2 := LengthIgnoresRest(l, e, rest, x);
      BufferIgnoresRest(e2, rest, n.value, x);
    case Arr(item, l, inBytes) =>
      var n := ReadLength(l, e + rest).value;
      ArrayConsumes(item, n.rest, n.value, inBytes);
      var e2 := LengthIgnoresRest(l, e, rest, x);
      if inBytes {
        BytesIgnoreRest(item, e2, rest, n.value, x);
      } else {
        CountIgnoresRest(item, e2, rest, n.value, x);
      }
    case Obj(fields) => FieldsIgnoreRest(fields, e, rest, x);
  }

  lemma BufferConsumes(b: seq<byte>, n: nat)
    ensures ReadBuffer(b, n).Parsed? ==> |ReadBuffer(b, n).value.rest| <= |b|
  {
  }

  lemma BufferIgnoresRest(e: seq<byte>, rest: seq<byte>, n: nat, x: seq<byte>)
    requires ReadBuffer(e + rest, n).Parsed? && ReadBuffer(e + rest, n).value.rest == rest
    ensures ReadBuffer(e + x, n) == Parsed(Read(ReadBuffer(e + rest, n).value.value, x))
  {
    assert n == |e| && (e + rest)[..n] == e == (e + x)[..n] && (e + x)[n..] == x;
  }

  /** What is left after the length still ends with the rest. */
  lemma LengthIgnoresRest(l: Length, e: seq<byte>, rest: seq<byte>, x: seq<byte>) returns (e2: seq<byte>)
    requires ReadLength(l, e + rest).Parsed? && |rest| <= |ReadLength(l, e + rest).value.rest|
    ensures ReadLength(l, e + rest).value.rest == e2 + rest
    ensures ReadLength(l, e + x) == Parsed(Read(ReadLength(l, e + rest).value.value, e2 + x))
  {
    match l
    case Fixed(_) => e2 := e;
    case Prefixed(k) =>
      e2 := e[k..];
      assert (e + rest)[..k] == e[..k] == (e + x)[..k];
      assert (e + rest)[k..] == e2 + rest && (e + x)[k..] == e2 + x;
  }

  lemma ArrayConsumes(t: Type, b: seq<byte>, n: nat, inBytes: bool)
    ensures DecodeBytes(t, b, n).Parsed? ==> |DecodeBytes(t, b, n).value.rest| <= |b|
    ensures DecodeCount(t, b, n).Parsed? ==> |DecodeCount(t, b, n).value.rest| <= |b|
  {
  }

  /** The part of `e + rest` that a decoded value took lies inside `e`. */
  lemma ConsumedIsPrefix(t: Type, e: seq<byte>, rest: seq<byte>) returns (e1: seq<byte>, e2: seq<byte>)
    requires Decode(t, e + rest).Parsed? && |rest| <= |Decode(t, e + rest).value.rest|
    ensures e == e1 + e2 && Decode(t, e + rest).value.rest == e2 + rest
  {
    hide Decode;
    DecodeIsCanonical(t, e + rest);
    var r := Decode(t, e + rest).value.rest;
    var n := |e + rest| - |r|;
    e1, e2 := e[..n], e[n..];
    assert (e + rest)[n..] == r;
    assert (e + rest)[n..] == e2 + rest;
  }

  lemma FirstIgnoresRest(t: Type, e: seq<byte>, rest: seq<byte>, x: seq<byte>) returns (e2: seq<byte>)
    requires Decode(t, e + rest).Parsed? && |rest| <= |Decode(t, e + rest).value.rest|
    ensures Decode(t, e + rest).value.rest == e2 + rest && |e2| <= |e|
    ensures Decode(t, e + x) == Parsed(Read(Decode(t, e + rest).value.value, e2 + x))
    decreases t, 0, 1
  {
    hide Decode;
    var e1;
    e1, e2 := ConsumedIsPrefix(t, e, rest);
    assert e + rest == e1 + (e2 + rest) && e + x == e1 + (e2 + x);
    DecodeIgnoresRest(t, e1, e2 + rest, e2 + x);
  }

  lemma {:induction false} CountIgnoresRest(t: Type, e: seq<byte>, rest: seq<byte>, n: nat, x: seq<byte>)
    requires DecodeCount(t, e + rest, n).Parsed? && DecodeCount(t, e + rest, n).value.rest == rest
    ensures DecodeCount(t, e + x, n) == Parsed(Read(DecodeCount(t, e + rest, n).value.value, x))
    decreases t, 1, n
  {
    hide Decode;
    if n == 0 {
      assert e == [] by { assert |e + rest| == |rest|; }
      assert e + x == x;
    } else {
      var e2 := FirstIgnoresRest(t, e, rest, x);
      CountIgnoresRest(t, e2, rest, n - 1, x);
    }
  }

  lemma {:induction false} BytesIgnoreRest(t: Type, e: seq<byte>, rest: seq<byte>, left: nat, x: seq<byte>)
    requires DecodeBytes(t, e + rest, left).Parsed? && DecodeBytes(t, e + rest, left).value.rest == rest
    ensures DecodeBytes(t, e + x, left) == Parsed(Read(DecodeBytes(t, e + rest, left).value.value, x))
    decreases t, 1, left
  {
    hide Decode;
    if left == 0 {
      assert e == [] by { assert |e + rest| == |rest|; }
      assert e + x == x;
    } else {
      var e2 := FirstIgnoresRest(t, e, rest, x);
      BytesIgnoreRest(t, e2, rest, left - (|e| - |e2|), x);
    }
  }

  lemma {:induction false} FieldsIgnoreRest(ts: seq<Type>, e: seq<byte>, rest: seq<byte>, x: seq<byte>)
    requires DecodeFields(ts, e + rest).Parsed? && DecodeFields(ts, e + rest).value.rest == rest
    ensures DecodeFields(ts, e + x) == Parsed(Read(DecodeFields(ts, e + rest).value.value, x))
    decreases ts, 0, 0
  {
    hide Decode;
    if ts == [] {
      assert e == [] by { assert |e + rest| == |rest|; }
      assert e + x == x;
    } else {
      var e2 := FirstIgnoresRest(ts[0], e, rest, x);
      FieldsIgnoreRest(ts[1..], e2, rest, x);
    }
  }

  /** On some input decoding succeeds. */
  ghost predicate CanParse(t: Type) {
    exists b: seq<byte> :: Decode(t, b).Parsed?
  }

  /** Field `i` can hang, and every field before it can be decoded. */
  ghost predicate HangsAtField(ts: seq<Type>, i: nat) {
    i < |ts| && CanHang(ts[i]) && forall j :: 0 <= j < i ==> CanParse(ts[j])
  }

  lemma {:induction false} FieldsHang(ts: seq<Type>, b: seq<byte>) returns (i: nat)
    requires DecodeFields(ts, b).Stuck?
    ensures HangsAtField(ts, i)
    decreases |ts|
  {
    hide Decode;
    if Decode(ts[0], b).Stuck? {
      i := 0;
    } else {
      i := FieldsHang(ts[1..], Decode(ts[0], b).value.rest);
      assert CanParse(ts[0]);
      forall j | 0 <= j < i + 1
        ensures CanParse(ts[j])
      {
        assert j > 0 ==> ts[j] == ts[1..][j - 1];
      }
      assert ts[i + 1] == ts[1..][i];
      i := i + 1;
    }
  }

  lemma {:induction false} FieldHangs(ts: seq<Type>, i: nat) returns (b: seq<byte>)
    requires HangsAtField(ts, i)
    ensures DecodeFields(ts, b).Stuck?
    decreases i
  {
    hide Decode;
    if i == 0 {
      b :| Decode(ts[0], b).Stuck?;
    } else {
      forall j | 0 <= j < i - 1
        ensures CanParse(ts[1..][j])
      {
        assert ts[1..][j] == ts[j + 1];
      }
      var tail := FieldHangs(ts[1..], i - 1);
      assert CanParse(ts[0]);
      var b0: seq<byte> :| Decode(ts[0], b0).Parsed?;
      DecodeIsCanonical(ts[0], b0);
      var r := Decode(ts[0], b0).value;
      var e := Encode(r.value, ts[0]).value;
      DecodeIgnoresRest(ts[0], e, r.rest, tail);
      b := e + tail;
    }
  }

  /**
   An object can keep the decoder from ending if and only if one of its fields can and every field
   before that one can be decoded from something.
   */
  lemma ObjectHangsIff(fields: seq<Type>)
    ensures CanHang(Obj(fields)) <==> exists i: nat :: HangsAtField(fields, i)
  {
    hide DecodeFields, HangsAtField;
    if CanHang(Obj(fields)) {
      var b :| Decode(Obj(fields), b).Stuck?;
      var i := FieldsHang(fields, b);
    }
    if i: nat :| HangsAtField(fields, i) {
      var b := FieldHangs(fields, i);
      assert Decode(Obj(fields), b).Stuck?;
    }
  }

  /** Such an input: one byte that announces a byte of empty objects. */
  lemma EmptyObjectsHang()
    ensures Decode(Arr(Obj([]), Prefixed(1), true), [1]) == Stuck
  {
    assert FromBE([1]) == 1 by { assert FromBE([1][..0]) == 0; }
    assert [1][..1] == [1];
  }

  /** A byte-length array of items that take no bytes is not restored: it decodes as empty. */
  lemma VoidItemsAreLost(items: seq<Value>, t: Type, k: nat, e: seq<byte>, rest: seq<byte>)
    requires Void(t) && Encode(List(items), Arr(t, Prefixed(k), true)) == Some(e)
    ensures Decode(Arr(t, Prefixed(k), true), e + rest) == Parsed(Read(List([]), rest))
  {
    var body := EncodeItems(items, t).value;
    ItemsAreEmpty(items, t, body);
    LengthRoundTrip(Prefixed(k), |body|, body, e, rest);
    assert body + rest == rest;
  }
}
