/**
 Parameter lists of SCTP chunks (section 3.2.1 of RFC 9260): `encodeParams` and `decodeParams` of
 packages/sctp/src/chunk.ts (489-520), and the stream reconfiguration parameters of
 packages/sctp/src/param.ts.
 */
module Parameters {
  import opened Wrappers
  import opened BigEndian

  datatype Param = Param(kind: nat, value: seq<byte>)

  function PadL(l: nat): (n: nat)
    ensures n < 4 && (l + n) % 4 == 0
  {
    if l % 4 != 0 then 4 - l % 4 else 0
  }

  /** What the header of a parameter can hold; anything else makes the write throw. */
  predicate ParamFits(p: Param) {
    p.kind < MAX16 && |p.value| + 4 < MAX16
  }

  predicate ParamsFit(ps: seq<Param>) {
    forall i :: 0 <= i < |ps| ==> ParamFits(ps[i])
  }

  function EncodeParam(p: Param): (b: seq<byte>)
    requires ParamFits(p)
    ensures |b| == |p.value| + 4
  {
    U16(p.kind) + U16(|p.value| + 4) + p.value
  }

  /** Parameters are padded to a multiple of four between them, not after the last. */
  function EncodeParams(ps: seq<Param>): seq<byte>
    requires ParamsFit(ps)
  {
    if ps == [] then []
    else if |ps| == 1 then EncodeParam(ps[0])
    else EncodeParam(ps[0]) + Zeros(PadL(|ps[0].value| + 4)) + EncodeParams(ps[1..])
  }

  function After(b: seq<byte>, n: nat): seq<byte> {
    if n <= |b| then b[n..] else []
  }

  /** The rest of the buffer, from the position of the loop on. A length field of 0 does not advance it. */
  function DecodeParams(b: seq<byte>): Parse<seq<Param>>
    decreases |b|
  {
    if |b| < 4 then Parsed([])
    else
      var length := Read16(b, 2).value;
      if length == 0 then Stuck
      else
        match DecodeParams(After(b, length + PadL(length)))
        case Parsed(ps) => Parsed([Param(Read16(b, 0).value, Slice(b, 4, length))] + ps)
        case Throws => Throws
        case Stuck => Stuck
  }

  lemma ParamHeader(p: Param, rest: seq<byte>)
    requires ParamFits(p)
    ensures var b := EncodeParam(p) + rest;
            && Read16(b, 0) == Some(p.kind) && Read16(b, 2) == Some(|p.value| + 4)
            && Slice(b, 4, |p.value| + 4) == p.value
            && After(b, |p.value| + 4) == rest
  {
    var b := EncodeParam(p) + rest;
    assert b[0..2] == U16(p.kind) && b[2..4] == U16(|p.value| + 4);
    hide EncodeParam, U16;
    Reads16(b, 0, p.kind);
    Reads16(b, 2, |p.value| + 4);
  }

  /** Decoding restores the list that was encoded. */
  lemma {:induction false} ParamsRoundTrip(ps: seq<Param>)
    requires ParamsFit(ps)
    ensures DecodeParams(EncodeParams(ps)) == Parsed(ps)
    decreases |ps|
  {
    hide EncodeParam, U16, Read16, Slice, PadL;
    if ps != [] {
      var p := ps[0];
      var length := |p.value| + 4;
      var pad := Zeros(PadL(length));
      ParamsRoundTrip(ps[1..]);
      if |ps| == 1 {
        ParamHeader(p, []);
        assert EncodeParam(p) + [] == EncodeParam(p);
        assert EncodeParams(ps) == EncodeParam(p);
        assert After(EncodeParam(p), length + PadL(length)) == [];
        assert DecodeParams([]) == Parsed([]);
        assert ps == [p] + [];
      } else {
        var tail := EncodeParams(ps[1..]);
        ParamHeader(p, pad + tail);
        assert EncodeParam(p) + pad + tail == EncodeParam(p) + (pad + tail);
        assert After(EncodeParam(p) + (pad + tail), length + PadL(length)) == tail;
        assert ps == [p] + ps[1..];
      }
    }
  }

  /** The loop of `encodeParams`, which writes the padding before the next parameter. */
  method EncodeParamList(ps: seq<Param>) returns (body: seq<byte>)
    requires ParamsFit(ps)
    ensures body == EncodeParams(ps)
  {
    hide EncodeParam, PadL, EncodeParams;
    body := [];
    var padding: seq<byte> := [];
    var i := 0;
    assert ps[0..] == ps;
    NothingBefore(ps);
    while i < |ps|
      invariant i <= |ps| && ParamsFit(ps[i..])
      invariant EncodeParams(ps) == body + Padded(padding, ps[i..])
    {
      EncodeStep(body, padding, ps[i..]);
      assert ps[i..][1..] == ps[i + 1..];
      body := body + padding + EncodeParam(ps[i]);
      padding := Zeros(PadL(|ps[i].value| + 4));
      i := i + 1;
    }
  }

  /** What the loop still has to write: nothing after the last parameter, not even padding. */
  function Padded(padding: seq<byte>, rest: seq<Param>): seq<byte>
    requires ParamsFit(rest)
  {
    if rest == [] then [] else padding + EncodeParams(rest)
  }

  lemma NothingBefore(ps: seq<Param>)
    requires ParamsFit(ps)
    ensures EncodeParams(ps) == [] + Padded([], ps)
  {
    hide EncodeParam;
  }

  lemma EncodeStep(body: seq<byte>, padding: seq<byte>, rest: seq<Param>)
    requires rest != [] && ParamsFit(rest)
    ensures body + Padded(padding, rest) ==
            body + padding + EncodeParam(rest[0]) + Padded(Zeros(PadL(|rest[0].value| + 4)), rest[1..])
  {
    hide EncodeParam, PadL, Zeros;
    var e, pad := EncodeParam(rest[0]), Zeros(PadL(|rest[0].value| + 4));
    if |rest| > 1 {
      var tail := EncodeParams(rest[1..]);
      assert EncodeParams(rest) == e + pad + tail;
      assert body + (padding + (e + pad + tail)) == body + padding + e + (pad + tail);
    } else {
      assert EncodeParams(rest) == e;
      assert body + (padding + e) == body + padding + e + [];
    }
  }

  /** The loop of `decodeParams`. */
  method DecodeParamList(body: seq<byte>) returns (r: Parse<seq<Param>>)
    ensures r == DecodeParams(body)
  {
    hide Read16, Slice, PadL;
    var params: seq<Param> := [];
    var pos := 0;
    assert After(body, 0) == body;
    PrependLaws([], DecodeParams(body));
    while pos + 4 <= |body|
      invariant DecodeParams(body) == Prepended(params, DecodeParams(After(body, pos)))
      decreases |body| - pos
    {
      var b := After(body, pos);
      ShiftedReads(body, pos);
      var kind := Read16(body, pos).value;
      var length := Read16(body, pos + 2).value;
      if length == 0 {
        return Stuck;
      }
      ShiftedSlice(body, pos, 4, length);
      AfterAfter(body, pos, length + PadL(length));
      var p := Param(kind, Slice(body, pos + 4, pos + length));
      assert DecodeParams(b) == Prepended([p], DecodeParams(After(b, length + PadL(length))));
      PrependTwice(params, p, DecodeParams(After(b, length + PadL(length))));
      params := params + [p];
      pos := pos + (length + PadL(length));
    }
    assert |After(body, pos)| < 4;
    PrependLaws(params, Parsed([]));
    r := Parsed(params);
  }

  function Prepended<T>(xs: seq<T>, r: Parse<seq<T>>): Parse<seq<T>> {
    if r.Parsed? then Parsed(xs + r.value) else r
  }

  lemma PrependLaws<T>(xs: seq<T>, r: Parse<seq<T>>)
    ensures Prepended([], r) == r && Prepended(xs, Parsed([])) == Parsed(xs)
  {
    assert r.Parsed? ==> [] + r.value == r.value;
    assert xs + [] == xs;
  }

  lemma PrependTwice<T>(xs: seq<T>, x: T, r: Parse<seq<T>>)
    ensures Prepended(xs, Prepended([x], r)) == Prepended(xs + [x], r)
  {
    assert r.Parsed? ==> xs + ([x] + r.value) == xs + [x] + r.value;
  }

  lemma ShiftedReads(b: seq<byte>, pos: nat)
    requires pos + 4 <= |b|
    ensures Read16(After(b, pos), 0) == Read16(b, pos) && Read16(After(b, pos), 2) == Read16(b, pos + 2)
    ensures Read16(b, pos).Some? && Read16(b, pos + 2).Some?
  {
  }

  lemma ShiftedSlice(b: seq<byte>, pos: nat, from: nat, to: nat)
    requires pos <= |b|
    ensures Slice(After(b, pos), from, to) == Slice(b, pos + from, pos + to)
  {
  }

  lemma AfterAfter(b: seq<byte>, m: nat, n: nat)
    ensures After(After(b, m), n) == After(b, m + n)
  {
  }

  // Stream reconfiguration parameters

  datatype StreamParam =
    | OutgoingReset(requestSequence: nat, responseSequence: nat, lastTsn: nat, streams: seq<nat>)
    | ReconfigResponse(responseSequence: nat, result: nat)
    | StreamAddOutgoing(requestSequence: nat, newStreams: nat)

  predicate StreamParamFits(p: StreamParam) {
    match p
    case OutgoingReset(q, r, t, streams) =>
      q < MAX32 && r < MAX32 && t < MAX32 && Words16(streams)
    case ReconfigResponse(r, result) => r < MAX32 && result < MAX32
    case StreamAddOutgoing(q, n) => q < MAX32 && n < MAX16
  }

  predicate Words16(ns: seq<nat>) {
    forall i :: 0 <= i < |ns| ==> ns[i] < MAX16
  }

  function Encode16s(ns: seq<nat>): (b: seq<byte>)
    requires Words16(ns)
    ensures |b| == 2 * |ns|
  {
    if ns == [] then [] else U16(ns[0]) + Encode16s(ns[1..])
  }

  /** Reads to the end of the buffer; an odd byte left over throws. */
  function Decode16s(b: seq<byte>): Option<seq<nat>>
    decreases |b|
  {
    if b == [] then Some([])
    else if Read16(b, 0).None? then None
    else
      match Decode16s(b[2..])
      case None => None
      case Some(ns) => Some([Read16(b, 0).value] + ns)
  }

  function ParamType(p: StreamParam): nat {
    match p
    case OutgoingReset(_, _, _, _) => 13
    case ReconfigResponse(_, _) => 16
    case StreamAddOutgoing(_, _) => 17
  }

  function StreamParamBytes(p: StreamParam): seq<byte>
    requires StreamParamFits(p)
  {
    match p
    case OutgoingReset(q, r, t, streams) => U32(q) + U32(r) + U32(t) + Encode16s(streams)
    case ReconfigResponse(r, result) => U32(r) + U32(result)
    case StreamAddOutgoing(q, n) => U32(q) + U16(n) + U16(0)
  }

  /** `RECONFIG_PARAM_BY_TYPES[type].parse`; a type that is not listed is ignored by the caller. */
  function ParseStreamParam(kind: nat, b: seq<byte>): Option<StreamParam> {
    if kind == 13 then
      var q, r, t := Read32(b, 0), Read32(b, 4), Read32(b, 8);
      if q.None? || r.None? || t.None? then None
      else
        match Decode16s(b[12..])
        case None => None
        case Some(streams) => Some(OutgoingReset(q.value, r.value, t.value, streams))
    else if kind == 16 then
      var r, result := Read32(b, 0), Read32(b, 4);
      if r.None? || result.None? then None else Some(ReconfigResponse(r.value, result.value))
    else if kind == 17 then
      var q, n := Read32(b, 0), Read16(b, 4);
      if q.None? || n.None? then None else Some(StreamAddOutgoing(q.value, n.value))
    else None
  }

  lemma {:induction false} Words16RoundTrip(ns: seq<nat>)
    requires Words16(ns)
    ensures Decode16s(Encode16s(ns)) == Some(ns)
    decreases |ns|
  {
    hide U16, Read16;
    if ns != [] {
      var b, rest := Encode16s(ns), Encode16s(ns[1..]);
      assert b[0..2] == U16(ns[0]) && b[2..] == rest;
      Reads16(b, 0, ns[0]);
      Words16RoundTrip(ns[1..]);
      assert ns == [ns[0]] + ns[1..];
    }
  }

  lemma StreamParamRoundTrip(p: StreamParam)
    requires StreamParamFits(p)
    ensures ParseStreamParam(ParamType(p), StreamParamBytes(p)) == Some(p)
  {
    hide U16, U32, Read16, Read32, Encode16s, Decode16s;
    var b := StreamParamBytes(p);
    match p
    case OutgoingReset(q, r, t, streams) =>
      assert b[0..4] == U32(q) && b[4..8] == U32(r) && b[8..12] == U32(t) && b[12..] == Encode16s(streams);
      Reads32(b, 0, q);
      Reads32(b, 4, r);
      Reads32(b, 8, t);
      Words16RoundTrip(streams);
    case ReconfigResponse(r, result) =>
      assert b[0..4] == U32(r) && b[4..8] == U32(result);
      Reads32(b, 0, r);
      Reads32(b, 4, result);
    case StreamAddOutgoing(q, n) =>
      assert b[0..4] == U32(q) && b[4..6] == U16(n);
      Reads32(b, 0, q);
      Reads16(b, 4, n);
  }
}
