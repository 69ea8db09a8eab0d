/**
 The outbound half of class `SCTP` (packages/sctp/src/sctp.ts) for fully reliable messages:
 `send` (880-946), `transmitOnce` (981-1057), `receiveSackChunk` (672-785) and
 `timer3Expired` (1197-1221), where `maybeAbandon` answers false.

 Each loop of the source is a function over its index and local variables; class
 `SctpOutbound` runs the loops in place.
 */
module Outbound {
  import opened SerialNumbers
  import opened Wrappers
  import opened Reassembly
  import opened Sacks

  /** A DATA chunk with the bookkeeping fields the sender keeps on it. */
  datatype Entry = Entry(chunk: Chunk, acked: bool, misses: nat, retransmit: bool, sentCount: nat)

  function BookSize(e: Entry): nat {
    |e.chunk.data|
  }

  /**
   The fields of the outbound half. `nextSerial` is a history counter: the virtual TSN whose
   reduction is `localTsn`; it only labels chunks.
   */
  datatype State = State(
    maxPayload: nat,
    nextSerial: nat, localTsn: nat, streamSeq: map<nat, nat>,
    outbound: seq<Entry>, sent: seq<Entry>,
    lastSacked: nat, advanced: nat,
    flight: nat, cwnd: nat, ssthresh: nat, partialAcked: nat, peerWindow: nat,
    recoveryExit: Option<nat>, recoveryTransmit: bool,
    t3: bool)

  function Floor(x: int): nat {
    if x < 0 then 0 else x
  }

  function Min(a: nat, b: nat): nat {
    if a < b then a else b
  }

  function Max(a: nat, b: nat): nat {
    if a < b then b else a
  }

  /** `peerRwnd`: what the peer advertised, minus what is outstanding. */
  function Available(peerWindow: nat, flight: nat): nat {
    Floor(peerWindow - flight)
  }

  // send

  /** `userData` cut every `n` bytes. */
  function Split(data: seq<byte>, n: nat): (p: seq<seq<byte>>)
    requires n > 0
    decreases |data|
  {
    if data == [] then []
    else if |data| <= n then [data]
    else [data[..n]] + Split(data[n..], n)
  }

  function SequenceFor(streamSeq: map<nat, nat>, sid: nat, ordered: bool): nat {
    if ordered && sid in streamSeq then streamSeq[sid] else 0
  }

  /** Fragment `j` of a message sent with sequence number `ssn` from local TSN `tsn`. */
  function NewEntry(nextSerial: nat, tsn: nat, sid: nat, ssn: nat, ppid: nat, ordered: bool,
                    pieces: seq<seq<byte>>, j: nat): Entry
    requires j < |pieces|
  {
    Entry(
      Chunk(nextSerial + j, (tsn + j) % MOD32, sid, ssn, ppid, j == 0, j == |pieces| - 1, !ordered, pieces[j]),
      false, 0, false, 0)
  }

  function NewEntries(nextSerial: nat, tsn: nat, sid: nat, ssn: nat, ppid: nat, ordered: bool,
                      pieces: seq<seq<byte>>, n: nat): (es: seq<Entry>)
    requires n <= |pieces|
    ensures |es| == n
    ensures forall j :: 0 <= j < n ==> es[j] == NewEntry(nextSerial, tsn, sid, ssn, ppid, ordered, pieces, j)
  {
    seq(n, j requires 0 <= j < n => NewEntry(nextSerial, tsn, sid, ssn, ppid, ordered, pieces, j))
  }

  function Send(s: State, sid: nat, ppid: nat, data: seq<byte>, ordered: bool): State
    requires s.maxPayload > 0
  {
    var ssn := SequenceFor(s.streamSeq, sid, ordered);
    var pieces := Split(data, s.maxPayload);
    s.(nextSerial := s.nextSerial + |pieces|,
       localTsn := (s.localTsn + |pieces|) % MOD32,
       outbound := s.outbound + NewEntries(s.nextSerial, s.localTsn, sid, ssn, ppid, ordered, pieces, |pieces|),
       streamSeq := if ordered then s.streamSeq[sid := Add16(ssn, 1)] else s.streamSeq)
  }

  // transmitOnce

  datatype Transmission = Transmission(state: State, packets: seq<Chunk>)

  function Burst(s: State): nat {
    (if s.recoveryExit.Some? then 2 else 4) * s.maxPayload
  }

  function BurstWindow(s: State): nat {
    Min(s.flight + Burst(s), s.cwnd)
  }

  /** The retransmission loop, from index `i` of the sent queue. */
  function Retransmit(s: State, window: nat, i: nat, packets: seq<Chunk>): Transmission
    requires i <= |s.sent|
    decreases |s.sent| - i
  {
    if i == |s.sent| then Transmission(s, packets)
    else if !s.sent[i].retransmit then Retransmit(s, window, i + 1, packets)
    else if !s.recoveryTransmit && s.flight >= window then Transmission(s, packets)
    else Retransmit(Resent(s, i), window, i + 1, packets + [s.sent[i].chunk])
  }

  function Resent(s: State, i: nat): State
    requires i < |s.sent|
  {
    var e := s.sent[i];
    s.(recoveryTransmit := false,
       flight := s.flight + BookSize(e),
       sent := s.sent[i := e.(misses := 0, retransmit := false, sentCount := e.sentCount + 1)],
       t3 := s.t3 || i == 0)
  }

  predicate MayDrain(s: State, window: nat) {
    && s.outbound != [] && s.flight < window && Available(s.peerWindow, s.flight) > 0
    && !(BookSize(s.outbound[0]) > Available(s.peerWindow, s.flight) && s.flight > 0)
  }

  function Drained(s: State): State
    requires s.outbound != []
  {
    var e := s.outbound[0];
    s.(outbound := s.outbound[1..],
       sent := s.sent + [e.(sentCount := e.sentCount + 1)],
       flight := s.flight + BookSize(e),
       t3 := true)
  }

  /** The loop that sends new DATA while the windows allow. */
  function Drain(s: State, window: nat, packets: seq<Chunk>): Transmission
    decreases |s.outbound|
  {
    if MayDrain(s, window) then Drain(Drained(s), window, packets + [s.outbound[0].chunk])
    else Transmission(s, packets)
  }

  function TransmitOnce(s: State): Transmission {
    var r := Retransmit(s, BurstWindow(s), 0, []);
    Drain(r.state, BurstWindow(s), r.packets)
  }

  // receiveSackChunk

  /** What the acknowledgement loops change. */
  datatype Tally = Tally(sent: seq<Entry>, flight: nat, bytes: nat)

  /** The loop that drops cumulatively acknowledged chunks; `done` counts them. */
  function CumAck(t: Tally, cum: nat, done: nat): (Tally, nat)
    decreases |t.sent|
  {
    if t.sent == [] || !Gte32(cum, t.sent[0].chunk.tsn) then (t, done)
    else CumAck(Dropped(t), cum, done + 1)
  }

  function Dropped(t: Tally): Tally
    requires t.sent != []
  {
    var e := t.sent[0];
    if e.acked then t.(sent := t.sent[1..])
    else Tally(t.sent[1..], Floor(t.flight - BookSize(e)), t.bytes + BookSize(e))
  }

  /** The TSN that the expansion of the gap blocks reaches last, if it reaches any. */
  function LastSeen(cum: nat, gaps: seq<Gap>): Option<int> {
    if gaps == [] then None
    else
      var g := gaps[|gaps| - 1];
      if g.start <= g.end then Some(TsnAt(cum, g.end)) else LastSeen(cum, gaps[..|gaps| - 1])
  }

  predicate Beyond(tsn: nat, highest: Option<int>) {
    highest.Some? && Gt32(tsn, highest.value)
  }

  /** The loop that marks gap-acknowledged chunks, from index `i`; `newly` is the last TSN marked. */
  function GapAck(t: Tally, seen: set<int>, highest: Option<int>, i: nat, newly: nat): (Tally, nat)
    requires i <= |t.sent|
    decreases |t.sent| - i
  {
    if i == |t.sent| || Beyond(t.sent[i].chunk.tsn, highest) then (t, newly)
    else if t.sent[i].chunk.tsn in seen && !t.sent[i].acked then
      GapAck(Acked(t, i), seen, highest, i + 1, t.sent[i].chunk.tsn)
    else GapAck(t, seen, highest, i + 1, newly)
  }

  function Acked(t: Tally, i: nat): Tally
    requires i < |t.sent|
  {
    var e := t.sent[i];
    Tally(t.sent[i := e.(acked := true)], Floor(t.flight - BookSize(e)), t.bytes + BookSize(e))
  }

  /** The loop that strikes chunks missing below the highest newly acknowledged TSN. */
  function Strike(t: Tally, seen: set<int>, newly: nat, i: nat, loss: bool): (Tally, bool)
    requires i <= |t.sent|
    decreases |t.sent| - i
  {
    if i == |t.sent| || Gt32(t.sent[i].chunk.tsn, newly) then (t, loss)
    else if t.sent[i].chunk.tsn in seen then Strike(t, seen, newly, i + 1, loss)
    else Strike(Struck(t, i), seen, newly, i + 1, loss || t.sent[i].misses == 2)
  }

  function Struck(t: Tally, i: nat): Tally
    requires i < |t.sent|
  {
    var e := t.sent[i];
    if e.misses == 2 then
      t.(sent := t.sent[i := e.(misses := 0, retransmit := true, acked := false)],
         flight := Floor(t.flight - BookSize(e)))
    else t.(sent := t.sent[i := e.(misses := e.misses + 1)])
  }

  /** The acknowledgement loops in sequence. */
  datatype Acks = Acks(tally: Tally, done: nat, loss: bool)

  function Acknowledge(sent: seq<Entry>, flight: nat, k: Sack): Acks {
    var (t, done) := CumAck(Tally(sent, flight, 0), k.cum, 0);
    if k.gaps == [] then Acks(t, done, false)
    else
      var seen := Seen(k.cum, k.gaps);
      var (t1, newly) := GapAck(t, seen, LastSeen(k.cum, k.gaps), 0, k.cum);
      var (t2, loss) := Strike(t1, seen, newly, 0, false);
      Acks(t2, done, loss)
  }

  /** Slow start and congestion avoidance. */
  function Grown(s: State, fullyUsed: bool, a: Acks): State {
    if a.done > 0 && fullyUsed then
      if s.cwnd <= s.ssthresh then s.(cwnd := s.cwnd + Min(a.tally.bytes, s.maxPayload))
      else
        var p := s.partialAcked + a.tally.bytes;
        if p >= s.cwnd then s.(partialAcked := p - s.cwnd, cwnd := s.cwnd + s.maxPayload)
        else s.(partialAcked := p)
    else s
  }

  /** Entry into fast recovery. */
  function Recovering(s: State, loss: bool): State {
    if loss && s.sent != [] then
      var th := Max(s.cwnd / 2, 4 * s.maxPayload);
      s.(ssthresh := th, cwnd := th, partialAcked := 0,
         recoveryExit := Some(s.sent[|s.sent| - 1].chunk.tsn), recoveryTransmit := true)
    else s
  }

  function AdjustWindow(s: State, fullyUsed: bool, a: Acks, cum: nat): State {
    if s.recoveryExit.None? then Recovering(Grown(s, fullyUsed, a), a.loss)
    else if Gte32(cum, s.recoveryExit.value) then s.(recoveryExit := None)
    else s
  }

  function ReceiveSack(s: State, k: Sack): State {
    if Gt32(s.lastSacked, k.cum) then s
    else
      var a := Acknowledge(s.sent, s.flight, k);
      var s1 := s.(lastSacked := k.cum, sent := a.tally.sent, flight := a.tally.flight);
      var s2 := AdjustWindow(s1, s.flight >= s.cwnd, a, k.cum);
      s2.(t3 := if s2.sent == [] then false else s2.t3 || a.done > 0,
          peerWindow := k.rwnd,
          advanced := if Gt32(s2.lastSacked, s2.advanced) then s2.lastSacked else s2.advanced)
  }

  // timer3Expired

  function MarkAll(sent: seq<Entry>): (q: seq<Entry>)
    ensures |q| == |sent|
    ensures forall i :: 0 <= i < |q| ==> q[i] == sent[i].(retransmit := true)
  {
    seq(|sent|, i requires 0 <= i < |sent| => sent[i].(retransmit := true))
  }

  function Expired(s: State): State {
    s.(t3 := false,
       sent := MarkAll(s.sent),
       advanced := if Gt32(s.lastSacked, s.advanced) then s.lastSacked else s.advanced,
       recoveryExit := None, flight := 0, partialAcked := 0,
       ssthresh := Max(s.cwnd / 2, 4 * s.maxPayload),
       cwnd := s.maxPayload)
  }

  /** The expiry of T3 and the transmission it runs. */
  function Timer3Expired(s: State): Transmission {
    TransmitOnce(Expired(s))
  }
}
