/**
 A one-way data transfer between two endpoints of packages/sctp/src/sctp.ts: the outbound
 half of one, the inbound half of the other, and a network that loses, duplicates and
 reorders packets. The two directions of an association share no state that these steps
 read, so an association is two such systems side by side.

 Every await-free stretch of the source is one step, and so is `transmitOnce`.
 */
module Association {
  import opened SerialNumbers
  import opened StringOrder
  import opened TsnTracking
  import opened Reassembly
  import opened OrderedStream
  import opened StreamInvariant
  import opened Sacks
  import Inbound
  import Outbound

  /** A SACK packet is labelled with the virtual value of its cumulative TSN. */
  datatype Packet =
    | DataPacket(chunk: Chunk)
    | SackPacket(serial: nat, sack: Sack)

  /**
   `net` holds every packet ever sent: any of them may be delivered, in any order, any
   number of times, or never. `cum` and `acked` are the virtual values of the receiver's
   `lastReceivedTsn` and the sender's `lastSackedTsn`; `sent` and `delivered` are the
   messages of each stream so far.
   */
  datatype System = System(
    snd: Outbound.State, rcv: Inbound.State, net: set<Packet>,
    initial: nat, cum: nat, acked: nat,
    sent: map<nat, seq<Placed>>, delivered: map<nat, seq<Message>>)

  function SentOn(sent: map<nat, seq<Placed>>, sid: nat): seq<Placed> {
    if sid in sent then sent[sid] else []
  }

  function DeliveredOn(delivered: map<nat, seq<Message>>, sid: nat): seq<Message> {
    if sid in delivered then delivered[sid] else []
  }

  /** A freshly established association whose first TSN is `initial`. */
  predicate Init(s: System) {
    && 1 <= s.initial < MOD32
    && s.snd.maxPayload > 0
    && s.snd.nextSerial == s.snd.localTsn == s.initial
    && s.snd.lastSacked == s.snd.advanced == s.initial - 1 == s.acked
    && s.snd.streamSeq == map[] && s.snd.outbound == [] && s.snd.sent == []
    && s.rcv == Inbound.State(Tracker(s.initial - 1, {}, []), map[], Inbound.WINDOW, false)
    && s.net == {} && s.cum == s.initial - 1
    && s.sent == map[] && s.delivered == map[]
  }

  /** The SACK `sendSack` builds. */
  function MakeSack(r: Inbound.State): Sack {
    Sack(r.tracker.last, Outbound.Floor(r.rwnd), Gaps(r.tracker.last, JsSort(r.tracker.misordered)),
         r.tracker.duplicates)
  }

  function AfterSack(r: Inbound.State): Inbound.State {
    r.(tracker := r.tracker.(duplicates := []), sackNeeded := false)
  }

  /** Whether the receiver in state `r` can send its SACK, decided by its fields. */
  lemma SackIsSentIff(r: Inbound.State, c: nat, m: set<nat>)
    requires Tracks(r.tracker, c, m)
    ensures Fits(MakeSack(r)) <==> Sendable(r.tracker, JsSort(r.tracker.misordered), Outbound.Floor(r.rwnd))
  {
    hide Fits, Sendable, Tracks;
    FitsIff(r.tracker, c, m, JsSort(r.tracker.misordered), Outbound.Floor(r.rwnd));
  }

  function PacketsOf(chunks: seq<Chunk>): set<Packet> {
    set c | c in chunks :: DataPacket(c)
  }

  /**
   Fewer than 2^31 TSNs are unacknowledged, and on every stream fewer than 2^15 messages
   and 2^31 TSNs are between the oldest undelivered message and the newest.
   */
  ghost predicate Outstanding(s: System) {
    && s.snd.nextSerial - s.acked <= HALF32
    && forall sid :: sid in s.sent ==> OutstandingOn(s, sid)
  }

  ghost predicate OutstandingOn(s: System, sid: nat)
    requires sid in s.sent
  {
    Fitting(s.sent[sid], |DeliveredOn(s.delivered, sid)|, s.snd.nextSerial)
  }

  datatype Step =
    | SendStep(sid: nat, ppid: nat, data: seq<byte>)
    | TransmitStep
    | ExpiryStep
    | DeliverDataStep(chunk: Chunk)
    | SackStep
    | DeliverSackStep(serial: nat, sack: Sack)

  function AfterSend(s: System, sid: nat, ppid: nat, data: seq<byte>): System
    requires s.snd.maxPayload > 0
  {
    s.(snd := Outbound.Send(s.snd, sid, ppid, data, true),
       sent := s.sent[sid := SentOn(s.sent, sid) +
                             [Placed(s.snd.nextSerial, ppid, Outbound.Split(data, s.snd.maxPayload))]])
  }

  function AfterTransmission(s: System, t: Outbound.Transmission): System {
    s.(snd := t.state, net := s.net + PacketsOf(t.packets))
  }

  function AfterData(s: System, chunk: Chunk): System {
    var o := Inbound.ReceiveData(s.rcv, chunk);
    s.(rcv := o.state,
       cum := s.cum + Inbound.Moved(s.rcv, o.state),
       delivered := s.delivered[chunk.streamId := DeliveredOn(s.delivered, chunk.streamId) + o.delivered])
  }

  function AfterSackDelivery(s: System, k: Sack): System {
    var snd := Outbound.ReceiveSack(s.snd, k);
    s.(snd := snd, acked := s.acked + (snd.lastSacked - s.snd.lastSacked) % MOD32)
  }

  /**
   The transitions. Messages are non-empty. A packet is delivered while it is less than 2^31
   TSNs old (the packet-lifetime assumption that 32-bit TSNs rest on).
   */
  ghost predicate Next(s: System, step: Step, s': System)
    requires s.snd.maxPayload > 0
  {
    match step
    case SendStep(sid, ppid, data) =>
      data != [] && s' == AfterSend(s, sid, ppid, data) && Outstanding(s')
    case TransmitStep =>
      s' == AfterTransmission(s, Outbound.TransmitOnce(s.snd))
    case ExpiryStep =>
      s' == AfterTransmission(s, Outbound.Timer3Expired(s.snd))
    case DeliverDataStep(chunk) =>
      DataPacket(chunk) in s.net && s.cum - HALF32 < chunk.serial && s' == AfterData(s, chunk)
    case SackStep =>
      && s.rcv.sackNeeded
      && s' == s.(rcv := AfterSack(s.rcv),
                  net := if Fits(MakeSack(s.rcv)) then s.net + {SackPacket(s.cum, MakeSack(s.rcv))} else s.net)
    case DeliverSackStep(serial, sack) =>
      SackPacket(serial, sack) in s.net && s.acked - HALF32 < serial && s' == AfterSackDelivery(s, sack)
  }

  // The invariant

  /** The virtual out-of-order TSNs of the receiver and the fragments each stream holds. */
  datatype View = View(m: set<nat>, held: map<nat, Held>)

  /** `q` holds the chunks of consecutive TSNs from `v` on. */
  ghost predicate Consecutive(q: seq<Outbound.Entry>, v: nat) {
    forall i :: 0 <= i < |q| ==> q[i].chunk.serial == v + i && q[i].chunk.tsn == (v + i) % MOD32
  }

  /** The chunk is a fragment of a message sent on its stream. */
  ghost predicate Logged(sent: map<nat, seq<Placed>>, c: Chunk) {
    exists k: nat, j: nat :: IsFragment(sent, c, k, j)
  }

  ghost predicate IsFragment(sent: map<nat, seq<Placed>>, c: Chunk, k: nat, j: nat) {
    && c.streamId in sent && k < |sent[c.streamId]| && j < |sent[c.streamId][k].pieces|
    && c == Fragment(c.streamId, k, sent[c.streamId][k], j)
  }

  /** The TSNs below this one have been transmitted at least once. */
  function FirstUnsent(s: System): int {
    s.snd.nextSerial - |s.snd.outbound|
  }

  ghost predicate SenderOk(s: System) {
    var q := s.snd.sent + s.snd.outbound;
    && s.snd.maxPayload > 0
    && s.snd.localTsn == s.snd.nextSerial % MOD32 && s.snd.lastSacked == s.acked % MOD32
    && Consecutive(q, s.acked + 1) && s.acked + 1 + |q| == s.snd.nextSerial
    && (forall i :: 0 <= i < |q| ==> Logged(s.sent, q[i].chunk))
    && (forall i :: 0 <= i < |s.snd.outbound| ==> !s.snd.outbound[i].acked)
    && s.initial - 1 <= s.acked && s.snd.nextSerial - s.acked <= HALF32
    && (forall sid :: Outbound.SequenceFor(s.snd.streamSeq, sid, true) == |SentOn(s.sent, sid)| % MOD16)
  }

  /** Entries flagged as acknowledged are held by the receiver. */
  ghost predicate AckedIsReceived(s: System, m: set<nat>) {
    forall i :: 0 <= i < |s.snd.sent| && s.snd.sent[i].acked ==> Received(s.cum, m, s.acked + 1 + i)
  }

  /** Messages of different streams occupy disjoint TSN ranges; together they cover every TSN used. */
  ghost predicate LayoutOk(s: System) {
    && (forall a, b, k, l :: a in s.sent && b in s.sent && a != b && 0 <= k < |s.sent[a]| && 0 <= l < |s.sent[b]| ==>
          Apart(s.sent[a][k], s.sent[b][l]))
    && (forall sid, k :: sid in s.sent && 0 <= k < |s.sent[sid]| ==> s.initial <= s.sent[sid][k].start)
    && (forall u :: s.initial <= u < s.snd.nextSerial ==> Covered(s.sent, u))
  }

  ghost predicate Apart(p: Placed, q: Placed) {
    End(p) <= q.start || End(q) <= p.start
  }

  ghost predicate Covered(sent: map<nat, seq<Placed>>, u: nat) {
    exists sid, k :: sid in sent && 0 <= k < |sent[sid]| && sent[sid][k].start <= u < End(sent[sid][k])
  }

  ghost predicate ReceiverOk(s: System, m: set<nat>) {
    && Tracks(s.rcv.tracker, s.cum, m)
    && s.initial - 1 <= s.cum && s.acked <= s.cum
    && (forall v: nat :: Received(s.cum, m, v) ==> v < FirstUnsent(s))
  }

  ghost predicate DataOk(s: System, c: Chunk) {
    Logged(s.sent, c) && s.initial <= c.serial < FirstUnsent(s)
  }

  /** The SACK reports only TSNs the receiver holds. */
  ghost predicate SackOk(s: System, m: set<nat>, serial: nat, k: Sack) {
    && k.cum == serial % MOD32 && s.initial - 1 <= serial <= s.cum
    && forall x :: x in Seen(k.cum, k.gaps) ==> Reported(s, m, serial, x)
  }

  ghost predicate Reported(s: System, m: set<nat>, serial: nat, x: int) {
    exists v: nat :: serial < v < serial + HALF32 && v % MOD32 == x && Received(s.cum, m, v)
  }

  ghost predicate NetOk(s: System, m: set<nat>) {
    && (forall c :: DataPacket(c) in s.net ==> DataOk(s, c))
    && (forall serial, k :: SackPacket(serial, k) in s.net ==> SackOk(s, m, serial, k))
  }

  function HeldOn(v: View, sid: nat): Held {
    if sid in v.held then v.held[sid] else Held([], [])
  }

  ghost predicate StreamOk(s: System, v: View, sid: nat) {
    StreamInv(Inbound.StreamAt(s.rcv.streams, sid), HeldOn(v, sid), sid, SentOn(s.sent, sid),
              DeliveredOn(s.delivered, sid), s.snd.nextSerial, s.cum, v.m)
  }

  ghost predicate StreamsOk(s: System, v: View) {
    forall sid: nat :: StreamOk(s, v, sid)
  }

  ghost predicate Inv(s: System, v: View) {
    SenderOk(s) && AckedIsReceived(s, v.m) && LayoutOk(s) && ReceiverOk(s, v.m) && NetOk(s, v.m) && StreamsOk(s, v)
  }

  lemma InitHoldsInv(s: System) returns (v: View)
    requires Init(s)
    ensures Inv(s, v)
  {
    v := View({}, map[]);
    forall sid: nat ensures StreamOk(s, v, sid) {
      EmptyStreamInv(sid, s.snd.nextSerial, s.cum, v.m);
    }
  }
}
