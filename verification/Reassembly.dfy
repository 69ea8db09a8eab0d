/**
 Per-stream reassembly: class `InboundStream` of packages/sctp/src/sctp.ts (1516-1624).

 The fields change in place in class `InboundStream`; `AddChunk`, `Pop` and `Prune` are
 what its methods compute, on values, and carry the laws.
 */
module Reassembly {
  import opened SerialNumbers
  import opened Wrappers
  import BigEndian

  type byte = BigEndian.byte

  /**
   A DATA chunk. `serial` is a history label, the virtual TSN whose reduction modulo 2^32
   is `tsn`; no operation reads it.
   */
  datatype Chunk = Chunk(
    serial: nat, tsn: nat, streamId: nat, ssn: nat, ppid: nat,
    first: bool, last: bool, unordered: bool, data: seq<byte>)

  datatype Message = Message(streamId: nat, ppid: nat, data: seq<byte>)

  datatype Stream = Stream(reassembly: seq<Chunk>, ssn: nat)

  const EMPTY_STREAM := Stream([], 0)

  function Concat(list: seq<Chunk>): seq<byte> {
    if list == [] then [] else list[0].data + Concat(list[1..])
  }

  function Bytes(list: seq<Chunk>): nat {
    if list == [] then 0 else |list[0].data| + Bytes(list[1..])
  }

  function MessageBytes(ms: seq<Message>): nat {
    if ms == [] then 0 else |ms[0].data| + MessageBytes(ms[1..])
  }

  // addChunk

  datatype AddResult = Added(list: seq<Chunk>) | DuplicateChunk

  function InsertFrom(list: seq<Chunk>, chunk: Chunk, i: nat): AddResult
    requires i <= |list|
    decreases |list| - i
  {
    if i == |list| then Added(list)
    else if list[i].tsn == chunk.tsn then DuplicateChunk
    else if Gt32(list[i].tsn, chunk.tsn) then Added(list[..i] + [chunk] + list[i..])
    else InsertFrom(list, chunk, i + 1)
  }

  function AddChunk(list: seq<Chunk>, chunk: Chunk): AddResult {
    if list == [] || Gt32(chunk.tsn, list[|list| - 1].tsn) then Added(list + [chunk])
    else InsertFrom(list, chunk, 0)
  }

  // popMessages

  /** The local variables of the generator. */
  datatype Cursor = Cursor(pos: nat, start: Option<nat>, expected: nat, ordered: bool)

  const FRESH := Cursor(0, None, 0, false)

  datatype Popped = Popped(stream: Stream, messages: seq<Message>)

  /** What one turn of the loop does. */
  datatype Turn =
    | Stop
    | Skip(cursor: Cursor)
    | Yield(stream: Stream, message: Message, cursor: Cursor)

  predicate CursorOk(s: Stream, k: Cursor) {
    k.pos <= |s.reassembly| && (k.start.Some? ==> k.start.value <= k.pos)
  }

  function PopTurn(s: Stream, k: Cursor): (t: Turn)
    requires CursorOk(s, k) && k.pos < |s.reassembly|
    ensures t.Skip? ==> CursorOk(s, t.cursor) && t.cursor.pos == k.pos + 1
    ensures t.Yield? ==> CursorOk(t.stream, t.cursor) &&
                         |t.stream.reassembly| - t.cursor.pos == |s.reassembly| - k.pos - 1
  {
    var chunk := s.reassembly[k.pos];
    if k.start.None? then
      if !chunk.first then
        if chunk.unordered then Skip(k.(pos := k.pos + 1, ordered := false)) else Stop
      else if !chunk.unordered && Gt16(chunk.ssn, s.ssn) then Stop
      else Take(s, Cursor(k.pos, Some(k.pos), chunk.tsn, !chunk.unordered))
    else if chunk.tsn != k.expected then
      if k.ordered then Stop else Skip(k.(pos := k.pos + 1, start := None))
    else Take(s, k)
  }

  /** The tail of the loop body: the chunk at `pos` continues the message begun at `start`. */
  function Take(s: Stream, k: Cursor): (t: Turn)
    requires CursorOk(s, k) && k.pos < |s.reassembly| && k.start.Some?
    ensures t.Skip? ==> CursorOk(s, t.cursor) && t.cursor.pos == k.pos + 1
    ensures t.Yield? ==> CursorOk(t.stream, t.cursor) &&
                         |t.stream.reassembly| - t.cursor.pos == |s.reassembly| - k.pos - 1
    ensures !t.Stop?
  {
    var chunk := s.reassembly[k.pos];
    var start := k.start.value;
    if chunk.last then
      var rest := s.reassembly[..start] + s.reassembly[k.pos + 1..];
      var ssn := if k.ordered && chunk.ssn == s.ssn then Add16(s.ssn, 1) else s.ssn;
      Yield(
        Stream(rest, ssn),
        Message(chunk.streamId, chunk.ppid, Concat(s.reassembly[start..k.pos + 1])),
        k.(pos := start, expected := PlusOne(k.expected)))
    else Skip(k.(pos := k.pos + 1, expected := PlusOne(k.expected)))
  }

  function Pop(s: Stream, k: Cursor): Popped
    requires CursorOk(s, k)
    decreases |s.reassembly| - k.pos
  {
    if k.pos == |s.reassembly| then Popped(s, [])
    else
      match PopTurn(s, k)
      case Stop => Popped(s, [])
      case Skip(k') => Pop(s, k')
      case Yield(s', m, k') =>
        var rest := Pop(s', k');
        Popped(rest.stream, [m] + rest.messages)
  }

  /** Having yielded `messages`, the generator at cursor `k` still has the rest of `goal` to do. */
  ghost predicate LeadsTo(goal: Popped, messages: seq<Message>, s: Stream, k: Cursor)
    requires CursorOk(s, k)
  {
    goal.stream == Pop(s, k).stream && goal.messages == messages + Pop(s, k).messages
  }

  lemma PopBegins(s: Stream)
    ensures LeadsTo(Pop(s, FRESH), [], s, FRESH)
  {
    assert [] + Pop(s, FRESH).messages == Pop(s, FRESH).messages;
  }

  lemma PopEnds(goal: Popped, messages: seq<Message>, s: Stream, k: Cursor)
    requires CursorOk(s, k) && k.pos == |s.reassembly| && LeadsTo(goal, messages, s, k)
    ensures goal == Popped(s, messages)
  {
    assert messages + [] == messages;
  }

  lemma TurnLeads(goal: Popped, messages: seq<Message>, s: Stream, k: Cursor)
    requires CursorOk(s, k) && k.pos < |s.reassembly| && LeadsTo(goal, messages, s, k)
    ensures var t := PopTurn(s, k);
            && (t.Stop? ==> goal == Popped(s, messages))
            && (t.Skip? ==> LeadsTo(goal, messages, s, t.cursor))
            && (t.Yield? ==> LeadsTo(goal, messages + [t.message], t.stream, t.cursor))
  {
    match PopTurn(s, k)
    case Stop => assert messages + [] == messages;
    case Skip(k') =>
    case Yield(s', m, k') =>
      assert messages + ([m] + Pop(s', k').messages) == messages + [m] + Pop(s', k').messages;
  }

  // pruneChunks

  function PruneCount(list: seq<Chunk>, tsn: nat): (n: nat)
    ensures n <= |list|
  {
    if list == [] || !Gte32(tsn, list[0].tsn) then 0 else 1 + PruneCount(list[1..], tsn)
  }

  function Prune(s: Stream, tsn: nat): Stream {
    s.(reassembly := s.reassembly[PruneCount(s.reassembly, tsn)..])
  }

  function PrunedBytes(s: Stream, tsn: nat): nat {
    Bytes(s.reassembly[..PruneCount(s.reassembly, tsn)])
  }

  class InboundStream {
    var reassembly: seq<Chunk>
    var streamSequenceNumber: nat

    constructor ()
      ensures State() == EMPTY_STREAM
    {
      reassembly := [];
      streamSequenceNumber := 0;
    }

    function State(): Stream
      reads this
    {
      Stream(reassembly, streamSequenceNumber)
    }

    /** Answers false where the source throws "duplicate chunk in reassembly". */
    method AddChunkInPlace(chunk: Chunk) returns (ok: bool)
      modifies this`reassembly
      ensures ok <==> AddChunk(old(reassembly), chunk).Added?
      ensures ok ==> Added(reassembly) == AddChunk(old(reassembly), chunk)
      ensures !ok ==> reassembly == old(reassembly)
    {
      if reassembly == [] || Gt32(chunk.tsn, reassembly[|reassembly| - 1].tsn) {
        reassembly := reassembly + [chunk];
        return true;
      }
      var i := 0;
      while i < |reassembly|
        invariant i <= |reassembly| && reassembly == old(reassembly)
        invariant AddChunk(reassembly, chunk) == InsertFrom(reassembly, chunk, i)
      {
        if reassembly[i].tsn == chunk.tsn {
          return false;
        }
        if Gt32(reassembly[i].tsn, chunk.tsn) {
          reassembly := reassembly[..i] + [chunk] + reassembly[i..];
          return true;
        }
        i := i + 1;
      }
      return true;
    }

    /** Runs the generator to its end, collecting what it yields. */
    method PopMessages() returns (messages: seq<Message>)
      modifies this
      ensures Popped(State(), messages) == Pop(old(State()), FRESH)
    {
      hide Pop, LeadsTo, Concat, Gt16, Add16, PlusOne;
      messages := [];
      ghost var goal := Pop(State(), FRESH);
      PopBegins(State());
      var pos: nat := 0;
      var startPos: Option<nat> := None;
      var expectedTsn: nat := 0;
      var ordered := false;
      while pos < |reassembly|
        invariant CursorOk(State(), Cursor(pos, startPos, expectedTsn, ordered))
        invariant LeadsTo(goal, messages, State(), Cursor(pos, startPos, expectedTsn, ordered))
        decreases |reassembly| - pos
      {
        TurnLeads(goal, messages, State(), Cursor(pos, startPos, expectedTsn, ordered));
        var chunk := reassembly[pos];
        if startPos == None {
          ordered := !chunk.unordered;
          if !chunk.first {
            if ordered {
              break;
            }
            pos := pos + 1;
            continue;
          }
          if ordered && Gt16(chunk.ssn, streamSequenceNumber) {
            break;
          }
          expectedTsn := chunk.tsn;
          startPos := Some(pos);
        } else if chunk.tsn != expectedTsn {
          if ordered {
            break;
          }
          startPos := None;
          pos := pos + 1;
          continue;
        }
        if chunk.last {
          var userData := Concat(reassembly[startPos.value..pos + 1]);
          reassembly := reassembly[..startPos.value] + reassembly[pos + 1..];
          if ordered && chunk.ssn == streamSequenceNumber {
            streamSequenceNumber := Add16(streamSequenceNumber, 1);
          }
          pos := startPos.value;
          messages := messages + [Message(chunk.streamId, chunk.ppid, userData)];
        } else {
          pos := pos + 1;
        }
        expectedTsn := PlusOne(expectedTsn);
      }
      if pos == |reassembly| {
        PopEnds(goal, messages, State(), Cursor(pos, startPos, expectedTsn, ordered));
      }
    }

    /** Insertion followed by delivery, as the DATA handler runs them. */
    method TakeIn(chunk: Chunk) returns (messages: seq<Message>, ok: bool)
      modifies this
      ensures match AddChunk(old(reassembly), chunk)
              case DuplicateChunk => !ok && messages == [] && State() == old(State())
              case Added(list) =>
                ok && Popped(State(), messages) == Pop(old(State()).(reassembly := list), FRESH)
    {
      hide AddChunk, Pop;
      messages := [];
      ok := AddChunkInPlace(chunk);
      if ok {
        messages := PopMessages();
      }
    }

    /** What a FORWARD-TSN does to the stream: jump to a sequence number and deliver. */
    method SkipTo(ssn: nat) returns (messages: seq<Message>)
      modifies this
      ensures Popped(State(), messages) == Pop(old(State()).(ssn := ssn), FRESH)
    {
      hide Pop;
      streamSequenceNumber := ssn;
      messages := PopMessages();
    }

    method PruneChunks(tsn: nat) returns (size: nat)
      modifies this`reassembly
      ensures State() == Prune(old(State()), tsn)
      ensures size == PrunedBytes(old(State()), tsn)
    {
      var pos := -1;
      size := 0;
      var i := 0;
      while i < |reassembly|
        invariant 0 <= i <= |reassembly| && pos == i - 1 && reassembly == old(reassembly)
        invariant PruneCount(reassembly, tsn) == i + PruneCount(reassembly[i..], tsn)
        invariant size == Bytes(reassembly[..i])
      {
        var chunk := reassembly[i];
        if !Gte32(tsn, chunk.tsn) {
          break;
        }
        BytesAppend(reassembly[..i], chunk);
        assert reassembly[..i + 1] == reassembly[..i] + [chunk];
        assert reassembly[i..][1..] == reassembly[i + 1..];
        pos := i;
        size := size + |chunk.data|;
        i := i + 1;
      }
      reassembly := reassembly[pos + 1..];
    }
  }

  // Byte counts

  lemma {:induction false} BytesAppend(list: seq<Chunk>, chunk: Chunk)
    ensures Bytes(list + [chunk]) == Bytes(list) + |chunk.data|
  {
    if list == [] {
      assert list + [chunk] == [chunk];
    } else {
      assert (list + [chunk])[1..] == list[1..] + [chunk];
      BytesAppend(list[1..], chunk);
    }
  }

  lemma {:induction false} BytesConcat(a: seq<Chunk>, b: seq<Chunk>)
    ensures Bytes(a + b) == Bytes(a) + Bytes(b)
  {
    if a == [] {
      assert a + b == b;
    } else {
      assert (a + b)[1..] == a[1..] + b;
      BytesConcat(a[1..], b);
    }
  }

  lemma {:induction false} ConcatLength(list: seq<Chunk>)
    ensures |Concat(list)| == Bytes(list)
  {
    if list != [] {
      ConcatLength(list[1..]);
    }
  }

  lemma BytesSplice(list: seq<Chunk>, i: nat, j: nat)
    requires i <= j <= |list|
    ensures Bytes(list) == Bytes(list[..i] + list[j..]) + Bytes(list[i..j])
  {
    hide Bytes;
    var a, b, c := list[..i], list[i..j], list[j..];
    BytesConcat(a, b + c);
    BytesConcat(b, c);
    BytesConcat(a, c);
    assert list == a + (b + c);
  }

  /** Delivery conserves bytes: what leaves the buffer is what is handed over, for any chunks. */
  lemma {:induction false} PopConservesBytes(s: Stream, k: Cursor)
    requires CursorOk(s, k)
    ensures Bytes(s.reassembly) == Bytes(Pop(s, k).stream.reassembly) + MessageBytes(Pop(s, k).messages)
    decreases |s.reassembly| - k.pos
  {
    hide PopTurn, Bytes;
    if k.pos < |s.reassembly| {
      match PopTurn(s, k)
      case Stop =>
      case Skip(k') => PopConservesBytes(s, k');
      case Yield(s', m, k') =>
        PopConservesBytes(s', k');
        YieldConservesBytes(s, k);
        assert ([m] + Pop(s', k').messages)[1..] == Pop(s', k').messages;
    }
  }

  lemma YieldConservesBytes(s: Stream, k: Cursor)
    requires CursorOk(s, k) && k.pos < |s.reassembly| && PopTurn(s, k).Yield?
    ensures Bytes(s.reassembly) == Bytes(PopTurn(s, k).stream.reassembly) + |PopTurn(s, k).message.data|
  {
    hide Bytes, Concat, Gt16, Add16, PlusOne;
    var start := if k.start.None? then k.pos else k.start.value;
    BytesSplice(s.reassembly, start, k.pos + 1);
    ConcatLength(s.reassembly[start..k.pos + 1]);
  }

  lemma PruneConservesBytes(s: Stream, tsn: nat)
    ensures Bytes(s.reassembly) == Bytes(Prune(s, tsn).reassembly) + PrunedBytes(s, tsn)
  {
    var n := PruneCount(s.reassembly, tsn);
    assert s.reassembly == s.reassembly[..n] + s.reassembly[n..];
    BytesConcat(s.reassembly[..n], s.reassembly[n..]);
  }

  // Virtual TSNs of a reassembly list

  ghost predicate Increasing(us: seq<nat>) {
    forall i, j :: 0 <= i < j < |us| ==> us[i] < us[j]
  }

  /** `us` are the virtual TSNs of the list, which is strictly TSN-sorted. */
  ghost predicate SortedAs(list: seq<Chunk>, us: seq<nat>) {
    && |list| == |us|
    && Increasing(us)
    && forall i :: 0 <= i < |us| ==> list[i].tsn == us[i] % MOD32
  }

  ghost predicate Near(us: seq<nat>, u: nat) {
    forall i :: 0 <= i < |us| ==> -HALF32 < us[i] - u < HALF32
  }

  /** Comparing wire TSNs of a list with a nearby TSN compares the virtual ones. */
  lemma NearOrder(list: seq<Chunk>, us: seq<nat>, u: nat, k: nat)
    requires SortedAs(list, us) && Near(us, u) && k < |us|
    ensures Gt32(list[k].tsn, u % MOD32) <==> us[k] > u
    ensures Gt32(u % MOD32, list[k].tsn) <==> us[k] < u
    ensures list[k].tsn == u % MOD32 <==> us[k] == u
  {
    Gt32IsVirtualOrder(us[k], u);
    Gt32IsVirtualOrder(u, us[k]);
  }

  lemma {:induction false} InsertFromFinds(list: seq<Chunk>, us: seq<nat>, chunk: Chunk, u: nat, k: nat)
    returns (i: nat)
    requires SortedAs(list, us) && Near(us, u) && u !in us && chunk.tsn == u % MOD32
    requires k <= |us| && forall j :: 0 <= j < k ==> us[j] < u
    ensures k <= i <= |us|
    ensures forall j :: 0 <= j < i ==> us[j] < u
    ensures i < |us| ==> us[i] > u && InsertFrom(list, chunk, k) == Added(list[..i] + [chunk] + list[i..])
    decreases |us| - k
  {
    i := k;
    if k < |us| {
      NearOrder(list, us, u, k);
      if us[k] < u {
        i := InsertFromFinds(list, us, chunk, u, k + 1);
      }
    }
  }

  lemma SpliceIsSorted(list: seq<Chunk>, us: seq<nat>, chunk: Chunk, u: nat, i: nat)
    requires SortedAs(list, us) && chunk.tsn == u % MOD32 && i <= |us|
    requires forall j :: 0 <= j < i ==> us[j] < u
    requires i < |us| ==> u < us[i]
    ensures SortedAs(list[..i] + [chunk] + list[i..], us[..i] + [u] + us[i..])
  {
    var us' := us[..i] + [u] + us[i..];
    forall a, b | 0 <= a < b < |us'| ensures us'[a] < us'[b] {
      assert b > i ==> us'[b] == us[b - 1] && us[i] <= us[b - 1];
    }
  }

  /** A TSN not in the list is inserted at its place: nothing is dropped and nothing is thrown. */
  lemma AddChunkInserts(list: seq<Chunk>, us: seq<nat>, chunk: Chunk, u: nat) returns (i: nat)
    requires SortedAs(list, us) && Near(us, u) && u !in us && chunk.tsn == u % MOD32
    ensures i <= |list| && AddChunk(list, chunk) == Added(list[..i] + [chunk] + list[i..])
    ensures SortedAs(list[..i] + [chunk] + list[i..], us[..i] + [u] + us[i..])
  {
    i := InsertFromFinds(list, us, chunk, u, 0);
    SpliceIsSorted(list, us, chunk, u, i);
    if us != [] {
      NearOrder(list, us, u, |us| - 1);
    }
    if i == |us| {
      assert list[..i] + [chunk] + list[i..] == list + [chunk];
    }
  }

  /** A second copy of a TSN in the list is the case that throws. */
  lemma {:induction false} InsertFromThrows(list: seq<Chunk>, us: seq<nat>, chunk: Chunk, k: nat, j: nat)
    requires SortedAs(list, us) && k <= j < |us| && Near(us, us[j]) && chunk.tsn == us[j] % MOD32
    ensures InsertFrom(list, chunk, k) == DuplicateChunk
    decreases j - k
  {
    NearOrder(list, us, us[j], k);
    if k < j {
      InsertFromThrows(list, us, chunk, k + 1, j);
    }
  }

  lemma AddChunkThrowsOnDuplicate(list: seq<Chunk>, us: seq<nat>, chunk: Chunk, u: nat)
    requires SortedAs(list, us) && Near(us, u) && u in us && chunk.tsn == u % MOD32
    ensures AddChunk(list, chunk) == DuplicateChunk
  {
    var j :| 0 <= j < |us| && us[j] == u;
    NearOrder(list, us, u, |us| - 1);
    InsertFromThrows(list, us, chunk, 0, j);
  }

  /** On a sorted list `pruneChunks` removes exactly the chunks at or below the TSN. */
  lemma {:induction false} PruneIsExact(list: seq<Chunk>, us: seq<nat>, v: nat)
    requires SortedAs(list, us) && Near(us, v)
    ensures forall i :: 0 <= i < |us| ==> (i < PruneCount(list, v % MOD32) <==> us[i] <= v)
  {
    if list != [] {
      Gt32IsVirtualOrder(v, us[0]);
      if us[0] <= v {
        PruneIsExact(list[1..], us[1..], v);
        forall i | 0 <= i < |us| ensures i < PruneCount(list, v % MOD32) <==> us[i] <= v {
          if i > 0 {
            assert us[i] == us[1..][i - 1];
          }
        }
      }
    }
  }

}
