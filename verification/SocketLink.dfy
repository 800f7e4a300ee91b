/** The sender of the byte stream: one TCP connection, a loop around partial writes, and what of it the receiver
    gets to decode. */
module SocketLink {
  import opened Words
  import opened CommsProtocol
  import opened UplinkReceiver
  import opened Seqs

  datatype LinkError = NoError | NotReady | ConfigError | ConnectError | PayloadTooLarge | SendError

  /** What connecting runs into. */
  datatype Attempt = BadAddress | NoSocket | Refused | Answered

  class SocketLink {
    const maxFragment: uint8
    var socketOpen: bool
    var connected: bool
    var wire: seq<uint8>  // what the kernel has taken for the current connection

    constructor (maxFragment: uint8)
      ensures this.maxFragment == maxFragment && !connected && !socketOpen && wire == []
    {
      this.maxFragment := maxFragment;
      socketOpen, connected, wire := false, false, [];
    }

    ghost predicate Valid()
      reads this
    {
      connected ==> socketOpen
    }

    ghost function Status(): (c: Connection)
      reads this
    {
      Connection(connected, wire)
    }

    method CloseSocket()
      modifies `socketOpen
      ensures !socketOpen
    {
      if socketOpen {
        socketOpen := false;
      }
    }

    method Connect(attempt: Attempt) returns (result: LinkError)
      requires Valid()
      modifies this
      ensures Valid()
      ensures result == NoError <==> connected
      ensures old(connected) ==> Status() == old(Status())
      ensures !old(connected) ==> (connected <==> attempt == Answered)
      ensures !old(connected) && connected ==> wire == []
      ensures !connected ==> !socketOpen && wire == old(wire)
      ensures !connected ==>
                result == match attempt
                          case BadAddress => ConfigError
                          case NoSocket => NotReady
                          case _ => ConnectError
    {
      if connected {
        return NoError;
      }
      CloseSocket();
      if attempt == BadAddress {
        return ConfigError;
      }
      if attempt == NoSocket {
        return NotReady;
      }
      socketOpen := true;
      if attempt == Refused {
        CloseSocket();
        return ConnectError;
      }
      connected := true;
      wire := [];
      return NoError;
    }

    method GetMaxPayloadSize() returns (size: uint8)
      ensures size == if connected then maxFragment else 0
    {
      if !connected {
        return 0;
      }
      return maxFragment;
    }

    /** Writes the whole payload or gives the connection up. The kernel may take any part of what it is offered,
        and answers each write with a count or an error. */
    method Send(data: seq<uint8>, answers: nat -> int) returns (result: LinkError)
      requires Valid()
      modifies this
      ensures Valid()
      ensures SendStep(old(Status()), maxFragment, data, result, Status())
      ensures result == ConnectError <==> !old(connected)
      ensures result == PayloadTooLarge <==> old(connected) && |data| > maxFragment
      ensures result == NoError || result == SendError <==> old(connected) && |data| <= maxFragment
      ensures old(connected) && |data| <= maxFragment ==>
                (result == NoError <==> exists n :: WritesAll(answers, n, |data|))
      ensures result == SendError ==>
                && !socketOpen
                && exists n :: BreaksOff(answers, n, |data|) && wire == old(wire) + data[..Written(answers, n)]
    {
      if !connected {
        return ConnectError;
      }
      var limit := GetMaxPayloadSize();
      if |data| > limit {
        return PayloadTooLarge;
      }
      ghost var before := wire;
      var sent, k := 0, 0;
      while sent < |data|
        invariant sent <= |data| && connected && socketOpen
        invariant Progresses(answers, k) && sent == Min(Written(answers, k), |data|)
        invariant sent < |data| || WritesAll(answers, k, |data|)
        invariant wire == before + data[..sent]
      {
        var taken := Min(answers(k), |data| - sent);
        k := k + 1;
        if taken <= 0 {
          assert BreaksOff(answers, k - 1, |data|);
          BreakingIsFinal(answers, k - 1, |data|);
          CloseSocket();
          connected := false;
          return SendError;
        }
        Assoc(before, data[..sent], data[sent..sent + taken]);
        JoinSlices(data, 0, sent, sent + taken);
        wire := wire + data[sent..sent + taken];
        sent := sent + taken;
      }
      assert data[..sent] == data;
      return NoError;
    }
  }

  /** The first `n` writes each took something, and how much they took together. */
  predicate Progresses(answers: nat -> int, n: nat) {
    forall k :: 0 <= k < n ==> answers(k) > 0
  }

  function Written(answers: nat -> int, n: nat): nat {
    if n == 0 then 0 else Written(answers, n - 1) + if answers(n - 1) > 0 then answers(n - 1) else 0
  }

  predicate WritesAll(answers: nat -> int, n: nat, length: nat) {
    Progresses(answers, n) && Written(answers, n) >= length
  }

  /** The kernel refuses a write before everything is out. */
  predicate BreaksOff(answers: nat -> int, n: nat, length: nat) {
    Progresses(answers, n) && answers(n) <= 0 && Written(answers, n) < length
  }

  lemma BreakingIsFinal(answers: nat -> int, n: nat, length: nat)
    requires BreaksOff(answers, n, length)
    ensures !exists m :: WritesAll(answers, m, length)
  {
    forall m: nat | WritesAll(answers, m, length) ensures false {
      if m <= n {
        WrittenGrows(answers, m, n);
      }
    }
  }

  lemma {:induction false} WrittenGrows(answers: nat -> int, m: nat, n: nat)
    requires m <= n
    ensures Written(answers, m) <= Written(answers, n)
  {
    if m < n {
      WrittenGrows(answers, m, n - 1);
    }
  }

  /** A connection as the receiver sees it: whether it is still up, and the bytes so far. */
  datatype Connection = Connection(up: bool, bytes: seq<uint8>)

  /** One send. Success puts the whole payload on the wire; failure midway puts a proper part of its front there
      and brings the connection down; any other failure changes nothing. */
  ghost predicate SendStep(before: Connection, maxFragment: uint8, data: seq<uint8>, result: LinkError,
                           after: Connection) {
    match result
    case NoError => before.up && |data| <= maxFragment && after == Connection(true, before.bytes + data)
    case SendError =>
      && before.up && !after.up && |data| <= maxFragment
      && exists k :: 0 <= k < |data| && after.bytes == before.bytes + data[..k]
    case ConnectError => !before.up && after == before
    case PayloadTooLarge => before.up && |data| > maxFragment && after == before
    case _ => false
  }

  datatype Attempted = Attempted(data: seq<uint8>, result: LinkError)

  /** A sequence of sends on one connection. */
  ghost predicate Sends(sends: seq<Attempted>, maxFragment: uint8, states: seq<Connection>) {
    && |states| == |sends| + 1
    && states[0] == Connection(true, [])
    && forall i :: 0 <= i < |sends| ==> SendStep(states[i], maxFragment, sends[i].data, sends[i].result, states[i + 1])
  }

  /** A whole fragment: as long as its own header says, with a plausible record count. */
  predicate IsFragmentData(data: seq<uint8>, recordSize: nat) {
    && |data| >= HEADER_SIZE
    && data[COUNT_AT] <= MAX_PLAUSIBLE_RECORDS
    && |data| == FragmentSize(data[COUNT_AT], recordSize)
  }

  /** The payloads whose send succeeded, in order. */
  function Succeeded(sends: seq<Attempted>): seq<seq<uint8>> {
    if sends == [] then []
    else
      var n := |sends| - 1;
      Succeeded(sends[..n]) + if sends[n].result == NoError then [sends[n].data] else []
  }

  /** A part of the front of a fragment, too short to be taken for one. */
  ghost predicate Stub(bytes: seq<uint8>, recordSize: nat) {
    bytes == [] || exists data :: IsFragmentData(data, recordSize) && bytes < data
  }

  lemma EmptyStub(recordSize: nat)
    ensures Stub([], recordSize)
  {
  }

  lemma StubNeverDecodes(bytes: seq<uint8>, recordSize: nat)
    requires Stub(bytes, recordSize)
    ensures Decode(bytes, recordSize) == Decoded([], false, bytes)
  {
    TakingInPlainTerms(bytes, recordSize);
  }

  /** The bytes of a connection are the delivered payloads and, once it is down, a stub of the one that failed. */
  lemma {:induction false} WireHolds(sends: seq<Attempted>, maxFragment: uint8, states: seq<Connection>,
                                     recordSize: nat) returns (stub: seq<uint8>)
    requires Sends(sends, maxFragment, states)
    requires forall a :: a in sends ==> IsFragmentData(a.data, recordSize)
    ensures states[|sends|].bytes == Concat(Succeeded(sends)) + stub
    ensures Stub(stub, recordSize) && (states[|sends|].up ==> stub == [])
    decreases |sends|
  {
    hide SendStep, Stub, IsFragmentData;
    if sends == [] {
      stub := [];
      EmptyStub(recordSize);
    } else {
      var n := |sends| - 1;
      var a := sends[n];
      assert a in sends && IsFragmentData(a.data, recordSize);
      assert SendStep(states[n], maxFragment, a.data, a.result, states[n + 1]);
      assert states[..n + 1][n] == states[n];
      var before := WireHolds(sends[..n], maxFragment, states[..n + 1], recordSize);
      stub := OneMoreSend(Succeeded(sends[..n]), before, states[n], a, maxFragment, states[n + 1], recordSize);
    }
  }

  lemma OneMoreSend(d: seq<seq<uint8>>, before: seq<uint8>, s: Connection, a: Attempted, maxFragment: uint8,
                    t: Connection, recordSize: nat)
    returns (stub: seq<uint8>)
    requires SendStep(s, maxFragment, a.data, a.result, t) && IsFragmentData(a.data, recordSize)
    requires s.bytes == Concat(d) + before && Stub(before, recordSize) && (s.up ==> before == [])
    ensures var now := d + if a.result == NoError then [a.data] else [];
            t.bytes == Concat(now) + stub
    ensures Stub(stub, recordSize) && (t.up ==> stub == [])
  {
    assert d + [] == d && Concat(d) + [] == Concat(d);
    stub := before;
    if a.result == NoError {
      var now := d + [a.data];
      assert now[..|now| - 1] == d && now[|now| - 1] == a.data;
      assert Concat(now) + [] == Concat(now);
    } else if a.result == SendError {
      var k :| 0 <= k < |a.data| && t.bytes == s.bytes + a.data[..k];
      stub := a.data[..k];
      assert stub < a.data;
    }
  }

  /** The fragments are what these payloads parse to. */
  predicate ParsedFrom(fs: seq<Fragment>, parts: seq<seq<uint8>>, recordSize: nat) {
    |fs| == |parts| && forall i :: 0 <= i < |parts| ==> ParsedAs(fs[i], parts[i], recordSize)
  }

  predicate ParsedAs(f: Fragment, part: seq<uint8>, recordSize: nat) {
    f.raw == part && ParseFragment(part, recordSize) == Ok(f)
  }

  lemma ParsedOneMore(fs: seq<Fragment>, f: Fragment, parts: seq<seq<uint8>>, recordSize: nat)
    requires parts != [] && ParsedFrom(fs, parts[..|parts| - 1], recordSize)
    requires ParsedAs(f, parts[|parts| - 1], recordSize)
    ensures ParsedFrom(fs + [f], parts, recordSize)
  {
    hide ParsedAs;
  }

  lemma {:induction false} DecodeWhole(parts: seq<seq<uint8>>, stub: seq<uint8>, recordSize: nat)
    requires forall p :: p in parts ==> IsFragmentData(p, recordSize)
    requires Stub(stub, recordSize)
    ensures var d := Decode(Concat(parts) + stub, recordSize);
            !d.lost && d.rest == stub && ParsedFrom(d.fragments, parts, recordSize)
    decreases |parts|
  {
    hide TakeFragment, ParsedAs, IsFragmentData, Stub;
    if parts == [] {
      assert [] + stub == stub;
      StubNeverDecodes(stub, recordSize);
    } else {
      hide ParsedFrom;
      var n := |parts| - 1;
      var front, last := parts[..n], parts[n];
      EmptyStub(recordSize);
      DecodeWhole(front, [], recordSize);
      DecodeLast(last, stub, recordSize);
      var before := Decode(Concat(front), recordSize);
      var now := Decode(last + stub, recordSize);
      assert Concat(front) + [] == Concat(front);
      Assoc(Concat(front), last, stub);
      DecodeInParts(Concat(front), last + stub, recordSize);
      assert [] + (last + stub) == last + stub;
      assert now.fragments == [now.fragments[0]];
      ParsedOneMore(before.fragments, now.fragments[0], parts, recordSize);
    }
  }

  lemma DecodeLast(data: seq<uint8>, stub: seq<uint8>, recordSize: nat)
    requires IsFragmentData(data, recordSize) && Stub(stub, recordSize)
    ensures var d := Decode(data + stub, recordSize);
            !d.lost && d.rest == stub && |d.fragments| == 1 && ParsedAs(d.fragments[0], data, recordSize)
  {
    hide ParseFragment;
    var all := data + stub;
    TakingInPlainTerms(all, recordSize);
    assert all[..|data|] == data && all[|data|..] == stub;
    StubNeverDecodes(stub, recordSize);
  }

  /** As much has been read as the parts up to the `i`-th are long. */
  predicate Covers(read: seq<uint8>, parts: seq<seq<uint8>>, i: nat)
    requires i < |parts|
  {
    |Concat(parts[..i + 1])| <= |read|
  }

  /** Where a read that has got only so far cuts a stream of fragments: behind some of them, within a stub. */
  lemma {:induction false} CutAt(parts: seq<seq<uint8>>, stub: seq<uint8>, read: seq<uint8>, recordSize: nat)
    returns (n: nat, rest: seq<uint8>)
    requires forall p :: p in parts ==> IsFragmentData(p, recordSize)
    requires Stub(stub, recordSize) && read <= Concat(parts) + stub
    ensures n <= |parts| && read == Concat(parts[..n]) + rest && Stub(rest, recordSize)
    ensures n < |parts| ==> |read| < |Concat(parts[..n + 1])|
    decreases |parts|
  {
    hide IsFragmentData;
    assert parts[..|parts|] == parts;
    if |read| >= |Concat(parts)| {
      n := |parts|;
      rest := CutBehind(Concat(parts), stub, read);
      FrontOfStub(rest, stub, recordSize);
    } else {
      var m := |parts| - 1;
      var front, last := parts[..m], parts[m];
      assert last in parts && Concat(parts) == Concat(front) + last;
      hide Concat, Stub;
      if |read| >= |Concat(front)| {
        CutWithin(Concat(front), last, stub, read);
        n := m;
        rest := CutBehind(Concat(front), last, read);
        FrontOfFragment(rest, last, recordSize);
      } else {
        EmptyStub(recordSize);
        CutWithin(Concat(front), last, stub, read);
        n, rest := CutAt(front, [], read, recordSize);
        assert front[..n] == parts[..n] && (n < m ==> front[..n + 1] == parts[..n + 1]);
      }
    }
  }

  lemma CutBehind(a: seq<uint8>, b: seq<uint8>, read: seq<uint8>) returns (rest: seq<uint8>)
    requires read <= a + b && |read| >= |a|
    ensures read == a + rest && rest <= b && |rest| == |read| - |a|
  {
    rest := read[|a|..];
  }

  lemma CutWithin(a: seq<uint8>, b: seq<uint8>, c: seq<uint8>, read: seq<uint8>)
    requires read <= (a + b) + c && |read| <= |a| + |b|
    ensures read <= a + b && (|read| <= |a| ==> read <= a && read <= a + [])
  {
    assert read <= a + b;
    if |read| <= |a| {
      assert read == (a + b)[..|read|] == a[..|read|];
      assert a + [] == a;
    }
  }

  lemma FrontOfStub(rest: seq<uint8>, stub: seq<uint8>, recordSize: nat)
    requires rest <= stub && Stub(stub, recordSize)
    ensures Stub(rest, recordSize)
  {
  }

  lemma FrontOfFragment(rest: seq<uint8>, data: seq<uint8>, recordSize: nat)
    requires rest < data && IsFragmentData(data, recordSize)
    ensures Stub(rest, recordSize)
  {
  }

  /** What is covered is everything before the cut. */
  lemma CoversBeforeCut(parts: seq<seq<uint8>>, read: seq<uint8>, n: nat)
    requires n <= |parts| && |Concat(parts[..n])| <= |read|
    requires n < |parts| ==> |read| < |Concat(parts[..n + 1])|
    ensures forall i :: 0 <= i < |parts| ==> (i < n <==> Covers(read, parts, i))
  {
    hide Concat;
    forall i | 0 <= i < |parts| ensures i < n <==> Covers(read, parts, i) {
      if i < n {
        ConcatGrows(parts, i + 1, n);
      } else {
        ConcatGrows(parts, n + 1, i + 1);
      }
    }
  }

  /** Decoding a front of a stream of fragments gives the fragments it covers. */
  lemma DecodeFront(parts: seq<seq<uint8>>, stub: seq<uint8>, read: seq<uint8>, recordSize: nat)
    requires forall p :: p in parts ==> IsFragmentData(p, recordSize)
    requires Stub(stub, recordSize) && read <= Concat(parts) + stub
    ensures var d := Decode(read, recordSize); var n := |d.fragments|;
            && !d.lost && n <= |parts| && ParsedFrom(d.fragments, parts[..n], recordSize)
            && (forall i :: 0 <= i < |parts| ==> (i < n <==> Covers(read, parts, i)))
  {
    hide IsFragmentData, Stub, ParsedAs, Decode, Concat, Covers;
    var n, rest := CutAt(parts, stub, read, recordSize);
    DecodeWhole(parts[..n], rest, recordSize);
    CoversBeforeCut(parts, read, n);
  }

  /** For every sequence of sends of fragments on one connection, however the kernel cut the writes and the
      receiver cut the reads, and however far it has got: the receiver has decoded, in order and without losing
      sync, exactly those fragments whose send succeeded that are covered by the bytes it has read. A send that
      failed midway does not decode. */
  lemma StreamDeliversAcceptedSends(sends: seq<Attempted>, maxFragment: uint8, states: seq<Connection>,
                                    chunks: seq<seq<uint8>>, recordSize: nat)
    requires Sends(sends, maxFragment, states)
    requires forall a :: a in sends ==> IsFragmentData(a.data, recordSize)
    requires Received(chunks) <= states[|sends|].bytes
    ensures var (fragments, lost) := Serve(chunks, [], recordSize);
            var sent := Succeeded(sends);
            && !lost
            && |fragments| <= |sent|
            && ParsedFrom(fragments, sent[..|fragments|], recordSize)
            && (forall i :: 0 <= i < |sent| ==> (i < |fragments| <==> Covers(Received(chunks), sent, i)))
  {
    hide SendStep, IsFragmentData, Stub, ParsedFrom, Covers, Concat, Decode;
    var stub := WireHolds(sends, maxFragment, states, recordSize);
    SucceededAreSent(sends);
    DecodeFront(Succeeded(sends), stub, Received(chunks), recordSize);
    NothingToDecode(recordSize);
    ServeIsDecode(chunks, [], recordSize);
    assert [] + Received(chunks) == Received(chunks);
  }

  lemma {:induction false} SucceededAreSent(sends: seq<Attempted>)
    ensures forall p :: p in Succeeded(sends) ==> exists a :: a in sends && a.data == p
  {
    if sends != [] {
      SucceededAreSent(sends[..|sends| - 1]);
      forall p | p in Succeeded(sends) ensures exists a :: a in sends && a.data == p {
        if p in Succeeded(sends[..|sends| - 1]) {
          var a :| a in sends[..|sends| - 1] && a.data == p;
          assert a in sends;
        } else {
          assert sends[|sends| - 1] in sends;
        }
      }
    }
  }

  /** The two ends must agree on the record size. Told that a record is a byte shorter than it is, a receiver
      leaves one byte of every record behind, so it stays aligned if and only if the fragment carries none. */
  lemma ShortRecordsLeaveBytes(data: seq<uint8>, recordSize: nat)
    requires recordSize > 0 && IsFragmentData(data, recordSize)
    ensures var t := TakeFragment(data, recordSize - 1);
            t.Took? && |t.rest| == data[COUNT_AT] && (t.rest == [] <==> data[COUNT_AT] == 0)
  {
    TakingInPlainTerms(data, recordSize - 1);
    var n := data[COUNT_AT];
    assert n * recordSize == n * (recordSize - 1) + n;
  }
}
