/** The uplink wire format: a 12-byte header followed by 26-byte records. */
module CommsProtocol {
  import opened Words
  import opened Records
  import opened Seqs

  const HEADER_SIZE: nat := 12
  const RECORD_SIZE: nat := 26
  const FLAG_BOOT: uint8 := 1
  const FLAG_HEARTBEAT: uint8 := 2

  datatype UplinkHeader = UplinkHeader(
    concentratorId: uint32,
    sequence: uint16,
    fragmentIndex: uint8,
    fragmentCount: uint8,
    recordCount: uint8,
    droppedAdvReports: uint8,
    evictedDevices: uint8,
    flags: uint8)

  datatype EndpointRecord = EndpointRecord(
    address: Address,
    rssi: int8,
    secondsSinceSeen: uint16,
    reading: Reading)

  function EncodeHeader(h: UplinkHeader): (b: seq<uint8>)
    ensures |b| == HEADER_SIZE
  {
    Bytes32(h.concentratorId) +
    [Lo(h.sequence), Hi(h.sequence), h.fragmentIndex, h.fragmentCount, h.recordCount, h.droppedAdvReports,
        h.evictedDevices, h.flags]
  }

  function DecodeHeader(b: seq<uint8>): UplinkHeader
    requires |b| >= HEADER_SIZE
  {
    UplinkHeader(Word32(b[0], b[1], b[2], b[3]), Word16(b[4], b[5]), b[6], b[7], b[8], b[9], b[10], b[11])
  }

  function EncodeReading(r: Reading): (b: seq<uint8>)
    ensures |b| == 17
  {
    var (x, y, z) := (Raw16(r.accX), Raw16(r.accY), Raw16(r.accZ));
    [Raw8(r.temperature), r.humidity, Lo(r.pressure), Hi(r.pressure), Lo(x), Hi(x), Lo(y), Hi(y), Lo(z), Hi(z),
     Lo(r.batteryMv), Hi(r.batteryMv)] + Bytes32(r.endpointTimestamp) + [r.statusFlags]
  }

  function DecodeReading(b: seq<uint8>): Reading
    requires |b| >= 17
  {
    Reading(
      Signed8(b[0]), b[1], Word16(b[2], b[3]), Signed16(Word16(b[4], b[5])), Signed16(Word16(b[6], b[7])),
      Signed16(Word16(b[8], b[9])), Word16(b[10], b[11]), Word32(b[12], b[13], b[14], b[15]), b[16])
  }

  function EncodeRecord(r: EndpointRecord): (b: seq<uint8>)
    ensures |b| == RECORD_SIZE
  {
    r.address + [Raw8(r.rssi), Lo(r.secondsSinceSeen), Hi(r.secondsSinceSeen)] + EncodeReading(r.reading)
  }

  function DecodeRecord(b: seq<uint8>): EndpointRecord
    requires |b| >= RECORD_SIZE
  {
    EndpointRecord(b[..6], Signed8(b[6]), Word16(b[7], b[8]), DecodeReading(b[9..]))
  }

  /** The record-sized pieces of a run of bytes. */
  function Split(b: seq<uint8>, count: nat): (parts: seq<seq<uint8>>)
    requires |b| == RECORD_SIZE * count
    ensures |parts| == count
    ensures forall p :: p in parts ==> |p| == RECORD_SIZE
  {
    if count == 0 then []
    else
      var at := RECORD_SIZE * (count - 1);
      Split(b[..at], count - 1) + [b[at..]]
  }

  function EncodeRecords(rs: seq<EndpointRecord>): seq<uint8> {
    Concat(seq(|rs|, i requires 0 <= i < |rs| => EncodeRecord(rs[i])))
  }

  function DecodeRecords(b: seq<uint8>, count: nat): (rs: seq<EndpointRecord>)
    requires |b| == RECORD_SIZE * count
    ensures |rs| == count
  {
    var parts := Split(b, count);
    seq(count, i requires 0 <= i < count => DecodeRecord(parts[i]))
  }

  function EncodeFragment(h: UplinkHeader, rs: seq<EndpointRecord>): seq<uint8> {
    EncodeHeader(h) + EncodeRecords(rs)
  }

  /** Bytes, low one first, as the number they stand for; a signed one is its unsigned bits. */
  predicate IsWord(lo: int, hi: int, v: int) {
    v == lo + 0x100 * hi
  }

  predicate IsLong(b0: int, b1: int, b2: int, b3: int, v: int) {
    v == b0 + 0x100 * b1 + 0x1_0000 * b2 + 0x100_0000 * b3
  }

  function Bits8(v: int8): int {
    if v < 0 then 0x100 + v as int else v
  }

  function Bits16(v: int16): int {
    if v < 0 then 0x1_0000 + v as int else v
  }

  /** Every field of a header at its offset. */
  lemma HeaderLayout(h: UplinkHeader)
    ensures var b := EncodeHeader(h);
            && |b| == 12
            && IsLong(b[0], b[1], b[2], b[3], h.concentratorId)
            && IsWord(b[4], b[5], h.sequence)
            && b[6] == h.fragmentIndex && b[7] == h.fragmentCount && b[8] == h.recordCount
            && b[9] == h.droppedAdvReports && b[10] == h.evictedDevices && b[11] == h.flags
  {
    Word32OfBytes(h.concentratorId);
  }

  /** Every field of the endpoint's seventeen bytes at its offset. The advertisement and the record share them. */
  lemma ReadingLayout(r: Reading)
    ensures var b := EncodeReading(r);
            && |b| == 17
            && b[0] == Bits8(r.temperature) && b[1] == r.humidity
            && IsWord(b[2], b[3], r.pressure)
            && IsWord(b[4], b[5], Bits16(r.accX))
            && IsWord(b[6], b[7], Bits16(r.accY))
            && IsWord(b[8], b[9], Bits16(r.accZ))
            && IsWord(b[10], b[11], r.batteryMv)
            && IsLong(b[12], b[13], b[14], b[15], r.endpointTimestamp)
            && b[16] == r.statusFlags
  {
    Word32OfBytes(r.endpointTimestamp);
    var b := EncodeReading(r);
    var t := Bytes32(r.endpointTimestamp);
    assert b[12] == t[0] && b[13] == t[1] && b[14] == t[2] && b[15] == t[3];
  }

  /** And every field of a record. */
  lemma RecordLayout(r: EndpointRecord)
    ensures var b := EncodeRecord(r);
            && |b| == 26
            && b[..6] == r.address
            && b[6] == Bits8(r.rssi)
            && IsWord(b[7], b[8], r.secondsSinceSeen)
            && b[9..] == EncodeReading(r.reading)
  {
    hide EncodeReading;
  }

  lemma HeaderRoundTrip(h: UplinkHeader, rest: seq<uint8>)
    ensures DecodeHeader(EncodeHeader(h) + rest) == h
  {
    Word32OfBytes(h.concentratorId);
  }

  /** Every 12-byte string is the encoding of the header it decodes to. */
  lemma HeaderBytesRoundTrip(b: seq<uint8>)
    requires |b| == HEADER_SIZE
    ensures EncodeHeader(DecodeHeader(b)) == b
  {
    BytesOfWord32(b[0], b[1], b[2], b[3]);
  }

  lemma ReadingRoundTrip(r: Reading)
    ensures DecodeReading(EncodeReading(r)) == r
  {
    Word32OfBytes(r.endpointTimestamp);
    var b := EncodeReading(r);
    assert b[12..16] == Bytes32(r.endpointTimestamp);
    assert b[12] == b[12..16][0] && b[13] == b[12..16][1] && b[14] == b[12..16][2] && b[15] == b[12..16][3];
  }

  lemma RecordRoundTrip(r: EndpointRecord)
    ensures DecodeRecord(EncodeRecord(r)) == r
  {
    hide EncodeReading, DecodeReading;
    ReadingRoundTrip(r.reading);
    var b := EncodeRecord(r);
    assert b[..6] == r.address;
    assert b[9..] == EncodeReading(r.reading);
  }

  lemma ReadingBytesRoundTrip(b: seq<uint8>)
    requires |b| == 17
    ensures EncodeReading(DecodeReading(b)) == b
  {
    BytesOfWord16(b[2], b[3]);
    BytesOfWord16(b[4], b[5]);
    BytesOfWord16(b[6], b[7]);
    BytesOfWord16(b[8], b[9]);
    BytesOfWord16(b[10], b[11]);
    BytesOfWord32(b[12], b[13], b[14], b[15]);
    assert Raw8(Signed8(b[0])) == b[0];
    hide Lo, Hi, Word16, Word32, Bytes32, Raw8, Raw16, Signed8, Signed16;
    assert EncodeReading(DecodeReading(b))
        == [b[0], b[1], b[2], b[3], b[4], b[5], b[6], b[7], b[8], b[9], b[10], b[11]]
           + [b[12], b[13], b[14], b[15]] + [b[16]];
  }

  /** Every 26-byte string is the encoding of the record it decodes to, so no field is lost or shared. */
  lemma RecordBytesRoundTrip(b: seq<uint8>)
    requires |b| == RECORD_SIZE
    ensures EncodeRecord(DecodeRecord(b)) == b
  {
    hide EncodeReading, DecodeReading;
    ReadingBytesRoundTrip(b[9..]);
    assert b == b[..6] + [b[6], b[7], b[8]] + b[9..];
  }

  lemma {:induction false} SplitOfConcat(parts: seq<seq<uint8>>)
    requires forall p :: p in parts ==> |p| == RECORD_SIZE
    ensures |Concat(parts)| == RECORD_SIZE * |parts|
    ensures Split(Concat(parts), |parts|) == parts
  {
    if parts == [] {
    } else {
      var n := |parts| - 1;
      SplitOfConcat(parts[..n]);
      assert Concat(parts)[..RECORD_SIZE * n] == Concat(parts[..n]);
      assert Concat(parts)[RECORD_SIZE * n..] == parts[n];
      assert parts == parts[..n] + [parts[n]];
    }
  }

  lemma RecordsRoundTrip(rs: seq<EndpointRecord>)
    ensures |EncodeRecords(rs)| == RECORD_SIZE * |rs|
    ensures DecodeRecords(EncodeRecords(rs), |rs|) == rs
  {
    hide EncodeRecord, DecodeRecord;
    var parts := seq(|rs|, i requires 0 <= i < |rs| => EncodeRecord(rs[i]));
    SplitOfConcat(parts);
    forall i | 0 <= i < |rs| ensures DecodeRecord(parts[i]) == rs[i] {
      RecordRoundTrip(rs[i]);
    }
  }

  /** A fragment is 12 bytes plus 26 per record, and decodes to the header and records it was built from. */
  lemma FragmentRoundTrip(h: UplinkHeader, rs: seq<EndpointRecord>)
    ensures var b := EncodeFragment(h, rs);
            && |b| == HEADER_SIZE + RECORD_SIZE * |rs| == 12 + 26 * |rs|
            && DecodeHeader(b) == h
            && DecodeRecords(b[HEADER_SIZE..], |rs|) == rs
  {
    hide EncodeHeader, DecodeHeader, EncodeRecords, DecodeRecords;
    HeaderRoundTrip(h, EncodeRecords(rs));
    RecordsRoundTrip(rs);
    assert EncodeFragment(h, rs)[HEADER_SIZE..] == EncodeRecords(rs);
  }
}
