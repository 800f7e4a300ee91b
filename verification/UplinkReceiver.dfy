/** The receiver of the byte stream. The stream has no framing of its own: a fragment's length is known only from
    the record count inside it. */
module UplinkReceiver {
  import opened Words
  import opened CommsProtocol
  import opened Seqs

  const MAX_PLAUSIBLE_RECORDS: nat := 200
  const COUNT_AT: nat := 8  // where the header keeps its record count

  datatype Error = TooShort | LostSync | WrongLength
  datatype Result<T> = Ok(value: T) | Err(error: Error)

  datatype Fragment = Fragment(header: UplinkHeader, records: seq<seq<uint8>>, raw: seq<uint8>)

  /** What comes of looking for a fragment at the front of the buffer. */
  datatype Taking = NeedMore | Lost | Took(fragment: Fragment, rest: seq<uint8>)

  function ParseHeader(data: seq<uint8>): Result<UplinkHeader> {
    if |data| < HEADER_SIZE then Err(TooShort)
    else
      var header := DecodeHeader(data);
      if header.recordCount > MAX_PLAUSIBLE_RECORDS then Err(LostSync) else Ok(header)
  }

  function FragmentSize(count: nat, recordSize: nat): nat {
    HEADER_SIZE + count * recordSize
  }

  lemma SizesGrow(i: nat, count: nat, recordSize: nat)
    requires i <= count
    ensures FragmentSize(i, recordSize) <= FragmentSize(count, recordSize)
    ensures FragmentSize(i + 1, recordSize) == FragmentSize(i, recordSize) + recordSize
  {
    assert i * recordSize <= count * recordSize;
  }

  /** The first `count` records of a fragment, still as bytes. */
  function RecordsOf(data: seq<uint8>, recordSize: nat, count: nat): (rs: seq<seq<uint8>>)
    requires FragmentSize(count, recordSize) <= |data|
    ensures |rs| == count
  {
    if count == 0 then []
    else
      SizesGrow(count - 1, count, recordSize);
      RecordsOf(data, recordSize, count - 1) +
      [data[FragmentSize(count - 1, recordSize)..FragmentSize(count, recordSize)]]
  }

  function ParseFragment(data: seq<uint8>, recordSize: nat): Result<Fragment> {
    match ParseHeader(data)
    case Err(e) => Err(e)
    case Ok(header) =>
      if |data| != FragmentSize(header.recordCount, recordSize) then Err(WrongLength)
      else Ok(Fragment(header, RecordsOf(data, recordSize, header.recordCount), data))
  }

  /** Each error exactly when it is due: too few bytes for a header, an implausible record count, a length other than
      the one the header declares. */
  lemma ParsesExactly(data: seq<uint8>, recordSize: nat)
    ensures var p := ParseFragment(data, recordSize);
            && (p == Err(TooShort) <==> |data| < 12)
            && (p == Err(LostSync) <==> |data| >= 12 && data[8] > 200)
            && (p == Err(WrongLength) <==> |data| >= 12 && data[8] <= 200 && |data| != 12 + data[8] * recordSize)
            && (p.Ok? ==> p.value.raw == data && |p.value.records| == data[8])
  {
    assert |data| >= 12 ==> FragmentSize(data[8], recordSize) == 12 + data[8] * recordSize;
  }

  /** Record `i` is where the count so far puts it. */
  lemma {:induction false} RecordIs(data: seq<uint8>, recordSize: nat, count: nat, i: nat)
    requires i < count && FragmentSize(count, recordSize) <= |data|
    ensures 12 + i * recordSize <= 12 + (i + 1) * recordSize <= |data|
    ensures RecordsOf(data, recordSize, count)[i] == data[12 + i * recordSize..12 + (i + 1) * recordSize]
  {
    SizesGrow(i, count, recordSize);
    SizesGrow(i + 1, count, recordSize);
    SizesGrow(count - 1, count, recordSize);
    if i < count - 1 {
      RecordIs(data, recordSize, count - 1, i);
    }
  }

  /** The same with the loop that collects the records. */
  method CollectFragment(data: seq<uint8>, recordSize: nat) returns (r: Result<Fragment>)
    ensures r == ParseFragment(data, recordSize)
  {
    var parsed := ParseHeader(data);
    if parsed.Err? {
      return Err(parsed.error);
    }
    var header := parsed.value;
    if |data| != FragmentSize(header.recordCount, recordSize) {
      return Err(WrongLength);
    }
    var records: seq<seq<uint8>> := [];
    SizesGrow(0, header.recordCount, recordSize);
    for i := 0 to header.recordCount
      invariant FragmentSize(i, recordSize) <= |data| && records == RecordsOf(data, recordSize, i)
    {
      SizesGrow(i + 1, header.recordCount, recordSize);
      SizesGrow(i, header.recordCount, recordSize);
      var start := HEADER_SIZE + i * recordSize;
      records := records + [data[start..start + recordSize]];
    }
    r := Ok(Fragment(header, records, data));
  }

  function TakeFragment(buffer: seq<uint8>, recordSize: nat): (t: Taking)
    ensures t.Took? ==> t.fragment.raw + t.rest == buffer && |t.rest| < |buffer|
  {
    if |buffer| < HEADER_SIZE then NeedMore
    else
      match ParseHeader(buffer)
      case Err(_) => Lost
      case Ok(header) =>
        var total := FragmentSize(header.recordCount, recordSize);
        if |buffer| < total then NeedMore
        else
          match ParseFragment(buffer[..total], recordSize)
          case Ok(f) => Took(f, buffer[total..])
          case Err(_) => Lost
  }

  /** Extraction in plain terms. Only an implausible record count can make it give up: parsing the bytes it cuts
      off never fails. */
  lemma TakingInPlainTerms(buffer: seq<uint8>, recordSize: nat)
    ensures var t := TakeFragment(buffer, recordSize);
            if |buffer| < 12 then t == NeedMore
            else if buffer[8] > 200 then t == Lost
            else
              var total := 12 + buffer[8] * recordSize;
              if |buffer| < total then t == NeedMore
              else t.Took? && t.fragment.raw == buffer[..total] && t.rest == buffer[total..]
                   && ParseFragment(t.fragment.raw, recordSize) == Ok(t.fragment)
  {
    if |buffer| >= HEADER_SIZE && buffer[COUNT_AT] <= MAX_PLAUSIBLE_RECORDS {
      var total := FragmentSize(buffer[COUNT_AT], recordSize);
      if |buffer| >= total {
        assert buffer[..total][COUNT_AT] == buffer[COUNT_AT];
      }
    }
  }

  // ---- Decoding a whole stream ----

  datatype Decoded = Decoded(fragments: seq<Fragment>, lost: bool, rest: seq<uint8>)

  function Decode(bytes: seq<uint8>, recordSize: nat): Decoded
    decreases |bytes|
  {
    match TakeFragment(bytes, recordSize)
    case NeedMore => Decoded([], false, bytes)
    case Lost => Decoded([], true, bytes)
    case Took(f, rest) =>
      var d := Decode(rest, recordSize);
      d.(fragments := [f] + d.fragments)
  }

  /** One more extraction when more bytes have arrived behind the same ones. */
  lemma TakeWithMore(a: seq<uint8>, b: seq<uint8>, recordSize: nat)
    ensures match TakeFragment(a, recordSize)
            case NeedMore => true
            case Lost => TakeFragment(a + b, recordSize) == Lost
            case Took(f, rest) => TakeFragment(a + b, recordSize) == Took(f, rest + b)
  {
    hide ParseFragment;
    TakingInPlainTerms(a, recordSize);
    TakingInPlainTerms(a + b, recordSize);
    if TakeFragment(a, recordSize).Took? {
      var total := FragmentSize(a[COUNT_AT], recordSize);
      assert (a + b)[COUNT_AT] == a[COUNT_AT];
      assert (a + b)[..total] == a[..total] && (a + b)[total..] == a[total..] + b;
    } else if TakeFragment(a, recordSize).Lost? {
      assert (a + b)[COUNT_AT] == a[COUNT_AT];
    }
  }

  /** Decoding what has arrived and then the rest is decoding all of it at once. */
  lemma {:induction false} DecodeInParts(a: seq<uint8>, b: seq<uint8>, recordSize: nat)
    ensures var d := Decode(a, recordSize);
            if d.lost then Decode(a + b, recordSize) == d.(rest := d.rest + b)
            else
              var e := Decode(d.rest + b, recordSize);
              Decode(a + b, recordSize) == e.(fragments := d.fragments + e.fragments)
    decreases |a|
  {
    hide TakeFragment;
    TakeWithMore(a, b, recordSize);
    match TakeFragment(a, recordSize)
    case NeedMore =>
    case Lost =>
    case Took(f, rest) =>
      TookShrinks(a, recordSize);
      DecodeInParts(rest, b, recordSize);
      var d := Decode(rest, recordSize);
      Assoc([f], d.fragments, Decode(d.rest + b, recordSize).fragments);
  }

  lemma TookIsFront(a: seq<uint8>, recordSize: nat)
    ensures var t := TakeFragment(a, recordSize); t.Took? ==> t.fragment.raw + t.rest == a
  {
  }

  lemma TookShrinks(a: seq<uint8>, recordSize: nat)
    ensures var t := TakeFragment(a, recordSize); t.Took? ==> |t.rest| < |a|
  {
  }

  /** Decoding accounts for every byte, stops for want of bytes or at a lost sync, and the latter happens exactly
      when the next complete header declares an implausible number of records. */
  lemma {:induction false} DecodeAccounts(bytes: seq<uint8>, recordSize: nat)
    ensures var d := Decode(bytes, recordSize);
            && bytes == Raw(d.fragments) + d.rest
            && TakeFragment(d.rest, recordSize) == (if d.lost then Lost else NeedMore)
            && (d.lost <==> |d.rest| >= 12 && d.rest[8] > 200)
            && (forall f :: f in d.fragments ==> ParseFragment(f.raw, recordSize) == Ok(f))
    decreases |bytes|
  {
    hide ParseFragment, TakeFragment;
    var t := TakeFragment(bytes, recordSize);
    TakingInPlainTerms(bytes, recordSize);
    if t.Took? {
      TookShrinks(bytes, recordSize);
      TookIsFront(bytes, recordSize);
      DecodeAccounts(t.rest, recordSize);
      var d := Decode(t.rest, recordSize);
      RawFirst(t.fragment, d.fragments);
      hide Raw;
      Assoc(t.fragment.raw, Raw(d.fragments), d.rest);
    }
  }

  function Raw(fs: seq<Fragment>): seq<uint8> {
    if fs == [] then [] else fs[0].raw + Raw(fs[1..])
  }

  lemma RawFirst(f: Fragment, fs: seq<Fragment>)
    ensures Raw([f] + fs) == f.raw + Raw(fs)
  {
    assert ([f] + fs)[1..] == fs;
  }

  lemma NothingToDecode(recordSize: nat)
    ensures Decode([], recordSize) == Decoded([], false, [])
  {
  }

  // ---- The server's loop ----

  /** Everything received until the peer closes, which shows as an empty read. */
  function Received(chunks: seq<seq<uint8>>): seq<uint8> {
    if chunks == [] || chunks[0] == [] then [] else chunks[0] + Received(chunks[1..])
  }

  /** Serves one connection: grows the buffer by each chunk and takes fragments off its front. */
  method ServeOne(chunks: seq<seq<uint8>>, recordSize: nat) returns (fragments: seq<Fragment>, lost: bool)
    ensures var d := Decode(Received(chunks), recordSize); fragments == d.fragments && lost == d.lost
  {
    hide TakeFragment;
    var buffer: seq<uint8> := [];
    fragments := [];
    lost := false;
    var i := 0;
    NothingToDecode(recordSize);
    assert [] + Received(chunks[0..]) == Received(chunks);
    while i < |chunks|
      invariant i <= |chunks|
      invariant var d, e := Decode(Received(chunks), recordSize), Decode(buffer + Received(chunks[i..]), recordSize);
                d.fragments == fragments + e.fragments && d.lost == e.lost
      invariant Decode(buffer, recordSize) == Decoded([], false, buffer)
    {
      var chunk := chunks[i];
      if chunk == [] {
        assert buffer + Received(chunks[i..]) == buffer;
        return;
      }
      var later := chunks[i + 1..];
      assert chunks[i..][1..] == later && Received(chunks[i..]) == chunk + Received(later);
      Assoc(buffer, chunk, Received(later));
      buffer := buffer + chunk;
      while true
        invariant var d, e := Decode(Received(chunks), recordSize), Decode(buffer + Received(later), recordSize);
                  d.fragments == fragments + e.fragments && d.lost == e.lost
        decreases |buffer|
      {
        var taken := TakeFragment(buffer, recordSize);
        TakeWithMore(buffer, Received(later), recordSize);
        TookShrinks(buffer, recordSize);
        match taken {
          case Lost =>
            lost := true;
            return;
          case NeedMore =>
            break;
          case Took(fragment, rest) =>
            Assoc(fragments, [fragment], Decode(rest + Received(later), recordSize).fragments);
            fragments := fragments + [fragment];
            buffer := rest;
        }
      }
      i := i + 1;
    }
    assert chunks[i..] == [] && buffer + [] == buffer;
  }

  /** How the bytes were cut into reads makes no difference: one read of everything is as good as any. */
  lemma ChunkingDoesNotMatter(chunks: seq<seq<uint8>>, other: seq<seq<uint8>>, recordSize: nat)
    requires Received(chunks) == Received(other)
    ensures Serve(chunks, [], recordSize) == Serve(other, [], recordSize)
  {
    ServeIsDecode(chunks, [], recordSize);
    ServeIsDecode(other, [], recordSize);
    assert [] + Received(chunks) == [] + Received(other);
  }

  /** The server read by read: what is in the buffer, and what each further read adds to the fragments. */
  function Serve(chunks: seq<seq<uint8>>, buffer: seq<uint8>, recordSize: nat): (seq<Fragment>, bool) {
    if chunks == [] || chunks[0] == [] then ([], false)
    else
      var d := Decode(buffer + chunks[0], recordSize);
      if d.lost then (d.fragments, true)
      else
        var (more, lost) := Serve(chunks[1..], d.rest, recordSize);
        (d.fragments + more, lost)
  }

  lemma {:induction false} ServeIsDecode(chunks: seq<seq<uint8>>, buffer: seq<uint8>, recordSize: nat)
    requires Decode(buffer, recordSize) == Decoded([], false, buffer)
    ensures var d := Decode(buffer + Received(chunks), recordSize);
            Serve(chunks, buffer, recordSize) == (d.fragments, d.lost)
    decreases |chunks|
  {
    hide TakeFragment;
    if chunks == [] || chunks[0] == [] {
      assert buffer + [] == buffer;
    } else {
      var d := Decode(buffer + chunks[0], recordSize);
      Assoc(buffer, chunks[0], Received(chunks[1..]));
      DecodeInParts(buffer + chunks[0], Received(chunks[1..]), recordSize);
      if !d.lost {
        DecodeAccounts(buffer + chunks[0], recordSize);
        ServeIsDecode(chunks[1..], d.rest, recordSize);
      }
    }
  }
}
