/** Finding an endpoint's frame among the AD structures of an advertising payload (Bluetooth Core Specification,
    Volume 3, Part C, section 11): each is a length byte, a type byte and a value. */
module AdParser {
  import opened Words
  import opened Records
  import opened CommsProtocol
  import opened Seqs
  import opened Wrappers

  const MAX_ADV_DATA_SIZE: nat := 31
  const AD_TYPE_MANUFACTURER_SPECIFIC: uint8 := 0xFF
  const FRAME_SIZE: nat := 19

  datatype RawReport = RawReport(address: Address, addressType: uint8, rssi: int8, dataLength: uint8, data: seq<uint8>)

  /** A report as the radio driver hands it over: a whole buffer, of which only the first bytes are valid. */
  type AdvReport = r: RawReport | |r.data| == MAX_ADV_DATA_SIZE && r.dataLength <= MAX_ADV_DATA_SIZE
    witness RawReport([0, 0, 0, 0, 0, 0], 0, 0, 0, seq(MAX_ADV_DATA_SIZE, i => 0))

  /** The company id and the reading inside a manufacturer specific element's value. */
  function FrameOf(value: seq<uint8>, company: uint16): Option<Reading> {
    if |value| != FRAME_SIZE then None
    else if Word16(value[0], value[1]) != company then None
    else Some(DecodeReading(value[2..]))
  }

  function EncodeFrame(company: uint16, r: Reading): (b: seq<uint8>)
    ensures |b| == FRAME_SIZE
  {
    [Lo(company), Hi(company)] + EncodeReading(r)
  }

  // ---- The list of elements ----

  datatype Element = Element(adType: uint8, value: seq<uint8>)

  /** The complete elements before the end, a zero length or an element that claims more than remains. */
  function Elements(v: seq<uint8>): seq<Element>
    decreases |v|
  {
    if |v| < 2 || v[0] == 0 || 1 + v[0] > |v| then []
    else [Element(v[1], v[2..1 + v[0]])] + Elements(v[1 + v[0]..])
  }

  /** What the first manufacturer specific element holds; the others do not matter. */
  function FirstFrame(es: seq<Element>, company: uint16): Option<Reading> {
    if es == [] then None
    else if es[0].adType == AD_TYPE_MANUFACTURER_SPECIFIC then FrameOf(es[0].value, company)
    else FirstFrame(es[1..], company)
  }

  function Parse(report: AdvReport, company: uint16): Option<Reading> {
    FirstFrame(Elements(report.data[..report.dataLength]), company)
  }

  /** The walk over the payload. Only bytes below the valid length are read. */
  method ParseCustomFrame(report: AdvReport, company: uint16) returns (frame: Option<Reading>)
    ensures frame == Parse(report, company)
  {
    hide FrameOf, FirstFrame, Elements;
    ghost var v := report.data[..report.dataLength];
    var offset := 0;
    assert v[0..] == v;
    while offset + 1 < report.dataLength
      invariant offset <= report.dataLength
      invariant Parse(report, company) == FirstFrame(Elements(v[offset..]), company)
    {
      NoFrame(company);
      var elementLength := report.data[offset];
      NoElement(v[offset..]);
      if elementLength == 0 {
        return None;
      }
      if offset + 1 + elementLength > report.dataLength {
        return None;
      }
      ElementAt(report.data, report.dataLength, offset);
      FirstOf(Elements(v[offset..]), company);
      if report.data[offset + 1] == AD_TYPE_MANUFACTURER_SPECIFIC {
        var valueLength := elementLength - 1;
        if valueLength != FRAME_SIZE {
          OtherSizesDoNotParse(report.data[offset + 2..offset + 1 + elementLength], company);
          return None;
        }
        return FrameOf(report.data[offset + 2..offset + 2 + FRAME_SIZE], company);
      }
      offset := offset + 1 + elementLength;
    }
    NoElement(v[offset..]);
    NoFrame(company);
    return None;
  }

  lemma NoElement(v: seq<uint8>)
    ensures |v| < 2 || v[0] == 0 || 1 + v[0] > |v| ==> Elements(v) == []
  {
  }

  lemma NoFrame(company: uint16)
    ensures FirstFrame([], company) == None
  {
  }

  lemma ElementAt(data: seq<uint8>, length: nat, offset: nat)
    requires offset + 1 < length <= |data| && data[offset] != 0 && offset + 1 + data[offset] <= length
    ensures var next := offset + 1 + data[offset];
            Elements(data[..length][offset..]) ==
            [Element(data[offset + 1], data[offset + 2..next])] + Elements(data[..length][next..])
  {
    hide Elements;
    var v, n: int := data[..length], data[offset];
    var rest := v[offset..];
    assert rest[0] == n && rest[1] == data[offset + 1];
    FirstElement(rest);
    SliceOfDrop(v, offset, 2, 1 + n);
    SliceOfTake(data, length, offset + 2, offset + 1 + n);
    DropOfDrop(v, offset, 1 + n);
  }

  lemma FirstElement(v: seq<uint8>)
    requires |v| >= 2 && v[0] != 0 && 1 + v[0] <= |v|
    ensures Elements(v) == [Element(v[1], v[2..1 + v[0]])] + Elements(v[1 + v[0]..])
  {
  }

  lemma FirstOf(es: seq<Element>, company: uint16)
    ensures es != [] ==>
              FirstFrame(es, company) ==
              if es[0].adType == AD_TYPE_MANUFACTURER_SPECIFIC then FrameOf(es[0].value, company)
              else FirstFrame(es[1..], company)
  {
  }

  lemma OtherSizesDoNotParse(value: seq<uint8>, company: uint16)
    requires |value| != FRAME_SIZE
    ensures FrameOf(value, company) == None
  {
  }

  // ---- Encoding ----

  /** An element that fits its length byte. */
  predicate Encodable(e: Element) {
    |e.value| + 1 <= UINT8_MAX
  }

  function EncodeElement(e: Element): (b: seq<uint8>)
    requires Encodable(e)
    ensures |b| == |e.value| + 2
  {
    [|e.value| + 1, e.adType] + e.value
  }

  function Encode(es: seq<Element>): seq<uint8>
    requires forall e :: e in es ==> Encodable(e)
  {
    if es == [] then []
    else
      assert es[0] in es;
      EncodeElement(es[0]) + Encode(es[1..])
  }

  /** Walking over an encoded list of elements gives the list back and goes on with whatever follows. */
  lemma {:induction false} ElementsOfEncoding(es: seq<Element>, tail: seq<uint8>)
    requires forall e :: e in es ==> Encodable(e)
    ensures Elements(Encode(es) + tail) == es + Elements(tail)
    decreases |es|
  {
    hide Elements;
    if es == [] {
      assert [] + tail == tail;
    } else {
      assert es[0] in es;
      var rest := es[1..];
      ElementsOfEncoding(rest, tail);
      Assoc(EncodeElement(es[0]), Encode(rest), tail);
      OneElement(es[0], Encode(rest) + tail);
      Assoc([es[0]], rest, Elements(tail));
      assert es == [es[0]] + rest;
    }
  }

  /** The walk ends at a zero length and at an element that claims more than remains, so what is behind either of them
      is never found. */
  lemma NothingBehindTheEnd(report: AdvReport, others: seq<Element>, tail: seq<uint8>, company: uint16)
    requires forall e :: e in others ==> Encodable(e) && e.adType != 0xFF
    requires report.data[..report.dataLength] == Encode(others) + tail
    requires tail == [] || tail[0] == 0 || tail[0] >= |tail|
    ensures Parse(report, company) == None
  {
    ElementsOfEncoding(others, tail);
    NoElement(tail);
    assert others + [] == others;
    NoFrameAmong(others, company);
  }

  lemma {:induction false} NoFrameAmong(es: seq<Element>, company: uint16)
    requires forall e :: e in es ==> e.adType != AD_TYPE_MANUFACTURER_SPECIFIC
    ensures FirstFrame(es, company) == None
    decreases |es|
  {
    if es != [] {
      NoFrameAmong(es[1..], company);
    }
  }

  /** The frame's bytes: the company id, low byte first, and the endpoint's seventeen. */
  lemma FrameLayout(company: uint16, r: Reading)
    ensures var b := EncodeFrame(company, r); |b| == 19 && IsWord(b[0], b[1], company) && b[2..] == EncodeReading(r)
  {
    hide EncodeReading;
  }

  lemma OneElement(e: Element, rest: seq<uint8>)
    requires Encodable(e)
    ensures Elements(EncodeElement(e) + rest) == [e] + Elements(rest)
  {
    var b := EncodeElement(e) + rest;
    assert b[0] == |e.value| + 1 && b[1] == e.adType;
    assert b[2..1 + b[0]] == e.value && b[1 + b[0]..] == rest;
  }

  lemma {:induction false} FirstFrameAfterOthers(others: seq<Element>, last: Element, more: seq<Element>,
                                                 company: uint16)
    requires forall e :: e in others ==> e.adType != AD_TYPE_MANUFACTURER_SPECIFIC
    requires last.adType == AD_TYPE_MANUFACTURER_SPECIFIC
    ensures FirstFrame(others + [last] + more, company) == FrameOf(last.value, company)
    decreases |others|
  {
    var all := others + [last] + more;
    if others == [] {
      assert all[0] == last;
    } else {
      assert all[0] == others[0] && all[1..] == others[1..] + [last] + more;
      FirstFrameAfterOthers(others[1..], last, more, company);
    }
  }

  /** Parsing succeeds exactly when there is a manufacturer specific element, and the first one holds nineteen
      bytes that begin with the expected company id; the reading is then the rest of them. */
  lemma {:induction false} ParsesExactly(es: seq<Element>, company: uint16)
    ensures FirstFrame(es, company).Some? <==>
            exists i :: 0 <= i < |es| && IsFirstFrame(es, i, company)
    ensures forall i :: 0 <= i < |es| && IsFirstFrame(es, i, company) ==>
              FirstFrame(es, company) == Some(DecodeReading(es[i].value[2..]))
    decreases |es|
  {
    if es != [] && es[0].adType != AD_TYPE_MANUFACTURER_SPECIFIC {
      var rest := es[1..];
      ParsesExactly(rest, company);
      forall i | 0 <= i < |es| ensures IsFirstFrame(es, i, company) <==> i > 0 && IsFirstFrame(rest, i - 1, company) {
        FirstOfRest(es, i, company);
      }
      if FirstFrame(rest, company).Some? {
        var j :| 0 <= j < |rest| && IsFirstFrame(rest, j, company);
        assert IsFirstFrame(es, j + 1, company);
      }
    } else if es != [] {
      assert forall i :: 0 < i < |es| ==> !IsFirstFrame(es, i, company);
      assert IsFirstFrame(es, 0, company) <==> FrameOf(es[0].value, company).Some?;
    }
  }

  ghost predicate IsFirstFrame(es: seq<Element>, i: nat, company: uint16)
    requires i < |es|
  {
    && (forall j :: 0 <= j < i ==> es[j].adType != 0xFF)
    && es[i].adType == 0xFF
    && |es[i].value| == 19
    && IsWord(es[i].value[0], es[i].value[1], company)
  }

  lemma FirstOfRest(es: seq<Element>, i: nat, company: uint16)
    requires i < |es| && es[0].adType != AD_TYPE_MANUFACTURER_SPECIFIC
    ensures IsFirstFrame(es, i, company) <==> i > 0 && IsFirstFrame(es[1..], i - 1, company)
  {
    if i > 0 && IsFirstFrame(es[1..], i - 1, company) {
      forall j | 0 <= j < i ensures es[j].adType != AD_TYPE_MANUFACTURER_SPECIFIC {
        if j > 0 {
          assert es[1..][j - 1] == es[j];
        }
      }
    }
  }

  /** An endpoint's frame is recovered from behind any other elements, and from in front of anything: padding, more
      elements, or bytes that are no element at all. */
  lemma FrameIsRecovered(report: AdvReport, others: seq<Element>, tail: seq<uint8>, company: uint16, r: Reading)
    requires forall e :: e in others ==> Encodable(e) && e.adType != AD_TYPE_MANUFACTURER_SPECIFIC
    requires var frame := Element(AD_TYPE_MANUFACTURER_SPECIFIC, EncodeFrame(company, r));
             report.data[..report.dataLength] == Encode(others + [frame]) + tail
    ensures Parse(report, company) == Some(r)
  {
    var frame := Element(AD_TYPE_MANUFACTURER_SPECIFIC, EncodeFrame(company, r));
    ElementsOfEncoding(others + [frame], tail);
    FirstFrameAfterOthers(others, frame, Elements(tail), company);
    FrameRoundTrip(company, r);
  }

  lemma FrameRoundTrip(company: uint16, r: Reading)
    ensures FrameOf(EncodeFrame(company, r), company) == Some(r)
  {
    hide EncodeReading, DecodeReading;
    ReadingRoundTrip(r);
    assert EncodeFrame(company, r)[2..] == EncodeReading(r);
  }
}
