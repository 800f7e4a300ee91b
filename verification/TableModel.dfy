/** What each locked section of the device table computes, as functions on its slots. */
module TableModel {
  import opened Words
  import opened Records

  /** The slots, and the visible eviction counter. */
  datatype Table = Table(entries: seq<Entry>, evicted: uint16)

  /** The first slot that holds the address, or the number of slots when none does. */
  function FindIndex(es: seq<Entry>, a: Address): (i: nat)
    ensures i <= |es|
    ensures i < |es| ==> Holds(es[i], a)
    ensures forall j :: 0 <= j < i ==> !Holds(es[j], a)
  {
    if es == [] then 0
    else if Holds(es[0], a) then 0
    else 1 + FindIndex(es[1..], a)
  }

  predicate Known(es: seq<Entry>, a: Address) {
    FindIndex(es, a) < |es|
  }

  function FreeIndex(es: seq<Entry>): (i: nat)
    ensures i <= |es|
    ensures i < |es| ==> !es[i].inUse
    ensures forall j :: 0 <= j < i ==> es[j].inUse
  {
    if es == [] then 0
    else if !es[0].inUse then 0
    else 1 + FreeIndex(es[1..])
  }

  /** The first of the slots that were heard from longest ago. */
  function OldestIndex(es: seq<Entry>): (o: nat)
    requires |es| > 0
    ensures o < |es|
    ensures forall j :: 0 <= j < |es| ==> es[o].lastSeen <= es[j].lastSeen
    ensures forall j :: 0 <= j < o ==> es[o].lastSeen < es[j].lastSeen
  {
    var n := |es| - 1;
    if n == 0 then 0
    else
      var o := OldestIndex(es[..n]);
      assert forall j :: 0 <= j < n ==> es[..n][j] == es[j];
      if es[n].lastSeen < es[o].lastSeen then n else o
  }

  predicate Full(es: seq<Entry>) {
    FreeIndex(es) == |es|
  }

  /** The slot an advertisement from this address is written to. */
  function SlotFor(es: seq<Entry>, a: Address): (i: nat)
    requires |es| > 0
    ensures i < |es|
  {
    if Known(es, a) then FindIndex(es, a)
    else if Full(es) then OldestIndex(es)
    else FreeIndex(es)
  }

  predicate Evicts(es: seq<Entry>, a: Address) {
    !Known(es, a) && Full(es)
  }

  function Refreshed(e: Entry, ad: Advert): Entry {
    e.(updateSeq := Next16(e.updateSeq), rssi := ad.rssi, reading := ad.reading, lastSeen := ad.time)
  }

  function Upserted(es: seq<Entry>, ad: Advert): (r: seq<Entry>)
    requires |es| > 0
    ensures |r| == |es|
  {
    var i := SlotFor(es, ad.address);
    var base := if Known(es, ad.address) then es[i] else BLANK.(address := ad.address, inUse := true);
    es[i := Refreshed(base, ad)]
  }

  function AfterAdvert(t: Table, ad: Advert): (r: Table)
    requires |t.entries| > 0
    ensures |r.entries| == |t.entries|
  {
    Table(
      Upserted(t.entries, ad),
      if Evicts(t.entries, ad.address) && t.evicted < UINT16_MAX then t.evicted + 1 else t.evicted)
  }

  function AfterAdverts(t: Table, ads: seq<Advert>): (r: Table)
    requires |t.entries| > 0
    ensures |r.entries| == |t.entries|
    decreases ads
  {
    if ads == [] then t else AfterAdverts(AfterAdvert(t, ads[0]), ads[1..])
  }

  function Marked(es: seq<Entry>, a: Address, updateSeq: uint16): (r: seq<Entry>)
    ensures |r| == |es|
  {
    var i := FindIndex(es, a);
    if i < |es| && es[i].updateSeq == updateSeq then es[i := es[i].(reportedSeq := updateSeq)] else es
  }

  /** Whether a snapshot whose clock read `now` takes this slot. The age is an unsigned difference. */
  predicate Reportable(e: Entry, now: uint32, stale: uint32) {
    Pending(e) && Minus32(now, e.lastSeen) <= stale
  }

  /** The slots a snapshot takes, in slot order. */
  function FreshIndices(es: seq<Entry>, now: uint32, stale: uint32): (r: seq<nat>)
    ensures forall k :: 0 <= k < |r| ==> r[k] < |es|
  {
    if es == [] then []
    else
      var n := |es| - 1;
      var front := FreshIndices(es[..n], now, stale);
      if Reportable(es[n], now, stale) then front + [n] else front
  }

  function At(es: seq<Entry>, idx: seq<nat>): (r: seq<Entry>)
    requires forall k :: 0 <= k < |idx| ==> idx[k] < |es|
    ensures |r| == |idx|
  {
    seq(|idx|, k requires 0 <= k < |idx| => es[idx[k]])
  }

  function Fresh(es: seq<Entry>, now: uint32, stale: uint32): (r: seq<Entry>)
    ensures |r| == |FreshIndices(es, now, stale)|
  {
    At(es, FreshIndices(es, now, stale))
  }

  function Snapshot(es: seq<Entry>, now: uint32, stale: uint32, max: nat): (r: seq<Entry>)
    ensures |r| <= max
  {
    var all := Fresh(es, now, stale);
    if |all| <= max then all else all[..max]
  }

  predicate Increasing(idx: seq<nat>) {
    forall j, k :: 0 <= j < k < |idx| ==> idx[j] < idx[k]
  }

  predicate Unique(es: seq<Entry>) {
    forall i, j :: 0 <= i < j < |es| && es[i].inUse && es[j].inUse ==> es[i].address != es[j].address
  }

  /** The indices a snapshot takes are increasing and are exactly the reportable slots. */
  lemma {:induction false} FreshIndicesExact(es: seq<Entry>, now: uint32, stale: uint32)
    ensures var r := FreshIndices(es, now, stale);
            && Increasing(r)
            && (forall i :: 0 <= i < |es| ==> (i in r <==> Reportable(es[i], now, stale)))
            && |r| <= |es|
  {
    if es == [] {
    } else {
      var n := |es| - 1;
      FreshIndicesExact(es[..n], now, stale);
      var front := FreshIndices(es[..n], now, stale);
      var r := FreshIndices(es, now, stale);
      forall i | 0 <= i < |es| ensures i in r <==> Reportable(es[i], now, stale) {
        if i < n {
          assert es[..n][i] == es[i];
        } else {
          assert n !in front;
        }
      }
    }
  }

  /** A snapshot asked for at least as many entries as the table has slots drops none: it holds, in slot
      order, exactly the reportable ones. `svc::comms` always asks for the capacity. */
  lemma SnapshotExact(es: seq<Entry>, now: uint32, stale: uint32, max: nat)
    requires max >= |es|
    ensures var s := Snapshot(es, now, stale, max);
            && s == Fresh(es, now, stale)
            && (forall e :: e in s <==> exists i :: 0 <= i < |es| && es[i] == e && Reportable(es[i], now, stale))
            && (forall k :: 0 <= k < |s| ==> s[k] == es[FreshIndices(es, now, stale)[k]])
  {
    FreshIndicesExact(es, now, stale);
    var idx := FreshIndices(es, now, stale);
    var s := Snapshot(es, now, stale, max);
    forall e ensures e in s <==> exists i :: 0 <= i < |es| && es[i] == e && Reportable(es[i], now, stale) {
      if e in s {
        var k :| 0 <= k < |s| && s[k] == e;
        assert idx[k] in idx;
        assert es[idx[k]] == e;
      }
      if i :| 0 <= i < |es| && es[i] == e && Reportable(es[i], now, stale) {
        var k :| 0 <= k < |idx| && idx[k] == i;
        assert s[k] == e;
      }
    }
  }

  /** Asked for fewer, it holds the first of them. */
  lemma SnapshotIsFront(es: seq<Entry>, now: uint32, stale: uint32, max: nat)
    ensures var all := Snapshot(es, now, stale, |es|);
            Snapshot(es, now, stale, max) <= all && |Snapshot(es, now, stale, max)| == Min(max, |all|)
  {
    FreshIndicesExact(es, now, stale);
  }

  /** The unsigned age test, in plain terms. An entry refreshed after the clock was read is taken for a very
      old one and left for the next cycle, unless the refresh lies so far ahead that the age wraps all the way
      round to a small number again; short of that, it is a test of the true age. */
  lemma ReportableInPlainTerms(e: Entry, now: uint32, stale: uint32)
    requires e.lastSeen - now < 0x1_0000_0000 - stale
    ensures Reportable(e, now, stale) <==> Pending(e) && 0 <= now - e.lastSeen <= stale
  {
  }

  lemma FindIndexIs(es: seq<Entry>, a: Address, i: nat)
    requires i < |es| && Holds(es[i], a)
    requires Unique(es)
    ensures FindIndex(es, a) == i
  {
  }

  lemma UpsertedKeepsUnique(es: seq<Entry>, ad: Advert)
    requires |es| > 0 && Unique(es)
    ensures Unique(Upserted(es, ad))
  {
  }

  lemma MarkedKeepsUnique(es: seq<Entry>, a: Address, s: uint16)
    requires Unique(es)
    ensures Unique(Marked(es, a, s))
  {
  }

  /** Any slot written by an advertisement shows that advertisement, and no other slot changes. */
  lemma UpsertedShows(es: seq<Entry>, ad: Advert)
    requires |es| > 0
    ensures var i := SlotFor(es, ad.address);
            && Holds(Upserted(es, ad)[i], ad.address)
            && Shows(Upserted(es, ad)[i], ad)
            && (forall j :: 0 <= j < |es| && j != i ==> Upserted(es, ad)[j] == es[j])
            && (!Known(es, ad.address) && !Full(es) ==> !es[i].inUse)
  {
  }
}
