/** The device table: an array of slots searched and written in place. One method is one locked section. */
module DeviceTable {
  import opened Words
  import opened Records
  import opened TableModel

  class DeviceTable {
    const entries: array<Entry>
    const staleAfter: uint32
    var evictedCount: uint16

    ghost predicate Valid()
      reads this
    {
      entries.Length > 0
    }

    ghost function Contents(): (t: Table)
      reads this, entries
    {
      Table(entries[..], evictedCount)
    }

    constructor (maxDevices: nat, staleAfter: uint32)
      requires maxDevices > 0
      ensures Valid() && fresh(entries) && entries.Length == maxDevices && this.staleAfter == staleAfter
      ensures Contents() == Table(seq(maxDevices, i => BLANK), 0)
    {
      entries := new Entry[maxDevices](i => BLANK);
      this.staleAfter := staleAfter;
      evictedCount := 0;
      new;
      assert entries[..] == seq(maxDevices, i => BLANK);
    }

    method FindEntry(a: Address) returns (i: nat)
      requires Valid()
      ensures i == FindIndex(entries[..], a)
    {
      i := 0;
      while i < entries.Length
        invariant i <= entries.Length
        invariant forall j :: 0 <= j < i ==> !Holds(entries[j], a)
      {
        if entries[i].inUse && entries[i].address == a {
          break;
        }
        i := i + 1;
      }
    }

    method ClaimSlot() returns (i: nat)
      requires Valid()
      modifies `evictedCount
      ensures i == if Full(entries[..]) then OldestIndex(entries[..]) else FreeIndex(entries[..])
      ensures evictedCount ==
              if Full(entries[..]) && old(evictedCount) < UINT16_MAX then old(evictedCount) + 1 else old(evictedCount)
    {
      i := 0;
      while i < entries.Length
        invariant i <= entries.Length
        invariant forall j :: 0 <= j < i ==> entries[j].inUse
      {
        if !entries[i].inUse {
          FreeIndexIs(entries[..], i);
          return;
        }
        i := i + 1;
      }
      assert Full(entries[..]);
      hide Full;
      var oldest := 0;
      var k := 0;
      while k < entries.Length
        invariant k <= entries.Length && oldest < entries.Length && (oldest < k || oldest == 0)
        invariant forall j :: 0 <= j < k ==> entries[oldest].lastSeen <= entries[j].lastSeen
        invariant forall j :: 0 <= j < oldest ==> entries[oldest].lastSeen < entries[j].lastSeen
      {
        if entries[k].lastSeen < entries[oldest].lastSeen {
          oldest := k;
        }
        k := k + 1;
      }
      OldestIndexIs(entries[..], oldest);
      if evictedCount < UINT16_MAX {
        evictedCount := evictedCount + 1;
      }
      i := oldest;
    }

    method Upsert(ad: Advert)
      requires Valid()
      modifies `evictedCount, entries
      ensures Valid()
      ensures Contents() == AfterAdvert(old(Contents()), ad)
    {
      ghost var es := entries[..];
      var i := FindEntry(ad.address);
      if i == entries.Length {
        i := ClaimSlot();
        entries[i] := BLANK.(address := ad.address, inUse := true);
      }
      entries[i] := entries[i].(updateSeq := Next16(entries[i].updateSeq));
      entries[i] := entries[i].(rssi := ad.rssi, reading := ad.reading, lastSeen := ad.time);
      assert entries[..] == Upserted(es, ad);
    }

    /** Copies the pending, recently heard entries out, stopping when `maxEntries` have been copied. */
    method TakeSnapshot(now: uint32, maxEntries: nat) returns (out: seq<Entry>)
      requires Valid()
      ensures out == Snapshot(entries[..], now, staleAfter, maxEntries)
    {
      out := [];
      if maxEntries == 0 {
        return;
      }
      ghost var all := entries[..];
      var i := 0;
      while i < entries.Length
        invariant i <= entries.Length
        invariant out == Fresh(all[..i], now, staleAfter)
        invariant |out| <= maxEntries
      {
        if |out| >= maxEntries {
          break;
        }
        FreshStep(all, i, now, staleAfter);
        if entries[i].inUse && Minus32(now, entries[i].lastSeen) <= staleAfter
           && entries[i].updateSeq != entries[i].reportedSeq {
          out := out + [entries[i]];
        }
        i := i + 1;
      }
      FreshPrefix(all, i, now, staleAfter);
      assert all[..|all|] == all;
    }

    method MarkReported(a: Address, updateSeq: uint16)
      requires Valid()
      modifies entries
      ensures Valid()
      ensures Contents() == old(Contents()).(entries := Marked(old(entries[..]), a, updateSeq))
    {
      var i := FindEntry(a);
      if i < entries.Length && entries[i].updateSeq == updateSeq {
        entries[i] := entries[i].(reportedSeq := updateSeq);
      }
    }

    /** The atomic upserts another thread performs, one after the other. */
    method Interfere(ads: seq<Advert>)
      requires Valid()
      modifies `evictedCount, entries
      ensures Valid()
      ensures Contents() == AfterAdverts(old(Contents()), ads)
    {
      ghost var t0 := Contents();
      var k := 0;
      while k < |ads|
        invariant k <= |ads|
        invariant AfterAdverts(t0, ads) == AfterAdverts(Contents(), ads[k..])
      {
        Upsert(ads[k]);
        assert ads[k..][1..] == ads[k + 1..];
        k := k + 1;
      }
    }
  }

  lemma FreeIndexIs(es: seq<Entry>, i: nat)
    requires i < |es| && !es[i].inUse && forall j :: 0 <= j < i ==> es[j].inUse
    ensures FreeIndex(es) == i && !Full(es)
  {
  }

  lemma OldestIndexIs(es: seq<Entry>, o: nat)
    requires o < |es|
    requires forall j :: 0 <= j < |es| ==> es[o].lastSeen <= es[j].lastSeen
    requires forall j :: 0 <= j < o ==> es[o].lastSeen < es[j].lastSeen
    ensures OldestIndex(es) == o
  {
  }

  lemma FreshStep(es: seq<Entry>, i: nat, now: uint32, stale: uint32)
    requires i < |es|
    ensures Fresh(es[..i + 1], now, stale) ==
            Fresh(es[..i], now, stale) + (if Reportable(es[i], now, stale) then [es[i]] else [])
  {
    assert es[..i + 1][..i] == es[..i];
    var front := FreshIndices(es[..i], now, stale);
    assert forall k :: 0 <= k < |front| ==> es[..i][front[k]] == es[..i + 1][front[k]];
  }

  lemma {:induction false} FreshPrefix(es: seq<Entry>, i: nat, now: uint32, stale: uint32)
    requires i <= |es|
    ensures Fresh(es[..i], now, stale) <= Fresh(es, now, stale)
    decreases |es| - i
  {
    if i == |es| {
      assert es[..i] == es;
    } else {
      FreshStep(es, i, now, stale);
      FreshPrefix(es, i + 1, now, stale);
    }
  }
}
