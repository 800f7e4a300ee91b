/** The scan-and-evict array is a cache of the most recently heard devices, however the acknowledgements of the
    comms thread fall between the advertisements. */
module Recency {
  import opened Words
  import opened Records
  import opened TableModel
  import opened Delivery

  /** Where an address was last heard, or -1. */
  function LastIndex(h: seq<Advert>, a: Address): (r: int)
    ensures -1 <= r < |h|
    ensures r >= 0 ==> h[r].address == a
    ensures forall k :: r < k < |h| ==> h[k].address != a
  {
    if h == [] then -1
    else if h[|h| - 1].address == a then |h| - 1
    else LastIndex(h[..|h| - 1], a)
  }

  ghost predicate Ordered(h: seq<Advert>) {
    forall j, k :: 0 <= j < k < |h| ==> h[j].time <= h[k].time
  }

  ghost predicate KeepsLatest(s: State)
    requires Books(s)
  {
    && (forall i :: 0 <= i < |s.tags| && s.table.entries[i].inUse ==>
          s.tags[i].stamp == LastIndex(s.history, s.table.entries[i].address))
    && (forall a: Address, i :: 0 <= i < |s.tags| && LastIndex(s.history, a) >= 0 && !Known(s.table.entries, a) ==>
          s.table.entries[i].inUse && s.history[LastIndex(s.history, a)].time <= s.table.entries[i].lastSeen)
  }

  lemma LastIndexStep(h: seq<Advert>, ad: Advert, a: Address)
    ensures LastIndex(h + [ad], a) == if ad.address == a then |h| else LastIndex(h, a)
  {
    assert (h + [ad])[..|h|] == h;
  }

  lemma KnownAfterAdvert(es: seq<Entry>, ad: Advert, a: Address)
    requires |es| > 0 && Unique(es)
    ensures Known(Upserted(es, ad), a) <==>
            a == ad.address ||
            (Known(es, a) && !(Evicts(es, ad.address) && Holds(es[OldestIndex(es)], a)))
  {
    var r := Upserted(es, ad);
    var x := SlotFor(es, ad.address);
    UpsertedShows(es, ad);
    var f := FindIndex(es, a);
    if a == ad.address {
      assert Holds(r[x], a);
    } else if f < |es| {
      assert f != x ==> r[f] == es[f];
    }
  }

  lemma HeardKeepsLatest(s: State, ad: Advert)
    requires Books(s) && KeepsLatest(s) && Ordered(s.history + [ad])
    ensures Books(Apply(s, Heard(ad))) && KeepsLatest(Apply(s, Heard(ad)))
  {
    var es := s.table.entries;
    var t := Apply(s, Heard(ad));
    StepKeepsBooks(s, Heard(ad));
    forall i | 0 <= i < |t.tags| && t.table.entries[i].inUse
      ensures t.tags[i].stamp == LastIndex(t.history, t.table.entries[i].address)
    {
      UpsertedShows(es, ad);
      LastIndexStep(s.history, ad, t.table.entries[i].address);
      if i != SlotFor(es, ad.address) {
        assert t.table.entries[i].address != ad.address;
      }
    }
    hide SlotFor, Genuine, SlotBooked;
    forall a: Address, i | 0 <= i < |t.tags| && LastIndex(t.history, a) >= 0 && !Known(t.table.entries, a)
      ensures t.table.entries[i].inUse && t.history[LastIndex(t.history, a)].time <= t.table.entries[i].lastSeen
    {
      AbsentWasHeardEarlier(s, ad, a, i);
    }
  }

  lemma AbsentWasHeardEarlier(s: State, ad: Advert, a: Address, i: nat)
    requires Books(s) && KeepsLatest(s) && Ordered(s.history + [ad]) && i < |s.tags|
    requires LastIndex(s.history + [ad], a) >= 0 && !Known(Upserted(s.table.entries, ad), a)
    ensures var r := Upserted(s.table.entries, ad); var h := s.history + [ad];
            r[i].inUse && h[LastIndex(h, a)].time <= r[i].lastSeen
  {
    var es := s.table.entries;
    var h := s.history + [ad];
    KnownAfterAdvert(es, ad, a);
    LastIndexStep(s.history, ad, a);
    UpsertedShows(es, ad);
    assert h[LastIndex(h, a)].time <= ad.time;
    if Known(es, a) {
      var o := OldestIndex(es);
      assert SlotBooked(es[o], s.tags[o], s.history);
    }
  }

  lemma AckKeepsLatest(s: State)
    requires Books(s) && KeepsLatest(s) && Enabled(s, Ack)
    ensures Books(Apply(s, Ack)) && KeepsLatest(Apply(s, Ack))
  {
    hide LastIndex;
    StepKeepsBooks(s, Ack);
    var t := Apply(s, Ack);
    var c := s.flight[s.acked].entry;
    hide Books, Marked;
    forall a: Address, i | 0 <= i < |t.tags| && LastIndex(t.history, a) >= 0 && !Known(t.table.entries, a)
      ensures t.table.entries[i].inUse && t.history[LastIndex(t.history, a)].time <= t.table.entries[i].lastSeen
    {
      MarkedIsKnown(s.table.entries, c.address, c.updateSeq, a, i);
    }
    forall i | 0 <= i < |t.tags| && t.table.entries[i].inUse
      ensures t.tags[i].stamp == LastIndex(t.history, t.table.entries[i].address)
    {
      MarkedIsKnown(s.table.entries, c.address, c.updateSeq, c.address, i);
    }
  }

  /** An acknowledgement moves no device and makes none seem older. */
  lemma MarkedIsKnown(es: seq<Entry>, marked: Address, updateSeq: uint16, a: Address, i: nat)
    requires i < |es|
    ensures var r := Marked(es, marked, updateSeq);
            && (Known(es, a) ==> Known(r, a))
            && r[i].inUse == es[i].inUse && r[i].address == es[i].address && r[i].lastSeen == es[i].lastSeen
  {
    var f := FindIndex(es, a);
    assert f < |es| ==> Holds(Marked(es, marked, updateSeq)[f], a);
  }

  lemma {:induction false} RunKeepsLatest(s: State, steps: seq<Step>)
    requires Books(s) && KeepsLatest(s) && Possible(s, steps) && Ordered(Run(s, steps).history)
    ensures Books(Run(s, steps)) && KeepsLatest(Run(s, steps))
    decreases steps
  {
    if steps == [] {
    } else {
      var t := Apply(s, steps[0]);
      HistoryGrows(t, steps[1..]);
      StepKeepsBooks(s, steps[0]);
      if steps[0].Heard? {
        assert t.history <= Run(s, steps).history;
        HeardKeepsLatest(s, steps[0].ad);
      } else if steps[0].Ack? {
        AckKeepsLatest(s);
      }
      RunKeepsLatest(t, steps[1..]);
    }
  }

  lemma {:induction false} HistoryGrows(s: State, steps: seq<Step>)
    requires Shaped(s) && Possible(s, steps)
    ensures s.history <= Run(s, steps).history
    decreases steps
  {
    if steps != [] {
      HistoryGrows(Apply(s, steps[0]), steps[1..]);
    }
  }

  /** In every run under a clock that never goes back, with any number of acknowledgements between the
      advertisements: a slot in use shows the last advertisement of its address, no address has two slots, and
      a device that was heard but is absent was last heard no later than every device present, in a table with
      no free slot. The visible eviction count is the true one, up to its ceiling. */
  lemma MostRecentlyHeard(slots: nat, steps: seq<Step>)
    requires slots > 0 && Possible(Init(slots), steps) && Ordered(Run(Init(slots), steps).history)
    ensures var s := Run(Init(slots), steps); var es := s.table.entries;
            && |es| == slots
            && Unique(es)
            && (forall i :: 0 <= i < slots && es[i].inUse ==>
                  LastIndex(s.history, es[i].address) >= 0
                      && Shows(es[i], s.history[LastIndex(s.history, es[i].address)]))
            && (forall a: Address, i :: 0 <= i < slots && LastIndex(s.history, a) >= 0 && !Known(es, a) ==>
                  es[i].inUse && s.history[LastIndex(s.history, a)].time <= es[i].lastSeen)
            && s.table.evicted == Min(s.evictions, 65535)
  {
    InitBooks(slots);
    RunKeepsSlots(Init(slots), steps);
    RunKeepsLatest(Init(slots), steps);
    var s := Run(Init(slots), steps);
    forall i | 0 <= i < slots && s.table.entries[i].inUse
      ensures Shows(s.table.entries[i], s.history[LastIndex(s.history, s.table.entries[i].address)])
              && LastIndex(s.history, s.table.entries[i].address) >= 0
    {
      assert SlotBooked(s.table.entries[i], s.tags[i], s.history);
    }
  }
}
