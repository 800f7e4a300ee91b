/** A reading that was accepted is not sent again: no advertisement is accepted twice, in any run. */
module AtMostOnce {
  import opened Words
  import opened Records
  import opened TableModel
  import opened Delivery
  import opened DeliveryExact

  ghost predicate AcceptedOnce(s: State) {
    forall a, b :: 0 <= a < b < |s.accepted| ==> s.accepted[a].tag.stamp != s.accepted[b].tag.stamp
  }

  /** Something accepted and not yet acknowledged carries this advertisement. */
  ghost predicate Unacknowledged(s: State, stamp: nat) {
    exists k :: s.acked <= k < s.sent && k < |s.flight| && s.flight[k].tag.stamp == stamp
  }

  ghost predicate Once(s: State) {
    && Current(s)
    && AcceptedOnce(s)
    && (forall k :: s.sent <= k < |s.flight| ==> !Delivered(s, s.flight[k].tag.stamp))
    && (forall k, i :: 0 <= k < |s.flight| && 0 <= i < |s.tags| && s.table.entries[i].inUse ==>
          SameCopy(s.flight[k], s.table.entries[i], s.tags[i]))
    && (forall i :: 0 <= i < |s.tags| && Pending(s.table.entries[i]) && Delivered(s, s.tags[i].stamp) ==>
          Unacknowledged(s, s.tags[i].stamp))
  }

  /** A copy of the advertisement a slot still shows has the slot's counter. */
  predicate SameCopy(c: Carried, e: Entry, tag: Tag) {
    c.tag.stamp == tag.stamp ==> c.entry.updateSeq == e.updateSeq
  }

  lemma HeardKeepsCopies(s: State, ad: Advert, k: nat, i: nat)
    requires Once(s) && k < |s.flight| && i < |s.tags| && Upserted(s.table.entries, ad)[i].inUse
    ensures var t := Apply(s, Heard(ad)); SameCopy(s.flight[k], t.table.entries[i], t.tags[i])
  {
    UpsertedShows(s.table.entries, ad);
    InFlightIsOld(s);
    hide Current, AcceptedOnce, Delivered, Unacknowledged, Upserted;
    if i != SlotFor(s.table.entries, ad.address) {
      assert SameCopy(s.flight[k], s.table.entries[i], s.tags[i]);
    }
  }

  lemma HeardKeepsUnacknowledged(s: State, ad: Advert, i: nat)
    requires Once(s) && i < |s.tags|
    requires var t := Apply(s, Heard(ad)); Pending(t.table.entries[i]) && Delivered(t, t.tags[i].stamp)
    ensures var t := Apply(s, Heard(ad)); Unacknowledged(t, t.tags[i].stamp)
  {
    var t := Apply(s, Heard(ad));
    UpsertedShows(s.table.entries, ad);
    DeliveredGrows(t, s);
    NewsIsNews(s);
    hide Current, AcceptedOnce, Delivered, Upserted, SameCopy;
    assert i != SlotFor(s.table.entries, ad.address);
    assert Unacknowledged(s, s.tags[i].stamp);
  }

  lemma HeardKeepsOnce(s: State, ad: Advert)
    requires Once(s)
    ensures Once(Apply(s, Heard(ad)))
  {
    var t := Apply(s, Heard(ad));
    StepKeepsCurrent(s, Heard(ad));
    DeliveredGrows(t, s);
    hide Current, Upserted, AcceptedOnce, Delivered, SameCopy, Unacknowledged, Pending;
    forall k, i | 0 <= k < |t.flight| && 0 <= i < |t.tags| && t.table.entries[i].inUse
      ensures SameCopy(t.flight[k], t.table.entries[i], t.tags[i])
    {
      HeardKeepsCopies(s, ad, k, i);
    }
    forall i | 0 <= i < |t.tags| && Pending(t.table.entries[i]) && Delivered(t, t.tags[i].stamp)
      ensures Unacknowledged(t, t.tags[i].stamp)
    {
      HeardKeepsUnacknowledged(s, ad, i);
    }
  }

  lemma InFlightIsOld(s: State)
    requires Books(s)
    ensures forall k :: 0 <= k < |s.flight| ==> s.flight[k].tag.stamp < |s.history|
  {
    forall k | 0 <= k < |s.flight| ensures s.flight[k].tag.stamp < |s.history| {
      assert Genuine(s.flight[k], s.history);
    }
  }

  /** Different slots show different advertisements, and so do different copies in flight. */
  lemma StampsDiffer(s: State)
    requires Current(s)
    ensures forall i, j :: 0 <= i < j < |s.tags| && s.table.entries[i].inUse && s.table.entries[j].inUse ==>
              s.tags[i].stamp != s.tags[j].stamp
    ensures forall k, m :: 0 <= k < m < |s.flight| ==> s.flight[k].tag.stamp != s.flight[m].tag.stamp
  {
    forall i, j | 0 <= i < j < |s.tags| && s.table.entries[i].inUse && s.table.entries[j].inUse
      ensures s.tags[i].stamp != s.tags[j].stamp
    {
      assert SlotBooked(s.table.entries[i], s.tags[i], s.history)
          && SlotBooked(s.table.entries[j], s.tags[j], s.history);
    }
    forall k, m | 0 <= k < m < |s.flight| ensures s.flight[k].tag.stamp != s.flight[m].tag.stamp {
      assert Genuine(s.flight[k], s.history) && Genuine(s.flight[m], s.history);
    }
  }

  /** Between cycles nothing pending has been delivered. */
  lemma PendingIsNews(s: State, i: nat)
    requires Once(s) && s.flight == [] && i < |s.tags| && Pending(s.table.entries[i])
    ensures !Delivered(s, s.tags[i].stamp)
  {
    hide Current, Delivered;
    assert !Unacknowledged(s, s.tags[i].stamp);
  }

  lemma SnapshotCopies(s: State, now: uint32, stale: uint32, k: nat)
    requires Once(s) && Enabled(s, SnapshotTaken(now, stale)) && k < |Apply(s, SnapshotTaken(now, stale)).flight|
    ensures var c := Apply(s, SnapshotTaken(now, stale)).flight[k];
            && !Delivered(s, c.tag.stamp)
            && forall i :: 0 <= i < |s.tags| && s.table.entries[i].inUse ==> SameCopy(c, s.table.entries[i], s.tags[i])
  {
    var es := s.table.entries;
    var idx := FreshIndices(es, now, stale);
    FreshIndicesExact(es, now, stale);
    assert idx[k] in idx;
    StampsDiffer(s);
    PendingIsNews(s, idx[k]);
    hide Current, FreshIndices;
  }

  lemma SnapshotKeepsOnce(s: State, now: uint32, stale: uint32)
    requires Once(s) && Enabled(s, SnapshotTaken(now, stale))
    ensures Once(Apply(s, SnapshotTaken(now, stale)))
  {
    var t := Apply(s, SnapshotTaken(now, stale));
    StepKeepsCurrent(s, SnapshotTaken(now, stale));
    DeliveredGrows(t, s);
    hide Current, FreshIndices, SameCopy, Delivered;
    forall k | 0 <= k < |t.flight|
      ensures !Delivered(t, t.flight[k].tag.stamp)
      ensures forall i :: 0 <= i < |t.tags| && t.table.entries[i].inUse ==>
                SameCopy(t.flight[k], t.table.entries[i], t.tags[i])
    {
      SnapshotCopies(s, now, stale, k);
    }
    forall i | 0 <= i < |t.tags| && Pending(t.table.entries[i]) ensures !Delivered(t, t.tags[i].stamp) {
      PendingIsNews(s, i);
    }
  }

  /** What an accepted fragment adds. */
  lemma SentDelivers(s: State, count: nat, stamp: nat)
    requires Shaped(s) && Enabled(s, Sent(count, true))
    ensures Delivered(Apply(s, Sent(count, true)), stamp) ==>
              Delivered(s, stamp) || exists k :: s.sent <= k < s.sent + count && s.flight[k].tag.stamp == stamp
  {
    var t, piece := Apply(s, Sent(count, true)), s.flight[s.sent..s.sent + count];
    if Delivered(t, stamp) && !Delivered(s, stamp) {
      var c :| c in t.accepted && c.tag.stamp == stamp;
      var m :| 0 <= m < count && piece[m] == c;
      assert s.flight[s.sent + m].tag.stamp == stamp;
    }
  }

  lemma SentOnce(s: State, count: nat)
    requires Once(s) && Enabled(s, Sent(count, true))
    ensures AcceptedOnce(Apply(s, Sent(count, true)))
  {
    var t, piece := Apply(s, Sent(count, true)), s.flight[s.sent..s.sent + count];
    StampsDiffer(s);
    assert forall m :: 0 <= m < count ==> piece[m] == s.flight[s.sent + m];
    hide Current;
    forall a, b | 0 <= a < b < |t.accepted| ensures t.accepted[a].tag.stamp != t.accepted[b].tag.stamp {
      OneMoreOnce(s, piece, a, b);
    }
  }

  lemma SentKeepsOnce(s: State, count: nat)
    requires Once(s) && Enabled(s, Sent(count, true))
    ensures Once(Apply(s, Sent(count, true)))
  {
    var t := Apply(s, Sent(count, true));
    StepKeepsCurrent(s, Sent(count, true));
    SentOnce(s, count);
    StampsDiffer(s);
    hide Current, AcceptedOnce, Delivered;
    forall k | t.sent <= k < |t.flight| ensures !Delivered(t, t.flight[k].tag.stamp) {
      SentDelivers(s, count, s.flight[k].tag.stamp);
    }
    forall i | 0 <= i < |t.tags| && Pending(t.table.entries[i]) && Delivered(t, t.tags[i].stamp)
      ensures Unacknowledged(t, t.tags[i].stamp)
    {
      SentDelivers(s, count, s.tags[i].stamp);
      assert Delivered(s, s.tags[i].stamp) ==> Unacknowledged(s, s.tags[i].stamp);
    }
  }

  lemma OneMoreOnce(s: State, piece: seq<Carried>, a: nat, b: nat)
    requires AcceptedOnce(s) && a < b < |s.accepted| + |piece|
    requires forall m :: 0 <= m < |piece| ==> !Delivered(s, piece[m].tag.stamp)
    requires forall l, m :: 0 <= l < m < |piece| ==> piece[l].tag.stamp != piece[m].tag.stamp
    ensures (s.accepted + piece)[a].tag.stamp != (s.accepted + piece)[b].tag.stamp
  {
    var n := |s.accepted|;
    if a < n && b >= n {
      assert s.accepted[a] in s.accepted && !Delivered(s, piece[b - n].tag.stamp);
    }
  }

  lemma AckKeepsOnce(s: State)
    requires Once(s) && Enabled(s, Ack)
    ensures Once(Apply(s, Ack))
  {
    var t := Apply(s, Ack);
    StepKeepsCurrent(s, Ack);
    DeliveredGrows(t, s);
    forall i | 0 <= i < |t.tags| && Pending(t.table.entries[i]) && Delivered(t, t.tags[i].stamp)
      ensures Unacknowledged(t, t.tags[i].stamp)
    {
      AckSettles(s, i);
    }
    hide Current;
  }

  /** The acknowledged copy either settles the slot that shows its advertisement, or no slot shows it any more. */
  lemma AckSettles(s: State, i: nat)
    requires Once(s) && Enabled(s, Ack) && i < |s.tags|
    requires Pending(Apply(s, Ack).table.entries[i]) && Delivered(s, s.tags[i].stamp)
    ensures Unacknowledged(Apply(s, Ack), s.tags[i].stamp)
  {
    var c := s.flight[s.acked];
    assert Shaped(s);
    assert Pending(s.table.entries[i]) && Unacknowledged(s, s.tags[i].stamp);
    assert s.table.entries[i].inUse;
    hide Once, Pending, Marked;
    if s.tags[i].stamp == c.tag.stamp {
      AckedIsSettled(s, i);
    }
    var k :| s.acked <= k < s.sent && k < |s.flight| && s.flight[k].tag.stamp == s.tags[i].stamp;
    assert k != s.acked;
    assert Apply(s, Ack).flight[k].tag.stamp == s.tags[i].stamp;
  }

  lemma AckedIsSettled(s: State, i: nat)
    requires Once(s) && Enabled(s, Ack) && i < |s.tags| && s.table.entries[i].inUse
    requires s.tags[i].stamp == s.flight[s.acked].tag.stamp
    ensures !Pending(Apply(s, Ack).table.entries[i])
  {
    var c := s.flight[s.acked];
    SameStampSameDevice(s, c, i);
    FindIndexIs(s.table.entries, c.entry.address, i);
    assert SameCopy(c, s.table.entries[i], s.tags[i]);
  }

  lemma StepKeepsOnce(s: State, step: Step)
    requires Once(s) && Enabled(s, step)
    ensures Once(Apply(s, step))
  {
    match step
    case Heard(ad) => HeardKeepsOnce(s, ad);
    case SnapshotTaken(now, stale) => SnapshotKeepsOnce(s, now, stale);
    case Sent(count, ok) =>
      if ok {
        SentKeepsOnce(s, count);
      }
    case Ack => AckKeepsOnce(s);
    case Close => CloseKeepsOnce(s);
  }

  lemma CloseKeepsOnce(s: State)
    requires Once(s) && Enabled(s, Close)
    ensures Once(Apply(s, Close))
  {
    StepKeepsCurrent(s, Close);
    DeliveredGrows(Apply(s, Close), s);
    hide Current;
    forall i | 0 <= i < |s.tags| && Pending(s.table.entries[i]) ensures !Delivered(s, s.tags[i].stamp) {
      assert !Unacknowledged(s, s.tags[i].stamp);
    }
  }

  lemma {:induction false} RunKeepsOnce(s: State, steps: seq<Step>)
    requires Once(s) && Possible(s, steps)
    ensures Once(Run(s, steps))
    decreases steps
  {
    hide Apply, AcceptedOnce;
    if steps != [] {
      StepKeepsOnce(s, steps[0]);
      RunKeepsOnce(Apply(s, steps[0]), steps[1..]);
    }
  }

  /** In every run, with no assumption on it, no advertisement is accepted by the link more than once: wrapped counters
      and returning devices can lose a reading, but cannot repeat one. */
  lemma AcceptedAtMostOnce(slots: nat, steps: seq<Step>)
    requires slots > 0 && Possible(Init(slots), steps)
    ensures AcceptedOnce(Run(Init(slots), steps))
  {
    InitBooks(slots);
    RunKeepsOnce(Init(slots), steps);
  }
}
