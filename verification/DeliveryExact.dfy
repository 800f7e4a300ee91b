/** Exactly which runs of the acknowledgement protocol keep its promise. */
module DeliveryExact {
  import opened Words
  import opened Records
  import opened TableModel
  import opened Delivery

  /** What is in flight is in flight once, and a slot that holds its device either still shows the advertisement
      carried or one that nothing accepted has carried. */
  ghost predicate Current(s: State) {
    && Books(s)
    && (forall j, k :: 0 <= j < k < |s.flight| ==> s.flight[j].entry.address != s.flight[k].entry.address)
    && forall k, i ::
         0 <= k < |s.flight| && 0 <= i < |s.tags| && Holds(s.table.entries[i], s.flight[k].entry.address) ==>
         SameOrNews(s, s.flight[k], s.tags[i])
  }

  ghost predicate SameOrNews(s: State, c: Carried, tag: Tag) {
    tag.stamp == c.tag.stamp || !Delivered(s, tag.stamp)
  }

  lemma HeardKeepsCurrent(s: State, ad: Advert)
    requires Current(s)
    ensures Current(Apply(s, Heard(ad)))
  {
    var t := Apply(s, Heard(ad));
    StepKeepsBooks(s, Heard(ad));
    UpsertedShows(s.table.entries, ad);
    NewsIsNews(s);
    forall k, i | 0 <= k < |t.flight| && 0 <= i < |t.tags| && Holds(t.table.entries[i], t.flight[k].entry.address)
      ensures SameOrNews(t, t.flight[k], t.tags[i])
    {
      DeliveredGrows(t, s);
      if i != SlotFor(s.table.entries, ad.address) {
        assert SameOrNews(s, s.flight[k], s.tags[i]);
      }
    }
  }

  lemma NewsIsNews(s: State)
    requires Books(s)
    ensures !Delivered(s, |s.history|)
  {
    forall c | c in s.accepted ensures c.tag.stamp != |s.history| {
      assert Genuine(c, s.history);
    }
  }

  lemma SnapshotKeepsCurrent(s: State, now: uint32, stale: uint32)
    requires Current(s) && Enabled(s, SnapshotTaken(now, stale))
    ensures Current(Apply(s, SnapshotTaken(now, stale)))
  {
    var es := s.table.entries;
    var t := Apply(s, SnapshotTaken(now, stale));
    StepKeepsBooks(s, SnapshotTaken(now, stale));
    FreshIndicesExact(es, now, stale);
    var idx := FreshIndices(es, now, stale);
    assert forall k :: 0 <= k < |idx| ==> idx[k] in idx;
    forall k, i | 0 <= k < |t.flight| && 0 <= i < |t.tags| && Holds(es[i], t.flight[k].entry.address)
      ensures SameOrNews(t, t.flight[k], t.tags[i])
    {
      assert i == idx[k];
    }
  }

  lemma SentKeepsCurrent(s: State, count: nat, ok: bool)
    requires Current(s) && Enabled(s, Sent(count, ok))
    ensures Current(Apply(s, Sent(count, ok)))
  {
    var t := Apply(s, Sent(count, ok));
    StepKeepsBooks(s, Sent(count, ok));
    forall k, i | 0 <= k < |t.flight| && 0 <= i < |t.tags| && Holds(t.table.entries[i], t.flight[k].entry.address)
      ensures SameOrNews(t, t.flight[k], t.tags[i])
    {
      assert SameOrNews(s, s.flight[k], s.tags[i]);
      OnlyItsOwn(s, t, k, i);
    }
  }

  /** What a fragment adds to the accepted advertisements concerns a device's slot only if the device is in it. */
  lemma OnlyItsOwn(s: State, t: State, k: nat, i: nat)
    requires Current(s) && k < |s.flight| && i < |s.tags| && Holds(s.table.entries[i], s.flight[k].entry.address)
    requires forall c :: c in t.accepted ==> c in s.accepted || c in s.flight
    ensures Delivered(t, s.tags[i].stamp) ==> Delivered(s, s.tags[i].stamp) || s.tags[i].stamp == s.flight[k].tag.stamp
  {
    forall c | c in s.flight && c.tag.stamp == s.tags[i].stamp ensures c == s.flight[k] {
      SameStampSameDevice(s, c, i);
    }
  }

  lemma SameStampSameDevice(s: State, c: Carried, i: nat)
    requires Books(s) && c in s.flight && i < |s.tags| && s.table.entries[i].inUse && c.tag.stamp == s.tags[i].stamp
    ensures c.entry.address == s.table.entries[i].address
  {
    assert Genuine(c, s.history) && SlotBooked(s.table.entries[i], s.tags[i], s.history);
  }

  lemma AckKeepsCurrent(s: State)
    requires Current(s) && Enabled(s, Ack)
    ensures Current(Apply(s, Ack))
  {
    var t := Apply(s, Ack);
    StepKeepsBooks(s, Ack);
    DeliveredGrows(t, s);
    forall k, i | 0 <= k < |t.flight| && 0 <= i < |t.tags| && Holds(t.table.entries[i], t.flight[k].entry.address)
      ensures SameOrNews(t, t.flight[k], t.tags[i])
    {
      assert SameOrNews(s, s.flight[k], s.tags[i]);
    }
  }

  lemma StepKeepsCurrent(s: State, step: Step)
    requires Current(s) && Enabled(s, step)
    ensures Current(Apply(s, step))
  {
    match step
    case Heard(ad) => HeardKeepsCurrent(s, ad);
    case SnapshotTaken(now, stale) => SnapshotKeepsCurrent(s, now, stale);
    case Sent(count, ok) => SentKeepsCurrent(s, count, ok);
    case Ack => AckKeepsCurrent(s);
    case Close => StepKeepsBooks(s, Close);
  }

  // ---- The exact condition ----

  /** What the sixteen-bit comparisons take for granted. An advertisement must not bring a device's counter back to
      its acknowledged value, and an acknowledgement must not find its counter in a slot that has since been
      rewritten. */
  ghost predicate Sound(s: State, step: Step)
    requires Shaped(s) && Enabled(s, step)
  {
    var es := s.table.entries;
    match step
    case Heard(ad) =>
      var i := FindIndex(es, ad.address);
      i < |es| ==> Next16(es[i].updateSeq) != es[i].reportedSeq
    case Ack =>
      var c := s.flight[s.acked];
      var i := FindIndex(es, c.entry.address);
      i < |es| && es[i].updateSeq == c.entry.updateSeq ==> s.tags[i].stamp == c.tag.stamp
    case _ => true
  }

  /** An acknowledgement is about something accepted. */
  ghost predicate AckedAreSent(s: State) {
    s.sent <= |s.flight| && forall k :: 0 <= k < s.sent ==> Delivered(s, s.flight[k].tag.stamp)
  }

  lemma StepKeepsAckedSent(s: State, step: Step)
    requires Shaped(s) && Enabled(s, step) && AckedAreSent(s)
    ensures AckedAreSent(Apply(s, step))
  {
    var t := Apply(s, step);
    DeliveredGrows(s, t);
    if step.Sent? && step.ok {
      forall k | s.sent <= k < t.sent ensures Delivered(t, t.flight[k].tag.stamp) {
        assert t.flight[k] == s.flight[s.sent..t.sent][k - s.sent];
        assert t.flight[k] in t.accepted;
      }
    }
  }

  lemma StepSafeExactly(s: State, step: Step)
    requires Current(s) && AckedAreSent(s) && Safe(s) && Enabled(s, step)
    ensures Safe(Apply(s, step)) <==> Sound(s, step)
  {
    match step
    case Heard(ad) => HeardExactly(s, ad);
    case Ack =>
      AckExactly(s);
      var c := s.flight[s.acked];
      var i := FindIndex(s.table.entries, c.entry.address);
      if i < |s.tags| {
        assert SameOrNews(s, c, s.tags[i]);
      }
    case _ => DeliveredGrows(s, Apply(s, step));
  }

  ghost predicate SafeThroughout(s: State, steps: seq<Step>)
    requires Shaped(s) && Possible(s, steps)
    decreases steps
  {
    Safe(s) && (steps != [] ==> (ApplyKeepsShape(s, steps[0]); SafeThroughout(Apply(s, steps[0]), steps[1..])))
  }

  ghost predicate SoundThroughout(s: State, steps: seq<Step>)
    requires Shaped(s) && Possible(s, steps)
    decreases steps
  {
    steps != [] ==>
      Sound(s, steps[0]) && (ApplyKeepsShape(s, steps[0]); SoundThroughout(Apply(s, steps[0]), steps[1..]))
  }

  lemma {:induction false} ThroughoutExactly(s: State, steps: seq<Step>)
    requires Current(s) && AckedAreSent(s) && Safe(s) && Possible(s, steps)
    ensures SafeThroughout(s, steps) <==> SoundThroughout(s, steps)
    decreases steps
  {
    hide Apply, Enabled, Safe, Sound, AckedAreSent;
    if steps != [] {
      StepSafeExactly(s, steps[0]);
      var t := Apply(s, steps[0]);
      StepKeepsCurrent(s, steps[0]);
      if Safe(t) {
        StepKeepsAckedSent(s, steps[0]);
        ThroughoutExactly(t, steps[1..]);
      } else {
        assert !SafeThroughout(t, steps[1..]);
      }
    }
  }

  /** A run keeps the delivery promise at every step if and only if no counter comes round to its acknowledged value
      and no acknowledgement meets its own number on a newer reading. These are the two things the counters cannot
      tell, and the only two. */
  lemma DeliveryHoldsExactly(slots: nat, steps: seq<Step>)
    requires slots > 0 && Possible(Init(slots), steps)
    ensures SafeThroughout(Init(slots), steps) <==> SoundThroughout(Init(slots), steps)
  {
    InitBooks(slots);
    ThroughoutExactly(Init(slots), steps);
  }

  // ---- Two uses ----

  lemma CalmIsSound(s: State, step: Step)
    requires Protocol(s) && Enabled(s, step) && Calm(s, step)
    ensures Sound(s, step)
  {
    match step
    case Heard(ad) =>
      var i := FindIndex(s.table.entries, ad.address);
      if i < |s.tags| {
        assert SlotBooked(s.table.entries[i], s.tags[i], s.history);
      }
    case Ack =>
      var c := s.flight[s.acked];
      var i := FindIndex(s.table.entries, c.entry.address);
      if i < |s.tags| && s.table.entries[i].updateSeq == c.entry.updateSeq {
        assert InStep(s, c, i);
      }
    case _ =>
  }

  /** Calm runs are sound, so fewer than 2^16 advertisements between acknowledgements and no return of an evicted
      device in flight are enough. */
  lemma {:induction false} CalmRunsAreSound(s: State, steps: seq<Step>)
    requires Protocol(s) && Possible(s, steps) && CalmRun(s, steps)
    ensures SoundThroughout(s, steps)
    decreases steps
  {
    hide Apply, Enabled, Calm, Sound;
    if steps != [] {
      CalmIsSound(s, steps[0]);
      StepKeepsProtocol(s, steps[0]);
      CalmRunsAreSound(Apply(s, steps[0]), steps[1..]);
    }
  }

  lemma {:induction false} SafeAtEnd(s: State, steps: seq<Step>)
    requires Shaped(s) && Possible(s, steps) && SafeThroughout(s, steps)
    ensures Safe(Run(s, steps))
    decreases steps
  {
    hide Apply, Enabled, Safe;
    if steps != [] {
      ApplyKeepsShape(s, steps[0]);
      SafeAtEnd(Apply(s, steps[0]), steps[1..]);
    }
  }

  /** In a sound run, a device that is not pending has had exactly the reading it shows accepted by the link. */
  lemma SoundMeansDelivered(slots: nat, steps: seq<Step>, i: nat) returns (c: Carried)
    requires slots > 0 && Possible(Init(slots), steps) && SoundThroughout(Init(slots), steps)
    requires var es := Run(Init(slots), steps).table.entries; i < |es| && es[i].inUse && !Pending(es[i])
    ensures var s := Run(Init(slots), steps); var e := s.table.entries[i];
            && c in s.accepted
            && c.entry.address == e.address && c.entry.rssi == e.rssi && c.entry.reading == e.reading
                  && c.entry.lastSeen == e.lastSeen
  {
    DeliveryHoldsExactly(slots, steps);
    SafeAtEnd(Init(slots), steps);
    InitBooks(slots);
    RunKeepsBooks(Init(slots), steps);
    c := DeliveredShows(Run(Init(slots), steps), i);
  }

  lemma DeliveredShows(s: State, i: nat) returns (c: Carried)
    requires Books(s) && Safe(s) && i < |s.tags| && s.table.entries[i].inUse && !Pending(s.table.entries[i])
    ensures c in s.accepted
    ensures var e := s.table.entries[i];
            c.entry.address == e.address && c.entry.rssi == e.rssi && c.entry.reading == e.reading
                && c.entry.lastSeen == e.lastSeen
  {
    c :| c in s.accepted && c.tag.stamp == s.tags[i].stamp;
    assert Genuine(c, s.history) && SlotBooked(s.table.entries[i], s.tags[i], s.history);
  }
}
