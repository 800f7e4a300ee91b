/** The other half of the delivery promise: what has not been acknowledged is still pending. */
module UnackedPending {
  import opened Words
  import opened Records
  import opened TableModel
  import opened Delivery
  import opened DeliveryExact

  /** Every device with a record in flight that is not acknowledged yet, and that is still in the table, is pending.
      Right after the link refuses a fragment that is every device of it and of those behind it. */
  ghost predicate StillPending(s: State) {
    forall k, i ::
      s.acked <= k < |s.flight| && 0 <= i < |s.table.entries|
          && Holds(s.table.entries[i], s.flight[k].entry.address) ==>
      Pending(s.table.entries[i])
  }

  predicate Awaited(s: State, a: Address) {
    exists k :: s.acked <= k < |s.flight| && s.flight[k].entry.address == a
  }

  /** The one thing that can go wrong: an advertisement of such a device brings its counter round to the acknowledged
      value. */
  predicate NoWrap(s: State, step: Step) {
    step.Heard? && Awaited(s, step.ad.address) ==>
      var es := s.table.entries;
      var i := FindIndex(es, step.ad.address);
      i < |es| ==> Next16(es[i].updateSeq) != es[i].reportedSeq
  }

  lemma HeardPendingExactly(s: State, ad: Advert)
    requires Current(s) && StillPending(s)
    ensures StillPending(Apply(s, Heard(ad))) <==> NoWrap(s, Heard(ad))
  {
    hide SlotBooked, Genuine, SameOrNews;
    var es, t := s.table.entries, Apply(s, Heard(ad));
    var x := SlotFor(es, ad.address);
    UpsertedShows(es, ad);
    if Awaited(s, ad.address) {
      var k :| s.acked <= k < |s.flight| && s.flight[k].entry.address == ad.address;
      assert Holds(t.table.entries[x], t.flight[k].entry.address);
      assert Known(es, ad.address) ==> (Pending(t.table.entries[x]) <==> Next16(es[x].updateSeq) != es[x].reportedSeq);
    }
    if NoWrap(s, Heard(ad)) {
      forall k, i | s.acked <= k < |t.flight| && 0 <= i < |es| && Holds(t.table.entries[i], t.flight[k].entry.address)
        ensures Pending(t.table.entries[i])
      {
        if i == x {
          assert Awaited(s, ad.address);
        } else {
          assert Holds(es[i], s.flight[k].entry.address);
        }
      }
    }
  }

  lemma SnapshotKeepsPending(s: State, now: uint32, stale: uint32)
    requires Current(s) && Enabled(s, SnapshotTaken(now, stale))
    ensures StillPending(Apply(s, SnapshotTaken(now, stale)))
  {
    hide SlotBooked, Genuine, SameOrNews;
    var es := s.table.entries;
    var idx := FreshIndices(es, now, stale);
    FreshIndicesExact(es, now, stale);
    assert forall k :: 0 <= k < |idx| ==> idx[k] in idx;
    hide FreshIndices;
  }

  lemma AckKeepsPending(s: State)
    requires Current(s) && StillPending(s) && Enabled(s, Ack)
    ensures StillPending(Apply(s, Ack))
  {
    hide SlotBooked, Genuine, SameOrNews;
    var es, t := s.table.entries, Apply(s, Ack);
    forall k, i | t.acked <= k < |t.flight| && 0 <= i < |es| && Holds(t.table.entries[i], t.flight[k].entry.address)
      ensures Pending(t.table.entries[i])
    {
      assert Holds(es[i], s.flight[k].entry.address);
      assert s.flight[s.acked].entry.address != s.flight[k].entry.address;
      assert t.table.entries[i] == es[i];
    }
  }

  lemma StepPendingExactly(s: State, step: Step)
    requires Current(s) && StillPending(s) && Enabled(s, step)
    ensures StillPending(Apply(s, step)) <==> NoWrap(s, step)
  {
    match step
    case Heard(ad) => HeardPendingExactly(s, ad);
    case SnapshotTaken(now, stale) => SnapshotKeepsPending(s, now, stale);
    case Ack => AckKeepsPending(s);
    case Sent(_, _) =>
    case Close =>
  }

  ghost predicate PendingThroughout(s: State, steps: seq<Step>)
    requires Shaped(s) && Possible(s, steps)
    decreases steps
  {
    StillPending(s) &&
    (steps != [] ==> (ApplyKeepsShape(s, steps[0]); PendingThroughout(Apply(s, steps[0]), steps[1..])))
  }

  ghost predicate NoWrapThroughout(s: State, steps: seq<Step>)
    requires Shaped(s) && Possible(s, steps)
    decreases steps
  {
    steps != [] ==>
      NoWrap(s, steps[0]) && (ApplyKeepsShape(s, steps[0]); NoWrapThroughout(Apply(s, steps[0]), steps[1..]))
  }

  lemma {:induction false} ThroughoutExactly(s: State, steps: seq<Step>)
    requires Current(s) && StillPending(s) && Possible(s, steps)
    ensures PendingThroughout(s, steps) <==> NoWrapThroughout(s, steps)
    decreases steps
  {
    hide Apply, Enabled, StillPending, NoWrap;
    if steps != [] {
      StepPendingExactly(s, steps[0]);
      var t := Apply(s, steps[0]);
      StepKeepsCurrent(s, steps[0]);
      if StillPending(t) {
        ThroughoutExactly(t, steps[1..]);
      } else {
        assert !PendingThroughout(t, steps[1..]);
      }
    }
  }

  /** In every run, what is in flight and not acknowledged stays pending at every step if and only if no counter of a
      device that is awaited comes round. Eviction does not matter here. */
  lemma UnacknowledgedStaysPendingExactly(slots: nat, steps: seq<Step>)
    requires slots > 0 && Possible(Init(slots), steps)
    ensures PendingThroughout(Init(slots), steps) <==> NoWrapThroughout(Init(slots), steps)
  {
    InitBooks(slots);
    ThroughoutExactly(Init(slots), steps);
  }

  /** A sound run has no such wrap. */
  lemma {:induction false} SoundRunsDoNotWrap(s: State, steps: seq<Step>)
    requires Shaped(s) && Possible(s, steps) && SoundThroughout(s, steps)
    ensures NoWrapThroughout(s, steps)
    decreases steps
  {
    if steps != [] {
      assert NoWrap(s, steps[0]);
      ApplyKeepsShape(s, steps[0]);
      hide Apply, Enabled, Sound, NoWrap;
      SoundRunsDoNotWrap(Apply(s, steps[0]), steps[1..]);
    }
  }

  lemma {:induction false} PendingAtEnd(s: State, steps: seq<Step>)
    requires Shaped(s) && Possible(s, steps) && PendingThroughout(s, steps)
    ensures StillPending(Run(s, steps))
    decreases steps
  {
    hide Apply, Enabled, StillPending;
    if steps != [] {
      ApplyKeepsShape(s, steps[0]);
      PendingAtEnd(Apply(s, steps[0]), steps[1..]);
    }
  }

  /** So in a sound run a refused fragment leaves all its devices pending. */
  lemma UnacknowledgedStaysPending(slots: nat, steps: seq<Step>, k: nat, i: nat)
    requires slots > 0 && Possible(Init(slots), steps) && SoundThroughout(Init(slots), steps)
    requires var s := Run(Init(slots), steps);
             && s.acked <= k < |s.flight|
             && i < |s.table.entries| && Holds(s.table.entries[i], s.flight[k].entry.address)
    ensures Pending(Run(Init(slots), steps).table.entries[i])
  {
    SoundRunsDoNotWrap(Init(slots), steps);
    UnacknowledgedStaysPendingExactly(slots, steps);
    PendingAtEnd(Init(slots), steps);
  }

  /** It does go wrong: 2^16 advertisements of one device, all but the first while its record is in flight, and it looks
      delivered although nothing was accepted. */
  lemma WrapInFlight(ad: Advert)
    ensures var steps := [Heard(ad)] + ([SnapshotTaken(ad.time, 0)] + Repeat(ad, WRAP - 1));
            && Possible(Init(1), steps)
            && !StillPending(Run(Init(1), steps)) && Run(Init(1), steps).accepted == []
  {
    var e := Refreshed(BLANK.(address := ad.address, inUse := true), ad);
    var s1 := State(Table([e], 0), [Tag(0, 1)], [ad], 0, [], 0, 0, []);
    var s2 := s1.(flight := [Carried(e, Tag(0, 1))]);
    StartsAsExpected(ad, 0);
    HeardAgainAndAgain(s2, ad, WRAP - 1);
    var t := Run(s2, Repeat(ad, WRAP - 1));
    assert Holds(t.table.entries[0], t.flight[0].entry.address) && !Pending(t.table.entries[0]);
    hide Apply, Repeat, StillPending;
    RunFirst(s1, SnapshotTaken(ad.time, 0), Repeat(ad, WRAP - 1));
    RunFirst(Init(1), Heard(ad), [SnapshotTaken(ad.time, 0)] + Repeat(ad, WRAP - 1));
  }
}
