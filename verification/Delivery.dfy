/** The acknowledgement protocol between the acquisition thread, which records advertisements, and the comms
    thread, which takes a snapshot, hands fragments to the link and acknowledges what was accepted.

    A step is one locked section of the table or one answer of the link, and steps of the two threads
    interleave freely. Besides the table itself, the state keeps what the firmware does not: every
    advertisement ever recorded, and for each slot which of them it shows (`stamp`) and how many arrived since
    the slot was last acknowledged or claimed (`since`), neither of which wraps. */
module Delivery {
  import opened Words
  import opened Records
  import opened TableModel

  const WRAP: nat := 0x1_0000

  datatype Tag = Tag(stamp: nat, since: nat)

  datatype Carried = Carried(entry: Entry, tag: Tag)

  datatype State = State(
    table: Table,
    tags: seq<Tag>,
    history: seq<Advert>,
    evictions: nat,
    flight: seq<Carried>,    // the snapshot of the running cycle
    sent: nat,               // how many of its entries the link has accepted
    acked: nat,              // how many of those have been acknowledged
    accepted: seq<Carried>)  // everything the link ever accepted

  datatype Step =
    | Heard(ad: Advert)
    | SnapshotTaken(now: uint32, stale: uint32)
    | Sent(count: nat, ok: bool)
    | Ack
    | Close

  function Init(slots: nat): State {
    State(Table(seq(slots, i => BLANK), 0), seq(slots, i => Tag(0, 0)), [], 0, [], 0, 0, [])
  }

  ghost predicate Shaped(s: State) {
    && |s.tags| == |s.table.entries| > 0
    && s.acked <= s.sent <= |s.flight|
  }

  predicate Enabled(s: State, step: Step) {
    match step
    case Heard(_) => true
    case SnapshotTaken(_, _) => s.flight == []
    case Sent(count, _) => s.acked == s.sent && 1 <= count <= |s.flight| - s.sent
    case Ack => s.acked < s.sent
    case Close => s.acked == s.sent
  }

  function Carry(es: seq<Entry>, tags: seq<Tag>, idx: seq<nat>): (r: seq<Carried>)
    requires |tags| == |es|
    requires forall k :: 0 <= k < |idx| ==> idx[k] < |es|
    ensures |r| == |idx|
  {
    seq(|idx|, k requires 0 <= k < |idx| => Carried(es[idx[k]], tags[idx[k]]))
  }

  function Apply(s: State, step: Step): State
    requires Shaped(s) && Enabled(s, step)
  {
    var es := s.table.entries;
    match step
    case Heard(ad) =>
      var i := SlotFor(es, ad.address);
      s.(table := AfterAdvert(s.table, ad),
         tags := s.tags[i := Tag(|s.history|, if Known(es, ad.address) then s.tags[i].since + 1 else 1)],
         history := s.history + [ad],
         evictions := s.evictions + if Evicts(es, ad.address) then 1 else 0)
    case SnapshotTaken(now, stale) =>
      s.(flight := Carry(es, s.tags, FreshIndices(es, now, stale)), sent := 0, acked := 0)
    case Sent(count, ok) =>
      if ok then
        s.(accepted := s.accepted + s.flight[s.sent..s.sent + count], sent := s.sent + count)
      else s
    case Ack =>
      var c := s.flight[s.acked].entry;
      var i := FindIndex(es, c.address);
      s.(table := s.table.(entries := Marked(es, c.address, c.updateSeq)),
         tags := if i < |es| && es[i].updateSeq == c.updateSeq then s.tags[i := s.tags[i].(since := 0)] else s.tags,
         acked := s.acked + 1)
    case Close =>
      s.(flight := [], sent := 0, acked := 0)
  }

  lemma ApplyKeepsShape(s: State, step: Step)
    requires Shaped(s) && Enabled(s, step)
    ensures Shaped(Apply(s, step))
  {
  }

  ghost predicate Possible(s: State, steps: seq<Step>)
    requires Shaped(s)
    decreases steps
  {
    steps == [] || (Enabled(s, steps[0]) && (ApplyKeepsShape(s, steps[0]); Possible(Apply(s, steps[0]), steps[1..])))
  }

  ghost function Run(s: State, steps: seq<Step>): (r: State)
    requires Shaped(s) && Possible(s, steps)
    ensures Shaped(r)
    decreases steps
  {
    if steps == [] then s else (ApplyKeepsShape(s, steps[0]); Run(Apply(s, steps[0]), steps[1..]))
  }

  // ---- The bookkeeping that holds in every run ----

  ghost predicate Books(s: State) {
    && Shaped(s)
    && Unique(s.table.entries)
    && s.table.evicted == Min(s.evictions, UINT16_MAX)
    && (forall i :: 0 <= i < |s.tags| && s.table.entries[i].inUse ==>
          SlotBooked(s.table.entries[i], s.tags[i], s.history))
    && (forall c :: c in s.accepted ==> Genuine(c, s.history))
    && (forall c :: c in s.flight ==> Genuine(c, s.history))
  }

  /** A slot shows the advertisement its stamp names, and its two wrapping counters differ by `since`. */
  ghost predicate SlotBooked(e: Entry, tag: Tag, history: seq<Advert>) {
    && tag.stamp < |history|
    && Shows(e, history[tag.stamp])
    && (e.updateSeq - e.reportedSeq - tag.since) % WRAP == 0
  }

  ghost predicate Genuine(c: Carried, history: seq<Advert>) {
    c.entry.inUse && c.tag.stamp < |history| && Shows(c.entry, history[c.tag.stamp])
  }

  lemma InitBooks(slots: nat)
    requires slots > 0
    ensures Books(Init(slots))
  {
  }

  lemma HeardKeepsBooks(s: State, ad: Advert)
    requires Books(s)
    ensures Books(Apply(s, Heard(ad)))
  {
    var t := Apply(s, Heard(ad));
    UpsertedKeepsUnique(s.table.entries, ad);
    forall i | 0 <= i < |t.tags| && t.table.entries[i].inUse
      ensures SlotBooked(t.table.entries[i], t.tags[i], t.history)
    {
      HeardKeepsSlotBooked(s, ad, i);
    }
  }

  lemma HeardKeepsSlotBooked(s: State, ad: Advert, i: nat)
    requires Books(s) && i < |s.tags| && Upserted(s.table.entries, ad)[i].inUse
    ensures var t := Apply(s, Heard(ad)); SlotBooked(t.table.entries[i], t.tags[i], t.history)
  {
    var es := s.table.entries;
    UpsertedShows(es, ad);
    if i != SlotFor(es, ad.address) || Known(es, ad.address) {
      assert SlotBooked(es[i], s.tags[i], s.history);
    }
  }

  lemma SnapshotKeepsBooks(s: State, now: uint32, stale: uint32)
    requires Books(s) && s.flight == []
    ensures Books(Apply(s, SnapshotTaken(now, stale)))
  {
    var es := s.table.entries;
    var t := Apply(s, SnapshotTaken(now, stale));
    var idx := FreshIndices(es, now, stale);
    FreshIndicesExact(es, now, stale);
    forall c | c in t.flight ensures Genuine(c, t.history) {
      var k :| 0 <= k < |idx| && c == t.flight[k];
      assert idx[k] in idx;
      assert SlotBooked(es[idx[k]], s.tags[idx[k]], s.history);
    }
  }

  lemma AckKeepsBooks(s: State)
    requires Books(s) && Enabled(s, Ack)
    ensures Books(Apply(s, Ack))
  {
    var c := s.flight[s.acked].entry;
    MarkedKeepsUnique(s.table.entries, c.address, c.updateSeq);
    var t := Apply(s, Ack);
    forall i | 0 <= i < |t.tags| && t.table.entries[i].inUse
      ensures SlotBooked(t.table.entries[i], t.tags[i], t.history)
    {
      assert SlotBooked(s.table.entries[i], s.tags[i], s.history);
    }
  }

  lemma StepKeepsBooks(s: State, step: Step)
    requires Books(s) && Enabled(s, step)
    ensures Books(Apply(s, step))
  {
    match step
    case Heard(ad) => HeardKeepsBooks(s, ad);
    case SnapshotTaken(now, stale) => SnapshotKeepsBooks(s, now, stale);
    case Ack => AckKeepsBooks(s);
    case Sent(_, _) =>
    case Close =>
  }

  lemma {:induction false} RunKeepsBooks(s: State, steps: seq<Step>)
    requires Books(s) && Possible(s, steps)
    ensures Books(Run(s, steps))
    decreases steps
  {
    hide Apply;
    if steps != [] {
      StepKeepsBooks(s, steps[0]);
      RunKeepsBooks(Apply(s, steps[0]), steps[1..]);
    }
  }

  /** The pending test reads the low sixteen bits of a count that does not wrap: in every run a device looks
      delivered exactly when the number of advertisements since it was last acknowledged is a multiple of 2^16. */
  lemma PendingExactly(s: State, i: nat)
    requires Books(s) && i < |s.tags| && s.table.entries[i].inUse
    ensures Pending(s.table.entries[i]) <==> s.tags[i].since % WRAP != 0
  {
    assert SlotBooked(s.table.entries[i], s.tags[i], s.history);
  }

  // ---- Delivery ----

  ghost predicate Delivered(s: State, stamp: nat) {
    exists c :: c in s.accepted && c.tag.stamp == stamp
  }

  /** Every device that is not pending has had the reading it shows accepted by the link. */
  ghost predicate Safe(s: State) {
    forall i ::
      0 <= i < |s.tags| && i < |s.table.entries| && s.table.entries[i].inUse && !Pending(s.table.entries[i]) ==>
      Delivered(s, s.tags[i].stamp)
  }

  /** What the protocol relies on and does not enforce: fewer than 2^16 advertisements between two
      acknowledgements of a device, and no device evicted and heard again while its record is in flight. */
  ghost predicate Calm(s: State, step: Step)
    requires Shaped(s) && Enabled(s, step)
  {
    step.Heard? ==>
      var i := SlotFor(s.table.entries, step.ad.address);
      if Known(s.table.entries, step.ad.address) then s.tags[i].since + 1 < WRAP
      else forall k :: s.acked <= k < |s.flight| ==> s.flight[k].entry.address != step.ad.address
  }

  ghost predicate CalmRun(s: State, steps: seq<Step>)
    requires Shaped(s) && Possible(s, steps)
    decreases steps
  {
    steps == [] || (Calm(s, steps[0]) && CalmRun(Apply(s, steps[0]), steps[1..]))
  }

  /** The table's slot for an in-flight record is still the same device's, and its counters have moved on from
      the copy by one and the same distance. */
  ghost predicate InStep(s: State, c: Carried, i: nat)
    requires i < |s.tags| == |s.table.entries|
  {
    && s.tags[i].since >= c.tag.since
    && (s.table.entries[i].updateSeq - c.entry.updateSeq - (s.tags[i].since - c.tag.since)) % WRAP == 0
    && (s.tags[i].since == c.tag.since ==> s.tags[i].stamp == c.tag.stamp)
  }

  ghost predicate Counted(s: State)
    requires Books(s)
  {
    forall i :: 0 <= i < |s.tags| && s.table.entries[i].inUse ==>
      s.tags[i].since < WRAP && (s.tags[i].since == 0 ==> Delivered(s, s.tags[i].stamp))
  }

  ghost predicate FlightInStep(s: State)
    requires Books(s)
  {
    forall k, i ::
      s.acked <= k < |s.flight| && 0 <= i < |s.tags| && Holds(s.table.entries[i], s.flight[k].entry.address) ==>
      s.flight[k].tag.since >= 1 && InStep(s, s.flight[k], i)
  }

  ghost predicate Protocol(s: State) {
    && Books(s)
    && Counted(s)
    && FlightInStep(s)
    && (forall k :: 0 <= k < s.sent ==> Delivered(s, s.flight[k].tag.stamp))
    && (forall j, k :: 0 <= j < k < |s.flight| ==> s.flight[j].entry.address != s.flight[k].entry.address)
  }

  lemma DeliveredGrows(s: State, t: State)
    requires s.accepted <= t.accepted
    ensures forall stamp :: Delivered(s, stamp) ==> Delivered(t, stamp)
  {
    forall stamp | Delivered(s, stamp) ensures Delivered(t, stamp) {
      var c :| c in s.accepted && c.tag.stamp == stamp;
      assert c in t.accepted;
    }
  }

  lemma HeardKeepsProtocol(s: State, ad: Advert)
    requires Protocol(s) && Calm(s, Heard(ad))
    ensures Protocol(Apply(s, Heard(ad)))
  {
    var t := Apply(s, Heard(ad));
    StepKeepsBooks(s, Heard(ad));
    DeliveredGrows(s, t);
    assert Counted(t) by {
      UpsertedShows(s.table.entries, ad);
    }
    forall k, i | t.acked <= k < |t.flight| && 0 <= i < |t.tags| && Holds(t.table.entries[i], t.flight[k].entry.address)
      ensures t.flight[k].tag.since >= 1 && InStep(t, t.flight[k], i)
    {
      HeardKeepsInStep(s, ad, k, i);
    }
  }

  lemma HeardKeepsInStep(s: State, ad: Advert, k: nat, i: nat)
    requires Books(s) && FlightInStep(s) && Calm(s, Heard(ad))
    requires s.acked <= k < |s.flight| && i < |s.tags|
    requires Holds(Upserted(s.table.entries, ad)[i], s.flight[k].entry.address)
    ensures s.flight[k].tag.since >= 1 && InStep(Apply(s, Heard(ad)), s.flight[k], i)
  {
    hide SlotBooked, Genuine;
    var es := s.table.entries;
    UpsertedShows(es, ad);
    assert i == SlotFor(es, ad.address) ==> Known(es, ad.address);
    assert Holds(es[i], s.flight[k].entry.address);
    assert InStep(s, s.flight[k], i);
  }

  lemma SnapshotKeepsProtocol(s: State, now: uint32, stale: uint32)
    requires Protocol(s) && Enabled(s, SnapshotTaken(now, stale))
    ensures Protocol(Apply(s, SnapshotTaken(now, stale)))
  {
    var t := Apply(s, SnapshotTaken(now, stale));
    SnapshotKeepsBooks(s, now, stale);
    DeliveredGrows(s, t);
    SnapshotIsDistinct(s, now, stale);
    hide SlotBooked, Delivered, Genuine, InStep, FreshIndices;
    forall k, i | 0 <= k < |t.flight| && 0 <= i < |t.tags| && Holds(t.table.entries[i], t.flight[k].entry.address)
      ensures t.flight[k].tag.since >= 1 && InStep(t, t.flight[k], i)
    {
      SnapshotInStep(s, now, stale, k, i);
    }
  }

  lemma SnapshotIsDistinct(s: State, now: uint32, stale: uint32)
    requires Books(s) && Enabled(s, SnapshotTaken(now, stale))
    ensures var f := Apply(s, SnapshotTaken(now, stale)).flight;
            forall j, k :: 0 <= j < k < |f| ==> f[j].entry.address != f[k].entry.address
  {
    var es := s.table.entries;
    var idx := FreshIndices(es, now, stale);
    FreshIndicesExact(es, now, stale);
    assert forall k :: 0 <= k < |idx| ==> idx[k] in idx;
    hide SlotBooked, Genuine, FreshIndices;
  }

  lemma SnapshotInStep(s: State, now: uint32, stale: uint32, k: nat, i: nat)
    requires Books(s) && Enabled(s, SnapshotTaken(now, stale))
    requires var t := Apply(s, SnapshotTaken(now, stale));
             k < |t.flight| && i < |t.tags| && Holds(t.table.entries[i], t.flight[k].entry.address)
    ensures var t := Apply(s, SnapshotTaken(now, stale)); t.flight[k].tag.since >= 1 && InStep(t, t.flight[k], i)
  {
    var idx := FreshIndices(s.table.entries, now, stale);
    FreshIndicesExact(s.table.entries, now, stale);
    assert idx[k] in idx;
    hide FreshIndices, SlotBooked, Genuine;
    CopyInStep(s, idx[k], i);
  }

  lemma CopyInStep(s: State, x: nat, i: nat)
    requires Books(s) && x < |s.tags| && i < |s.tags|
    requires Pending(s.table.entries[x]) && Holds(s.table.entries[i], s.table.entries[x].address)
    ensures s.tags[x].since >= 1 && InStep(s, Carried(s.table.entries[x], s.tags[x]), i)
  {
    PendingExactly(s, x);
    assert i == x;
  }

  lemma SentKeepsProtocol(s: State, count: nat, ok: bool)
    requires Protocol(s) && Enabled(s, Sent(count, ok))
    ensures Protocol(Apply(s, Sent(count, ok)))
  {
    var t := Apply(s, Sent(count, ok));
    StepKeepsBooks(s, Sent(count, ok));
    DeliveredGrows(s, t);
    if ok {
      forall k | s.sent <= k < t.sent ensures Delivered(t, t.flight[k].tag.stamp) {
        assert t.flight[k] == s.flight[s.sent..t.sent][k - s.sent];
        assert t.flight[k] in t.accepted;
      }
    }
  }

  lemma AckKeepsProtocol(s: State)
    requires Protocol(s) && Enabled(s, Ack)
    ensures Protocol(Apply(s, Ack))
  {
    var t := Apply(s, Ack);
    StepKeepsBooks(s, Ack);
    DeliveredGrows(s, t);
    AckKeepsCounted(s);
    forall k, i | t.acked <= k < |t.flight| && 0 <= i < |t.tags| && Holds(t.table.entries[i], t.flight[k].entry.address)
      ensures t.flight[k].tag.since >= 1 && InStep(t, t.flight[k], i)
    {
      AckKeepsInStep(s, k, i);
    }
  }

  lemma AckKeepsCounted(s: State)
    requires Protocol(s) && Enabled(s, Ack) && Books(Apply(s, Ack))
    ensures Counted(Apply(s, Ack))
  {
    var t := Apply(s, Ack);
    DeliveredGrows(s, t);
    var c := s.flight[s.acked];
    var x := FindIndex(s.table.entries, c.entry.address);
    if x < |s.tags| && s.table.entries[x].updateSeq == c.entry.updateSeq {
      assert InStep(s, c, x);
      assert s.tags[x].since == c.tag.since;
      assert Delivered(t, s.tags[x].stamp);
    }
  }

  lemma AckKeepsInStep(s: State, k: nat, i: nat)
    requires Protocol(s) && Enabled(s, Ack)
    requires s.acked < k < |s.flight| && i < |s.tags|
    requires Holds(Apply(s, Ack).table.entries[i], s.flight[k].entry.address)
    ensures s.flight[k].tag.since >= 1 && InStep(Apply(s, Ack), s.flight[k], i)
  {
    assert Holds(s.table.entries[i], s.flight[k].entry.address);
    assert InStep(s, s.flight[k], i);
    assert i != FindIndex(s.table.entries, s.flight[s.acked].entry.address);
  }

  lemma StepKeepsProtocol(s: State, step: Step)
    requires Protocol(s) && Enabled(s, step) && Calm(s, step)
    ensures Protocol(Apply(s, step))
  {
    match step
    case Heard(ad) => HeardKeepsProtocol(s, ad);
    case SnapshotTaken(now, stale) => SnapshotKeepsProtocol(s, now, stale);
    case Sent(count, ok) => SentKeepsProtocol(s, count, ok);
    case Ack => AckKeepsProtocol(s);
    case Close =>
      StepKeepsBooks(s, step);
      DeliveredGrows(s, Apply(s, step));
  }

  lemma {:induction false} RunKeepsProtocol(s: State, steps: seq<Step>)
    requires Protocol(s) && Possible(s, steps) && CalmRun(s, steps)
    ensures Protocol(Run(s, steps))
    decreases steps
  {
    if steps == [] {
    } else {
      StepKeepsProtocol(s, steps[0]);
      RunKeepsProtocol(Apply(s, steps[0]), steps[1..]);
    }
  }

  /** The delivery guarantee, over every calm interleaving from an empty table:
      a device that is not pending has had exactly the reading it shows carried by an accepted fragment. */
  lemma NotPendingMeansDelivered(slots: nat, steps: seq<Step>, i: nat)
    requires slots > 0 && Possible(Init(slots), steps) && CalmRun(Init(slots), steps)
    requires i < slots
    ensures var s := Run(Init(slots), steps);
            && |s.table.entries| == slots
            && (s.table.entries[i].inUse && !Pending(s.table.entries[i]) ==>
                  exists c :: c in s.accepted && c.tag.stamp == s.tags[i].stamp < |s.history|
                              && Shows(c.entry, s.history[c.tag.stamp])
                                    && Shows(s.table.entries[i], s.history[c.tag.stamp]))
  {
    InitBooks(slots);
    RunKeepsProtocol(Init(slots), steps);
    RunKeepsSlots(Init(slots), steps);
    var s := Run(Init(slots), steps);
    if s.table.entries[i].inUse && !Pending(s.table.entries[i]) {
      PendingExactly(s, i);
      assert SlotBooked(s.table.entries[i], s.tags[i], s.history);
      var c :| c in s.accepted && c.tag.stamp == s.tags[i].stamp;
      assert Genuine(c, s.history);
    }
  }

  lemma {:induction false} RunKeepsSlots(s: State, steps: seq<Step>)
    requires Shaped(s) && Possible(s, steps)
    ensures |Run(s, steps).table.entries| == |s.table.entries|
    decreases steps
  {
    if steps != [] {
      RunKeepsSlots(Apply(s, steps[0]), steps[1..]);
    }
  }

  // ---- Exactly when the guarantee survives a step ----

  /** Recording an advertisement keeps the guarantee if and only if the device is new or its incremented
      counter does not land on the acknowledged one. */
  lemma HeardExactly(s: State, ad: Advert)
    requires Books(s) && Safe(s)
    ensures var es := s.table.entries; var i := FindIndex(es, ad.address);
            Safe(Apply(s, Heard(ad))) <==> (i < |es| ==> Next16(es[i].updateSeq) != es[i].reportedSeq)
  {
    var t := Apply(s, Heard(ad));
    var x := SlotFor(s.table.entries, ad.address);
    UpsertedShows(s.table.entries, ad);
    StepKeepsBooks(s, Heard(ad));
    DeliveredGrows(s, t);
    assert !Delivered(t, |s.history|) by {
      forall c | c in t.accepted ensures c.tag.stamp != |s.history| {
        assert Genuine(c, s.history);
      }
    }
    if Safe(t) {
      assert t.table.entries[x].inUse && t.tags[x].stamp == |s.history|;
      assert Pending(t.table.entries[x]);
    }
  }

  /** Acknowledging keeps the guarantee if and only if the slot it writes, if it writes one, shows a delivered
      reading. The code compares sixteen-bit counters instead; they agree as long as the run was calm. */
  lemma AckExactly(s: State)
    requires Books(s) && Safe(s) && Enabled(s, Ack)
    ensures var c := s.flight[s.acked].entry; var es := s.table.entries; var i := FindIndex(es, c.address);
            Safe(Apply(s, Ack)) <==>
            (i < |es| && es[i].updateSeq == c.updateSeq ==> Delivered(s, s.tags[i].stamp))
  {
    var t := Apply(s, Ack);
    DeliveredGrows(s, t);
    DeliveredGrows(t, s);
    var c := s.flight[s.acked].entry;
    var i := FindIndex(s.table.entries, c.address);
    if Safe(t) && i < |s.tags| && s.table.entries[i].updateSeq == c.updateSeq {
      assert t.table.entries[i].inUse && !Pending(t.table.entries[i]);
    }
  }

  // ---- Neither assumption can be dropped ----

  function Repeat(ad: Advert, n: nat): (r: seq<Step>)
    ensures |r| == n
  {
    seq(n, i => Heard(ad))
  }

  lemma {:induction false} HeardAgainAndAgain(s: State, ad: Advert, n: nat)
    requires Shaped(s) && |s.tags| == 1 && Holds(s.table.entries[0], ad.address)
    ensures Possible(s, Repeat(ad, n))
    ensures var t := Run(s, Repeat(ad, n));
            && |t.tags| == 1 && Holds(t.table.entries[0], ad.address)
            && t.table.entries[0].updateSeq == (s.table.entries[0].updateSeq + n) % WRAP
            && t.table.entries[0].reportedSeq == s.table.entries[0].reportedSeq
            && t.accepted == s.accepted && t.flight == s.flight && t.acked == s.acked
    decreases n
  {
    if n > 0 {
      HeardAgain(s, ad);
      hide Apply, Holds;
      assert Repeat(ad, n)[1..] == Repeat(ad, n - 1);
      HeardAgainAndAgain(Apply(s, Heard(ad)), ad, n - 1);
    }
  }

  lemma HeardAgain(s: State, ad: Advert)
    requires Shaped(s) && |s.tags| == 1 && Holds(s.table.entries[0], ad.address)
    ensures var t := Apply(s, Heard(ad));
            && Shaped(t) && |t.tags| == 1 && Holds(t.table.entries[0], ad.address)
            && t.table.entries[0].updateSeq == (s.table.entries[0].updateSeq + 1) % WRAP
            && t.table.entries[0].reportedSeq == s.table.entries[0].reportedSeq
            && t.accepted == s.accepted && t.flight == s.flight && t.acked == s.acked
  {
    assert FindIndex(s.table.entries, ad.address) == 0;
  }

  /** 2^16 advertisements from one device and not a single uplink: the device no longer looks pending. */
  lemma WrapLosesReading(ad: Advert)
    ensures var steps := Repeat(ad, WRAP);
            Possible(Init(1), steps) && !Safe(Run(Init(1), steps))
  {
    var s := Apply(Init(1), Heard(ad));
    assert Repeat(ad, WRAP)[1..] == Repeat(ad, WRAP - 1);
    HeardAgainAndAgain(s, ad, WRAP - 1);
    var t := Run(s, Repeat(ad, WRAP - 1));
    assert t.table.entries[0].updateSeq == (1 + (WRAP - 1)) % WRAP == 0;
    assert !Delivered(t, t.tags[0].stamp);
    assert Run(Init(1), Repeat(ad, WRAP)) == t;
  }

  /** A device evicted and heard again while its record is in flight restarts its counter at one, so the
      acknowledgement of the old record is taken for the new one, which nobody has sent. */
  lemma EvictAndReturnLosesReading(a: Advert, b: Advert, later: Advert)
    requires a.address == later.address != b.address
    requires a.time <= b.time <= later.time
    ensures var steps := [Heard(a), SnapshotTaken(a.time, 0), Sent(1, true), Heard(b), Heard(later), Ack];
            Possible(Init(1), steps) && !Safe(Run(Init(1), steps))
  {
    var e := Refreshed(BLANK.(address := a.address, inUse := true), a);
    var s1 := State(Table([e], 0), [Tag(0, 1)], [a], 0, [], 0, 0, []);
    var c := Carried(e, Tag(0, 1));
    var s3 := s1.(flight := [c], sent := 1, accepted := [c]);
    StartsAsExpected(a, 0);
    EvictedAndBack(a, b, later);
    var s4 := Apply(s3, Heard(b));
    var s5 := Apply(s4, Heard(later));
    hide Apply, Safe;
    RunLast(s5, Ack);
    RunFirst(s4, Heard(later), [Ack]);
    RunFirst(s3, Heard(b), [Heard(later), Ack]);
    RunFirst(s1.(flight := [c]), Sent(1, true), [Heard(b), Heard(later), Ack]);
    RunFirst(s1, SnapshotTaken(a.time, 0), [Sent(1, true), Heard(b), Heard(later), Ack]);
    RunFirst(Init(1), Heard(a), [SnapshotTaken(a.time, 0), Sent(1, true), Heard(b), Heard(later), Ack]);
  }

  lemma EvictedAndBack(a: Advert, b: Advert, later: Advert)
    requires a.address == later.address != b.address
    requires a.time <= b.time <= later.time
    ensures var e := Refreshed(BLANK.(address := a.address, inUse := true), a);
            var c := Carried(e, Tag(0, 1));
            var s3 := State(Table([e], 0), [Tag(0, 1)], [a], 0, [c], 1, 0, [c]);
            var s5 := Apply(Apply(s3, Heard(b)), Heard(later));
            Enabled(s5, Ack) && Shaped(s5) && Shaped(Apply(s3, Heard(b))) && !Safe(Apply(s5, Ack))
  {
    var e := Refreshed(BLANK.(address := a.address, inUse := true), a);
    var c := Carried(e, Tag(0, 1));
    var s3 := State(Table([e], 0), [Tag(0, 1)], [a], 0, [c], 1, 0, [c]);
    var s5 := Apply(Apply(s3, Heard(b)), Heard(later));
    var s6 := Apply(s5, Ack);
    assert s5.tags == [Tag(2, 1)] && s5.table.entries[0].updateSeq == 1;
    assert s6.tags[0].stamp == 2 && s6.accepted == [c] && !Pending(s6.table.entries[0]);
    assert !Delivered(s6, 2);
  }

  lemma RunLast(s: State, step: Step)
    requires Shaped(s) && Enabled(s, step)
    ensures Possible(s, [step]) && Run(s, [step]) == Apply(s, step)
  {
    ApplyKeepsShape(s, step);
    assert [step][1..] == [];
  }

  lemma RunFirst(s: State, step: Step, rest: seq<Step>)
    requires Shaped(s) && Enabled(s, step) && Shaped(Apply(s, step)) && Possible(Apply(s, step), rest)
    ensures Possible(s, [step] + rest) && Run(s, [step] + rest) == Run(Apply(s, step), rest)
  {
    assert ([step] + rest)[1..] == rest;
  }

  lemma StartsAsExpected(a: Advert, stale: uint32)
    ensures var e := Refreshed(BLANK.(address := a.address, inUse := true), a);
            var c := Carried(e, Tag(0, 1));
            var s1 := State(Table([e], 0), [Tag(0, 1)], [a], 0, [], 0, 0, []);
            && Apply(Init(1), Heard(a)) == s1
            && Apply(s1, SnapshotTaken(a.time, stale)) == s1.(flight := [c])
            && Apply(s1.(flight := [c]), Sent(1, true)) == s1.(flight := [c], sent := 1, accepted := [c])
  {
    var e := Refreshed(BLANK.(address := a.address, inUse := true), a);
    assert FreshIndices([e], a.time, stale) == [0];
  }
}
