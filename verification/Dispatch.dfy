/** One dispatch cycle of the comms thread, as a function of everything it cannot choose. */
module Dispatch {
  import opened Words
  import opened Records
  import opened CommsProtocol
  import opened TableModel
  import opened Seqs

  datatype Config = Config(
    concentratorId: uint32,
    reportBoot: bool,
    staleAfter: uint32,
    heartbeatMaxSilence: uint32)

  /** What the link, the clock and the acquisition thread do during one cycle. Advertisements may land before
      the snapshot takes the lock, before a fragment's header is filled in, and before each acknowledgement;
      the comms thread looks at the table at no other time. Fragments are numbered within the cycle,
      acknowledgements by the position of their entry in the snapshot. */
  datatype Env = Env(
    connected: bool,
    ceiling: uint8,
    available: uint8,
    maxUplinks: uint8,
    snapshotClock: uint32,
    cycleClock: uint32,
    sentClock: nat -> uint32,
    accepts: nat -> bool,
    dropped: nat -> uint16,
    beforeSnapshot: seq<Advert>,
    beforeFragment: nat -> seq<Advert>,
    beforeAck: nat -> seq<Advert>)

  /** The statics of the comms service that outlive a cycle. */
  datatype Comms = Comms(sequence: uint16, bootSent: bool, lastUplink: uint32)

  /** One transmission: an empty probe, or a header with the entries it carries. */
  datatype Uplink =
    | Probe(accepted: bool)
    | Fragment(header: UplinkHeader, carried: seq<Entry>, now: uint32, accepted: bool)

  datatype Outcome = Outcome(table: Table, comms: Comms, uplinks: seq<Uplink>, sent: nat)

  function ToRecord(e: Entry, now: uint32): EndpointRecord {
    EndpointRecord(e.address, e.rssi, Saturate16(Minus32(now, e.lastSeen)), e.reading)
  }

  function ToRecords(es: seq<Entry>, now: uint32): (rs: seq<EndpointRecord>)
    ensures |rs| == |es|
  {
    seq(|es|, i requires 0 <= i < |es| => ToRecord(es[i], now))
  }

  /** The bytes handed to the link. */
  function Payload(u: Uplink): seq<uint8> {
    match u
    case Probe(_) => []
    case Fragment(h, carried, now, _) => EncodeFragment(h, ToRecords(carried, now))
  }

  function Flags(cfg: Config, bootSent: bool, heartbeat: bool): uint8 {
    (if cfg.reportBoot && !bootSent then FLAG_BOOT else 0) + (if heartbeat then FLAG_HEARTBEAT else 0)
  }

  predicate HasBoot(h: UplinkHeader) {
    h.flags % 2 == 1
  }

  predicate HasHeartbeat(h: UplinkHeader) {
    h.flags / 2 % 2 == 1
  }

  function HeaderFor(cfg: Config, c: Comms, evicted: uint16, dropped: uint16,
                     index: uint8, of: uint8, count: uint8, heartbeat: bool): UplinkHeader {
    UplinkHeader(cfg.concentratorId, c.sequence, index, of, count,
                 Saturate8(dropped), Saturate8(evicted), Flags(cfg, c.bootSent, heartbeat))
  }

  /** The table after the first `k` entries of an accepted fragment have been acknowledged; the fragment's
      first entry is at position `first` of the snapshot. */
  function AckedTable(t: Table, es: seq<Entry>, env: Env, first: nat, k: nat): (r: Table)
    requires |t.entries| > 0 && k <= |es|
    ensures |r.entries| == |t.entries|
    decreases k
  {
    if k == 0 then t
    else
      var t1 := AfterAdverts(AckedTable(t, es, env, first, k - 1), env.beforeAck(first + k - 1));
      t1.(entries := Marked(t1.entries, es[k - 1].address, es[k - 1].updateSeq))
  }

  function PerFragment(available: uint8): (n: uint8)
    requires available > HEADER_SIZE
    ensures HEADER_SIZE + RECORD_SIZE * n <= available < HEADER_SIZE + RECORD_SIZE * (n + 1)
  {
    (available - HEADER_SIZE) / RECORD_SIZE
  }

  /** How many fragments this many records need, at most as many as one cycle may send. */
  function FragmentCount(total: nat, perFragment: uint8, maxUplinks: uint8): (n: uint8)
    requires perFragment > 0
    ensures n <= maxUplinks
  {
    var needed := (total + perFragment - 1) / perFragment;
    if needed > maxUplinks then maxUplinks else needed
  }

  /** Where fragment `f` of a snapshot of `total` entries starts, and what it carries. */
  function Start(total: nat, perFragment: nat, f: nat): (s: nat)
    ensures s <= total
    decreases f
  {
    if f == 0 then 0 else Min(total, Start(total, perFragment, f - 1) + perFragment)
  }

  function Piece(snap: seq<Entry>, perFragment: nat, f: nat): (r: seq<Entry>)
    ensures |r| == Start(|snap|, perFragment, f + 1) - Start(|snap|, perFragment, f)
  {
    snap[Start(|snap|, perFragment, f)..Start(|snap|, perFragment, f + 1)]
  }

  lemma PieceIs(snap: seq<Entry>, perFragment: nat, f: nat)
    ensures var s := Start(|snap|, perFragment, f); Piece(snap, perFragment, f) == snap[s..Min(|snap|, s + perFragment)]
  {
    assert Start(|snap|, perFragment, f + 1) == Min(|snap|, Start(|snap|, perFragment, f) + perFragment);
  }

  lemma {:induction false} StartIs(total: nat, perFragment: nat, f: nat)
    ensures Start(total, perFragment, f) == Min(total, perFragment * f)
  {
    if f > 0 {
      StartIs(total, perFragment, f - 1);
      assert perFragment * f == perFragment * (f - 1) + perFragment;
    }
  }

  /** How many of the next `left` fragments the link accepts before its first refusal. */
  function LeadingAccepts(accepts: nat -> bool, index: nat, left: nat): (m: nat)
    ensures m <= left
    ensures m < left ==> !accepts(index + m)
    ensures forall i :: index <= i < index + m ==> accepts(i)
    decreases left
  {
    if left == 0 || !accepts(index) then 0 else 1 + LeadingAccepts(accepts, index + 1, left - 1)
  }

  /** The table once fragments 0 to f-1 have been accepted and acknowledged. */
  function TableAfter(t: Table, env: Env, snap: seq<Entry>, perFragment: nat, f: nat): (r: Table)
    requires |t.entries| > 0
    ensures |r.entries| == |t.entries|
    decreases f
  {
    if f == 0 then t
    else
      var t1 := AfterAdverts(TableAfter(t, env, snap, perFragment, f - 1), env.beforeFragment(f - 1));
      var es := Piece(snap, perFragment, f - 1);
      AckedTable(t1, es, env, Start(|snap|, perFragment, f - 1), |es|)
  }

  /** The table when the header of fragment `f` is filled in. */
  function TableAt(t: Table, env: Env, snap: seq<Entry>, perFragment: nat, f: nat): (r: Table)
    requires |t.entries| > 0
    ensures |r.entries| == |t.entries|
  {
    AfterAdverts(TableAfter(t, env, snap, perFragment, f), env.beforeFragment(f))
  }

  /** Everything about fragment `f` that does not depend on the state of the table. */
  predicate IsFragment(u: Uplink, cfg: Config, c: Comms, env: Env, piece: seq<Entry>, f: nat, of: nat, accepted: bool) {
    && u.Fragment?
    && u.carried == piece
    && u.accepted == accepted
    && u.now == env.cycleClock
    && u.header.concentratorId == cfg.concentratorId
    && u.header.sequence == c.sequence
    && u.header.fragmentIndex == f
    && u.header.fragmentCount == of
    && u.header.recordCount == |piece|
    && u.header.flags == Flags(cfg, c.bootSent, false)
    && u.header.droppedAdvReports == Min(env.dropped(f), 255)
  }

  function UplinkAt(cfg: Config, t: Table, c: Comms, env: Env, snap: seq<Entry>, perFragment: uint8, of: uint8,
                    f: nat): (u: Uplink)
    requires |t.entries| > 0 && f < of
    ensures IsFragment(u, cfg, c, env, Piece(snap, perFragment, f), f, of, env.accepts(f))
  {
    var es := Piece(snap, perFragment, f);
    Fragment(HeaderFor(cfg, c, TableAt(t, env, snap, perFragment, f).evicted, env.dropped(f), f, of, |es|, false),
             es, env.cycleClock, env.accepts(f))
  }

  /** Sends the snapshot fragment by fragment until all allowed ones are out or the link refuses one. */
  function SendFragments(cfg: Config, t: Table, c: Comms, env: Env, snap: seq<Entry>, perFragment: uint8,
                         of: uint8): (r: Outcome)
    requires |t.entries| > 0
    ensures |r.table.entries| == |t.entries|
  {
    var m := LeadingAccepts(env.accepts, 0, of);
    Outcome(
      if m < of then TableAt(t, env, snap, perFragment, m) else TableAfter(t, env, snap, perFragment, of),
      if m == 0 then c else c.(lastUplink := env.sentClock(m - 1)),
      seq(if m < of then m + 1 else m, f requires 0 <= f < of => UplinkAt(cfg, t, c, env, snap, perFragment, of, f)),
      Start(|snap|, perFragment, m))
  }

  /** The fragments of `us` are those of the snapshot up to and including the first one the link refuses. */
  ghost predicate AreFragments(us: seq<Uplink>, cfg: Config, c: Comms, env: Env, snap: seq<Entry>, perFragment: nat,
                               of: nat) {
    var m := LeadingAccepts(env.accepts, 0, of);
    && |us| == (if m < of then m + 1 else m)
    && forall k :: 0 <= k < |us| ==> IsFragment(us[k], cfg, c, env, Piece(snap, perFragment, k), k, of, k < m)
  }

  lemma SendFragmentsAre(cfg: Config, t: Table, c: Comms, env: Env, snap: seq<Entry>, perFragment: uint8, of: uint8)
    requires |t.entries| > 0
    ensures AreFragments(SendFragments(cfg, t, c, env, snap, perFragment, of).uplinks, cfg, c, env, snap, perFragment,
                         of)
  {
    var us := SendFragments(cfg, t, c, env, snap, perFragment, of).uplinks;
    var m := LeadingAccepts(env.accepts, 0, of);
    forall k | 0 <= k < |us| ensures IsFragment(us[k], cfg, c, env, Piece(snap, perFragment, k), k, of, k < m) {
      assert env.accepts(k) == (k < m);
      UplinkAtIs(us[k], cfg, t, c, env, snap, perFragment, of, k, k < m);
    }
  }

  lemma UplinkAtIs(u: Uplink, cfg: Config, t: Table, c: Comms, env: Env, snap: seq<Entry>, perFragment: uint8,
                   of: uint8, f: nat, ok: bool)
    requires |t.entries| > 0 && f < of && u == UplinkAt(cfg, t, c, env, snap, perFragment, of, f)
        && ok == env.accepts(f)
    ensures IsFragment(u, cfg, c, env, Piece(snap, perFragment, f), f, of, ok)
  {
  }

  /** A header without records, under a new sequence number. */
  function SendHeaderOnly(cfg: Config, t: Table, c: Comms, env: Env): (r: Outcome)
    requires |t.entries| > 0
    ensures |r.table.entries| == |t.entries|
  {
    var c1 := c.(sequence := Next16(c.sequence));
    var t1 := AfterAdverts(t, env.beforeFragment(0));
    var header := HeaderFor(cfg, c1, t1.evicted, env.dropped(0), 0, 1, 0, true);
    Outcome(
      t1,
      if env.accepts(0) then c1.(lastUplink := env.sentClock(0), bootSent := true) else c1,
      [Fragment(header, [], env.cycleClock, env.accepts(0))],
      0)
  }

  predicate HeartbeatDue(cfg: Config, c: Comms, now: uint32) {
    cfg.heartbeatMaxSilence != 0 && Minus32(now, c.lastUplink) >= cfg.heartbeatMaxSilence
  }

  function HeartbeatIfDue(cfg: Config, t: Table, c: Comms, env: Env): (r: Outcome)
    requires |t.entries| > 0
    ensures |r.table.entries| == |t.entries|
  {
    if HeartbeatDue(cfg, c, env.cycleClock) then SendHeaderOnly(cfg, t, c, env) else Outcome(t, c, [], 0)
  }

  function SendSnapshot(cfg: Config, t: Table, c: Comms, env: Env, snap: seq<Entry>, perFragment: uint8): (r: Outcome)
    requires |t.entries| > 0 && perFragment > 0
    ensures |r.table.entries| == |t.entries|
  {
    if snap == [] then HeartbeatIfDue(cfg, t, c, env)
    else
      var of := FragmentCount(|snap|, perFragment, env.maxUplinks);
      var o := SendFragments(cfg, t, c.(sequence := Next16(c.sequence)), env, snap, perFragment, of);
      if o.sent > 0 then o.(comms := o.comms.(bootSent := true)) else o
  }

  /** The table and the snapshot a cycle takes, when it takes one. */
  function TableSnapped(t: Table, env: Env): (r: Table)
    requires |t.entries| > 0
    ensures |r.entries| == |t.entries|
  {
    AfterAdverts(t, env.beforeSnapshot)
  }

  function SnapshotOf(cfg: Config, t: Table, env: Env): seq<Entry>
    requires |t.entries| > 0
  {
    Snapshot(TableSnapped(t, env).entries, env.snapshotClock, cfg.staleAfter, |t.entries|)
  }

  predicate RoomForHeader(env: Env) {
    env.connected && env.ceiling > HEADER_SIZE && env.available > HEADER_SIZE
  }

  predicate RoomForRecords(env: Env) {
    RoomForHeader(env) && env.available >= HEADER_SIZE + RECORD_SIZE
  }

  function Cycle(cfg: Config, t: Table, c: Comms, env: Env): (r: Outcome)
    requires |t.entries| > 0
    ensures |r.table.entries| == |t.entries|
  {
    if !env.connected then Outcome(t, c, [], 0)
    else if env.ceiling <= HEADER_SIZE then Outcome(t, c, [Probe(env.accepts(0))], 0)
    else if env.available <= HEADER_SIZE then Outcome(t, c, [], 0)
    else if PerFragment(env.available) == 0 then SendHeaderOnly(cfg, t, c, env)
    else SendSnapshot(cfg, TableSnapped(t, env), c, env, SnapshotOf(cfg, t, env), PerFragment(env.available))
  }

  // ---- Fragmentation ----

  predicate AllAccepted(us: seq<Uplink>) {
    forall k :: 0 <= k < |us| ==> us[k].accepted
  }

  /** The entries of the accepted fragments, in order. */
  function Accepted(us: seq<Uplink>): seq<Entry> {
    if us == [] then [] else Accepted(us[..|us| - 1]) + Taken(us[|us| - 1])
  }

  function Taken(u: Uplink): seq<Entry> {
    if u.Fragment? && u.accepted then u.carried else []
  }

  lemma {:induction false} AcceptedPieces(us: seq<Uplink>, snap: seq<Entry>, perFragment: nat, n: nat)
    requires n <= |us|
    requires forall k :: 0 <= k < n ==>
               us[k].Fragment? && us[k].accepted && us[k].carried == Piece(snap, perFragment, k)
    ensures Accepted(us[..n]) == snap[..Start(|snap|, perFragment, n)]
  {
    if n == 0 {
    } else {
      var m, from, to := n - 1, Start(|snap|, perFragment, n - 1), Start(|snap|, perFragment, n);
      AcceptedPieces(us, snap, perFragment, m);
      assert Taken(us[m]) == snap[from..to] && from <= to;
      assert us[..n][..m] == us[..m] && us[..n][m] == us[m];
      assert Accepted(us[..n]) == Accepted(us[..m]) + Taken(us[m]);
      hide Start, Piece, Accepted, Taken;
      JoinSlices(snap, 0, from, to);
    }
  }

  lemma MulKeepsOrder(p: nat, a: int, b: int)
    requires a <= b
    ensures p * a <= p * b
  {
  }

  lemma DivisionRoundsUp(total: nat, p: nat)
    requires p > 0 && total > 0
    ensures var q := (total + p - 1) / p; p * q >= total && p * (q - 1) < total
  {
    var q := (total + p - 1) / p;
    assert total + p - 1 == p * q + (total + p - 1) % p;
    assert p * (q - 1) == p * q - p;
  }

  /** No fragment the count allows for is empty, and together they carry all there is room for. */
  lemma FragmentCountFits(total: nat, perFragment: uint8, maxUplinks: uint8, f: nat)
    requires perFragment > 0 && total > 0
    ensures var n := FragmentCount(total, perFragment, maxUplinks);
            && (f < n ==>
                  Start(total, perFragment, f) < Start(total, perFragment, f + 1)
                  <= Start(total, perFragment, f) + perFragment)
            && Start(total, perFragment, n) == Min(total, perFragment * n) == Min(total, perFragment * maxUplinks)
            && (n > 0 <==> maxUplinks > 0)
  {
    var n := FragmentCount(total, perFragment, maxUplinks);
    var needed := (total + perFragment - 1) / perFragment;
    DivisionRoundsUp(total, perFragment);
    StartIs(total, perFragment, n);
    if f < n {
      MulKeepsOrder(perFragment, f, needed - 1);
      StartIs(total, perFragment, f);
    }
    if needed <= maxUplinks {
      MulKeepsOrder(perFragment, needed, maxUplinks);
    } else {
      assert n == maxUplinks;
    }
  }

  /** The shape of a cycle's fragments: non-empty, numbered from zero out of a common count, and only the last
      of them can have been refused. */
  ghost predicate WellFragmented(us: seq<Uplink>, of: nat, perFragment: nat) {
    && |us| <= of
    && (forall k :: 0 <= k < |us| ==> WellFormed(us[k], k, of, perFragment))
    && (forall k :: 0 <= k < |us| - 1 ==> us[k].accepted)
  }

  predicate WellFormed(u: Uplink, k: nat, of: nat, perFragment: nat) {
    && u.Fragment?
    && u.header.fragmentIndex == k
    && u.header.fragmentCount == of
    && u.header.recordCount == |u.carried|
    && 1 <= |u.carried| <= perFragment
    && !HasHeartbeat(u.header)
  }

  predicate LastCarries(us: seq<Uplink>, es: seq<Entry>) {
    |us| > 0 && us[|us| - 1].Fragment? && us[|us| - 1].carried == es
  }

  /** What a cycle that took a non-empty snapshot has transmitted: the accepted fragments carry a prefix of the
      snapshot; each fragment is non-empty, carries its own index out of a common count and fits both the payload
      read and the buffer; only the last one can have been refused, and it carries what follows that prefix; and
      when none was refused, exactly min(total, perFragment * maxUplinks) records have gone out. */
  ghost predicate Fragmentation(us: seq<Uplink>, sent: nat, snap: seq<Entry>, available: uint8, maxUplinks: uint8,
                                p: uint8) {
    && p >= 1
    && 12 + 26 * p <= available <= 255
    && WellFragmented(us, FragmentCount(|snap|, p, maxUplinks), p)
    && (forall u :: u in us ==> |Payload(u)| == 12 + 26 * |u.carried| <= available)
    && sent <= |snap|
    && Accepted(us) == snap[..sent]
    && (AllAccepted(us) ==>
          |us| == FragmentCount(|snap|, p, maxUplinks) && sent == Min(|snap|, p * |us|) == Min(|snap|, p * maxUplinks))
    && (!AllAccepted(us) ==> LastCarries(us, snap[sent..Min(|snap|, sent + p)]))
  }

  /** Fragmentation, for every snapshot, payload limit, packet allowance and answer of the link. */
  lemma CycleFragments(cfg: Config, t: Table, c: Comms, env: Env)
    requires |t.entries| > 0 && RoomForRecords(env) && SnapshotOf(cfg, t, env) != []
    ensures var o := Cycle(cfg, t, c, env);
            Fragmentation(o.uplinks, o.sent, SnapshotOf(cfg, t, env), env.available, env.maxUplinks,
                          PerFragment(env.available))
  {
    SnapshotFragments(cfg, TableSnapped(t, env), c.(sequence := Next16(c.sequence)), env, SnapshotOf(cfg, t, env));
  }

  lemma SnapshotFragments(cfg: Config, t: Table, c: Comms, env: Env, snap: seq<Entry>)
    requires |t.entries| > 0 && snap != [] && RoomForRecords(env)
    ensures var p := PerFragment(env.available);
            var o := SendFragments(cfg, t, c, env, snap, p, FragmentCount(|snap|, p, env.maxUplinks));
            Fragmentation(o.uplinks, o.sent, snap, env.available, env.maxUplinks, p)
  {
    var p := PerFragment(env.available);
    var of := FragmentCount(|snap|, p, env.maxUplinks);
    SendFragmentsAre(cfg, t, c, env, snap, p, of);
    Fragmented(SendFragments(cfg, t, c, env, snap, p, of).uplinks, cfg, c, env, snap, p, of);
  }

  lemma Fragmented(us: seq<Uplink>, cfg: Config, c: Comms, env: Env, snap: seq<Entry>, p: uint8, of: nat)
    requires snap != [] && p > 0 && of == FragmentCount(|snap|, p, env.maxUplinks)
    requires HEADER_SIZE + RECORD_SIZE * p <= env.available
    requires AreFragments(us, cfg, c, env, snap, p, of)
    ensures Fragmentation(us, Start(|snap|, p, LeadingAccepts(env.accepts, 0, of)), snap, env.available,
                          env.maxUplinks, p)
  {
    hide Payload, Start, FragmentCount, Piece;
    forall k | 0 <= k < |us|
      ensures WellFormed(us[k], k, of, p) && us[k].accepted == (k < LeadingAccepts(env.accepts, 0, of))
    {
      FragmentCountFits(|snap|, p, env.maxUplinks, k);
      FragmentIsWellFormed(us[k], cfg, c, env, Piece(snap, p, k), k, of, k < LeadingAccepts(env.accepts, 0, of), p);
    }
    forall u | u in us ensures |Payload(u)| == HEADER_SIZE + RECORD_SIZE * |u.carried| <= env.available {
      PayloadLength(u);
    }
    FragmentsCarryPrefix(us, cfg, c, env, snap, p, of);
  }

  lemma FragmentIsWellFormed(u: Uplink, cfg: Config, c: Comms, env: Env, piece: seq<Entry>, f: nat, of: nat, ok: bool,
                             p: nat)
    requires IsFragment(u, cfg, c, env, piece, f, of, ok) && 1 <= |piece| <= p
    ensures WellFormed(u, f, of, p)
  {
  }

  lemma PayloadLength(u: Uplink)
    ensures |Payload(u)| == if u.Fragment? then HEADER_SIZE + RECORD_SIZE * |u.carried| else 0
  {
    if u.Fragment? {
      FragmentRoundTrip(u.header, ToRecords(u.carried, u.now));
    }
  }

  /** What a fragment list says about acceptance and contents. */
  ghost predicate AreCut(us: seq<Uplink>, snap: seq<Entry>, p: nat, m: nat) {
    forall k :: 0 <= k < |us| ==> us[k].Fragment? && us[k].accepted == (k < m) && us[k].carried == Piece(snap, p, k)
  }

  lemma FragmentsAreCut(us: seq<Uplink>, cfg: Config, c: Comms, env: Env, snap: seq<Entry>, p: nat, of: nat)
    requires AreFragments(us, cfg, c, env, snap, p, of)
    ensures var m := LeadingAccepts(env.accepts, 0, of); AreCut(us, snap, p, m) && |us| == (if m < of then m + 1 else m)
  {
    var m := LeadingAccepts(env.accepts, 0, of);
    forall k | 0 <= k < |us|
      ensures us[k].Fragment? && us[k].accepted == (k < m) && us[k].carried == Piece(snap, p, k)
    {
      assert IsFragment(us[k], cfg, c, env, Piece(snap, p, k), k, of, k < m);
    }
  }

  lemma FragmentsCarryPrefix(us: seq<Uplink>, cfg: Config, c: Comms, env: Env, snap: seq<Entry>, p: uint8, of: nat)
    requires snap != [] && p > 0 && of == FragmentCount(|snap|, p, env.maxUplinks)
    requires AreFragments(us, cfg, c, env, snap, p, of)
    ensures var sent := Start(|snap|, p, LeadingAccepts(env.accepts, 0, of));
            && Accepted(us) == snap[..sent]
            && (AllAccepted(us) ==> |us| == of && sent == Min(|snap|, p * of) == Min(|snap|, p * env.maxUplinks))
            && (!AllAccepted(us) ==> LastCarries(us, snap[sent..Min(|snap|, sent + p)]))
  {
    hide Start, AreFragments, AreCut, Accepted, AllAccepted, LastCarries, FragmentCount;
    var m := LeadingAccepts(env.accepts, 0, of);
    FragmentsAreCut(us, cfg, c, env, snap, p, of);
    FragmentCountFits(|snap|, p, env.maxUplinks, 0);
    CutCarriesPrefix(us, snap, p, m, |us|);
  }

  lemma CutCarriesPrefix(us: seq<Uplink>, snap: seq<Entry>, p: nat, m: nat, n: nat)
    requires AreCut(us, snap, p, m) && |us| == n && m <= n <= m + 1
    ensures var sent := Start(|snap|, p, m);
            && Accepted(us) == snap[..sent]
            && (m == n <==> AllAccepted(us))
            && (m < n ==> LastCarries(us, snap[sent..Min(|snap|, sent + p)]))
  {
    hide Piece, Start;
    AcceptedPieces(us, snap, p, m);
    if m == n {
      assert us[..m] == us;
    } else {
      assert us[m].carried == Piece(snap, p, m) && !us[m].accepted;
      assert n - 1 == m && Taken(us[m]) == [];
      assert Accepted(us) == Accepted(us[..m]) + [];
      PieceIs(snap, p, m);
    }
  }
}
