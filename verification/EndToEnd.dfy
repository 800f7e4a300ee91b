/** The whole way of a reading: from the table, through any number of dispatch cycles and any number of TCP
    connections, each cut into arbitrary writes and reads, to the record the server decodes. */
module EndToEnd {
  import opened Words
  import opened Records
  import opened CommsProtocol
  import opened TableModel
  import opened Dispatch
  import opened CycleTrace
  import opened Histories
  import opened Runs
  import opened UplinkReceiver
  import opened SocketLink
  import opened Seqs
  import Delivery
  import DeliveryExact

  // ---- What one accepted uplink decodes to ----

  /** An uplink whose header tells the truth about what it carries. */
  predicate Truthful(u: Uplink) {
    u.Fragment? && u.header.recordCount == |u.carried| <= MAX_PLAUSIBLE_RECORDS
  }

  /** The server's fragment says what the uplink carried. */
  predicate Reads(f: Fragment, u: Uplink) {
    && u.Fragment?
    && f.header == u.header
    && |f.records| == |u.carried|
    && forall k :: 0 <= k < |f.records| ==>
         |f.records[k]| == RECORD_SIZE && DecodeRecord(f.records[k]) == ToRecord(u.carried[k], u.now)
  }

  lemma {:induction false} RecordsAreSplit(data: seq<uint8>, n: nat)
    requires HEADER_SIZE + RECORD_SIZE * n <= |data|
    ensures RecordsOf(data, RECORD_SIZE, n) == Split(data[HEADER_SIZE..HEADER_SIZE + RECORD_SIZE * n], n)
  {
    if n > 0 {
      RecordsAreSplit(data, n - 1);
      var b := data[HEADER_SIZE..HEADER_SIZE + RECORD_SIZE * n];
      var at := RECORD_SIZE * (n - 1);
      assert b[..at] == data[HEADER_SIZE..HEADER_SIZE + at];
      assert b[at..] == data[FragmentSize(n - 1, RECORD_SIZE)..FragmentSize(n, RECORD_SIZE)];
    }
  }

  lemma PayloadReads(u: Uplink)
    requires Truthful(u)
    ensures IsFragmentData(Payload(u), RECORD_SIZE)
    ensures var p := ParseFragment(Payload(u), RECORD_SIZE); p.Ok? && Reads(p.value, u)
  {
    hide EncodeFragment, DecodeRecord, ToRecord;
    var rs := ToRecords(u.carried, u.now);
    var data := Payload(u);
    FragmentRoundTrip(u.header, rs);
    assert data[COUNT_AT] == DecodeHeader(data).recordCount == |rs|;
    RecordsAreSplit(data, |rs|);
    assert data[HEADER_SIZE..] == data[HEADER_SIZE..HEADER_SIZE + RECORD_SIZE * |rs|];
    var f := ParseFragment(data, RECORD_SIZE).value;
    forall k | 0 <= k < |rs| ensures |f.records[k]| == RECORD_SIZE && DecodeRecord(f.records[k]) == rs[k] {
      assert f.records[k] in f.records;
      assert DecodeRecords(data[HEADER_SIZE..], |rs|)[k] == rs[k];
    }
  }

  // ---- A TCP link ----

  /** The link of every cycle is a socket link: what it can carry is its fragment size, whenever it is up. */
  predicate OverSocket(envs: seq<Env>, maxFragment: uint8) {
    forall i :: 0 <= i < |envs| && envs[i].connected ==> envs[i].ceiling == envs[i].available == maxFragment
  }

  predicate AllTruthful(us: seq<Uplink>) {
    forall i :: 0 <= i < |us| ==> Truthful(us[i])
  }

  lemma CycleIsTruthful(cfg: Config, t: Table, c: Comms, env: Env)
    requires |t.entries| > 0 && env.ceiling > HEADER_SIZE
    ensures AllTruthful(Cycle(cfg, t, c, env).uplinks)
  {
    hide AfterAdverts, SendFragments, TableAfter, TableAt, UplinkAt;
    if RoomForRecords(env) && SnapshotOf(cfg, t, env) != [] {
      var snap, p := SnapshotOf(cfg, t, env), PerFragment(env.available);
      var of := FragmentCount(|snap|, p, env.maxUplinks);
      var c1 := c.(sequence := Next16(c.sequence));
      var us := SendFragments(cfg, TableSnapped(t, env), c1, env, snap, p, of).uplinks;
      SendFragmentsAre(cfg, TableSnapped(t, env), c1, env, snap, p, of);
      forall k | 0 <= k < |us| ensures Truthful(us[k]) {
        assert IsFragment(us[k], cfg, c1, env, Piece(snap, p, k), k, of, k < LeadingAccepts(env.accepts, 0, of));
        PieceIs(snap, p, k);
      }
    }
  }

  lemma {:induction false} CyclesAreTruthful(cfg: Config, t: Table, c: Comms, envs: seq<Env>, outs: seq<Outcome>,
                                             maxFragment: uint8, n: nat)
    requires IsHistory(cfg, t, c, envs, outs) && n <= |outs|
    requires maxFragment > HEADER_SIZE && OverSocket(envs, maxFragment)
    ensures AllTruthful(AllUplinks(outs[..n]))
  {
    hide IsHistory, Cycle, Truthful, Before;
    if n > 0 {
      var m := n - 1;
      HistoryStep(cfg, t, c, envs, outs, m);
      var (now, statics) := Before(t, c, outs, m);
      CyclesAreTruthful(cfg, t, c, envs, outs, maxFragment, m);
      assert outs[..n][..m] == outs[..m];
      if envs[m].connected {
        CycleIsTruthful(cfg, now, statics, envs[m]);
      } else {
        UnconnectedIsQuiet(cfg, now, statics, envs[m]);
      }
    }
  }

  lemma UnconnectedIsQuiet(cfg: Config, t: Table, c: Comms, env: Env)
    requires |t.entries| > 0 && !env.connected
    ensures Cycle(cfg, t, c, env).uplinks == []
  {
  }

  // ---- Connections ----

  /** One connection: the uplinks handed to it, their sends, its states, and what the server has read of it so far.
      The server may have stopped reading anywhere, and so may the bytes: a send succeeds when the kernel takes
      them, whether or not they ever arrive. */
  datatype Session = Session(us: seq<Uplink>, sends: seq<Attempted>, states: seq<Connection>, chunks: seq<seq<uint8>>)

  /** An uplink counts as accepted when its send succeeds. */
  predicate SentAs(us: seq<Uplink>, sends: seq<Attempted>) {
    && |us| == |sends|
    && forall i :: 0 <= i < |us| ==> sends[i].data == Payload(us[i]) && (sends[i].result == NoError <==> us[i].accepted)
  }

  ghost predicate Carries(s: Session, maxFragment: uint8) {
    && SentAs(s.us, s.sends)
    && Sends(s.sends, maxFragment, s.states)
    && Received(s.chunks) <= s.states[|s.sends|].bytes
  }

  function Handed(sessions: seq<Session>): seq<Uplink> {
    if sessions == [] then [] else Handed(sessions[..|sessions| - 1]) + sessions[|sessions| - 1].us
  }

  /** The uplinks went out over these connections, one after the other. */
  ghost predicate Transported(us: seq<Uplink>, maxFragment: uint8, sessions: seq<Session>) {
    && us == Handed(sessions)
    && forall x :: 0 <= x < |sessions| ==> Carries(sessions[x], maxFragment)
  }

  lemma {:induction false} HandedAre(sessions: seq<Session>)
    ensures forall u :: u in Handed(sessions) <==> exists x :: 0 <= x < |sessions| && u in sessions[x].us
    decreases |sessions|
  {
    if sessions != [] {
      var n := |sessions| - 1;
      HandedAre(sessions[..n]);
      assert forall x :: 0 <= x < n ==> sessions[..n][x] == sessions[x];
    }
  }

  function AcceptedOnes(us: seq<Uplink>): seq<Uplink> {
    if us == [] then [] else AcceptedOnes(us[..|us| - 1]) + if us[|us| - 1].accepted then [us[|us| - 1]] else []
  }

  lemma {:induction false} DeliveredAre(us: seq<Uplink>, sends: seq<Attempted>)
    requires SentAs(us, sends)
    ensures |Succeeded(sends)| == |AcceptedOnes(us)|
    ensures forall i :: 0 <= i < |AcceptedOnes(us)| ==> Succeeded(sends)[i] == Payload(AcceptedOnes(us)[i])
    decreases us
  {
    hide Payload;
    if us != [] {
      DeliveredAre(us[..|us| - 1], sends[..|us| - 1]);
    }
  }

  lemma {:induction false} AcceptedOnesAre(us: seq<Uplink>)
    ensures forall u :: u in AcceptedOnes(us) <==> u in us && u.accepted
    ensures forall e :: e in Accepted(us) <==> exists u :: u in AcceptedOnes(us) && e in Taken(u)
    decreases us
  {
    if us != [] {
      var n := |us| - 1;
      AcceptedOnesAre(us[..n]);
      assert us == us[..n] + [us[n]];
      assert us[n].accepted ==> us[n] in AcceptedOnes(us);
      forall e | e in Accepted(us) ensures exists u :: u in AcceptedOnes(us) && e in Taken(u) {
        if e in Accepted(us[..n]) {
          var u :| u in AcceptedOnes(us[..n]) && e in Taken(u);
          assert u in AcceptedOnes(us);
        }
      }
    }
  }

  /** The fragments the server has decoded of this connection. */
  function Fragments(s: Session): seq<Fragment> {
    Serve(s.chunks, [], RECORD_SIZE).0
  }

  /** Of every connection the server has decoded, in order and without losing sync, exactly the accepted uplinks
      covered by the bytes it has read: their headers and every field of every record they carried. */
  lemma ServerReadsAcceptedUplinks(s: Session, maxFragment: uint8)
    requires Carries(s, maxFragment) && AllTruthful(s.us)
    ensures var fs, us := Fragments(s), AcceptedOnes(s.us);
            && !Serve(s.chunks, [], RECORD_SIZE).1
            && |fs| <= |us| == |Succeeded(s.sends)|
            && (forall i :: 0 <= i < |fs| ==> Reads(fs[i], us[i]))
            && (forall i :: 0 <= i < |us| ==> (i < |fs| <==> Covers(Received(s.chunks), Succeeded(s.sends), i)))
  {
    hide Payload, IsFragmentData, Serve, ParseFragment, Reads, Covers;
    forall a | a in s.sends ensures IsFragmentData(a.data, RECORD_SIZE) {
      var i :| 0 <= i < |s.sends| && s.sends[i] == a;
      PayloadReads(s.us[i]);
    }
    StreamDeliversAcceptedSends(s.sends, maxFragment, s.states, s.chunks, RECORD_SIZE);
    DeliveredAre(s.us, s.sends);
    AcceptedOnesAre(s.us);
    forall i | 0 <= i < |Fragments(s)| ensures Reads(Fragments(s)[i], AcceptedOnes(s.us)[i]) {
      assert AcceptedOnes(s.us)[i] in AcceptedOnes(s.us);
      PayloadReads(AcceptedOnes(s.us)[i]);
    }
  }

  lemma SessionsAreTruthful(us: seq<Uplink>, maxFragment: uint8, sessions: seq<Session>, x: nat)
    requires Transported(us, maxFragment, sessions) && AllTruthful(us) && x < |sessions|
    ensures AllTruthful(sessions[x].us)
  {
    HandedAre(sessions);
    forall i | 0 <= i < |sessions[x].us| ensures Truthful(sessions[x].us[i]) {
      assert sessions[x].us[i] in us;
    }
  }

  predicate Says(record: seq<uint8>, address: Address, rssi: int8, reading: Reading) {
    && |record| == RECORD_SIZE
    && var r := DecodeRecord(record);
       r.address == address && r.rssi == rssi && r.reading == reading
  }

  /** Where an entry was sent: the connection, which of its accepted uplinks, and which of that uplink's records. */
  datatype Place = Place(session: nat, uplink: nat, record: nat)

  predicate SentAt(sessions: seq<Session>, p: Place, e: Entry) {
    && p.session < |sessions|
    && var us := AcceptedOnes(sessions[p.session].us);
    && p.uplink < |us| && us[p.uplink].Fragment? && p.record < |us[p.uplink].carried|
    && us[p.uplink].carried[p.record] == e
  }

  /** The server has decoded a record there, and it says this. */
  predicate HasAt(sessions: seq<Session>, p: Place, address: Address, rssi: int8, reading: Reading) {
    && p.session < |sessions|
    && var fs := Fragments(sessions[p.session]);
    && p.uplink < |fs| && p.record < |fs[p.uplink].records|
    && Says(fs[p.uplink].records[p.record], address, rssi, reading)
  }

  predicate ReadUpTo(sessions: seq<Session>, p: Place) {
    && p.session < |sessions|
    && var s := sessions[p.session];
    && p.uplink < |Succeeded(s.sends)|
    && Covers(Received(s.chunks), Succeeded(s.sends), p.uplink)
  }

  lemma AcceptedWasSent(us: seq<Uplink>, maxFragment: uint8, sessions: seq<Session>, e: Entry) returns (p: Place)
    requires Transported(us, maxFragment, sessions) && e in Accepted(us)
    ensures SentAt(sessions, p, e)
  {
    AcceptedOnesAre(us);
    HandedAre(sessions);
    var u :| u in AcceptedOnes(us) && e in Taken(u);
    var x :| 0 <= x < |sessions| && u in sessions[x].us;
    AcceptedOnesAre(sessions[x].us);
    var j :| 0 <= j < |AcceptedOnes(sessions[x].us)| && AcceptedOnes(sessions[x].us)[j] == u;
    var k :| 0 <= k < |u.carried| && u.carried[k] == e;
    p := Place(x, j, k);
  }

  /** What was sent somewhere is what the server has there, once it has read so far, and not before. */
  lemma SentIsReadExactly(us: seq<Uplink>, maxFragment: uint8, sessions: seq<Session>, p: Place, e: Entry)
    requires Transported(us, maxFragment, sessions) && AllTruthful(us) && SentAt(sessions, p, e)
    ensures HasAt(sessions, p, e.address, e.rssi, e.reading) <==> ReadUpTo(sessions, p)
  {
    var s := sessions[p.session];
    SessionsAreTruthful(us, maxFragment, sessions, p.session);
    ServerReadsAcceptedUplinks(s, maxFragment);
    if p.uplink < |Fragments(s)| {
      assert Reads(Fragments(s)[p.uplink], AcceptedOnes(s.us)[p.uplink]);
    }
  }

  // ---- The two theorems ----

  lemma InitialState(slots: nat)
    requires slots > 0
    ensures var s := Delivery.Init(slots);
            && Delivery.Shaped(s) && Between(s) && |s.table.entries| == slots
            && Entries(s.accepted) == []
  {
  }

  /** A history of cycles from an empty table, over socket links, carried by these connections. */
  ghost predicate Deployed(slots: nat, cfg: Config, c: Comms, envs: seq<Env>, outs: seq<Outcome>,
                           maxFragment: uint8, sessions: seq<Session>) {
    && slots > 0 && maxFragment > HEADER_SIZE && OverSocket(envs, maxFragment)
    && IsHistory(cfg, Delivery.Init(slots).table, c, envs, outs)
    && Transported(AllUplinks(outs), maxFragment, sessions)
  }

  /** No counter comes round and no acknowledgement meets a newer reading; see `DeliveryExact`. */
  ghost predicate SoundHistory(slots: nat, cfg: Config, c: Comms, envs: seq<Env>, outs: seq<Outcome>)
    requires IsHistory(cfg, Delivery.Init(slots).table, c, envs, outs)
  {
    var s := Delivery.Init(slots);
    var steps := AllSteps(cfg, s.table, c, envs, outs);
    Delivery.Shaped(s) && Delivery.Possible(s, steps) && DeliveryExact.SoundThroughout(s, steps)
  }

  function EntryAt(slots: nat, c: Comms, outs: seq<Outcome>, i: nat): Entry {
    var es := LastTable(Delivery.Init(slots).table, c, outs).entries;
    if i < |es| then es[i] else BLANK
  }

  lemma DeployedIsTruthful(slots: nat, cfg: Config, c: Comms, envs: seq<Env>, outs: seq<Outcome>,
                           maxFragment: uint8, sessions: seq<Session>)
    requires Deployed(slots, cfg, c, envs, outs, maxFragment, sessions)
    ensures AllTruthful(AllUplinks(outs))
  {
    CyclesAreTruthful(cfg, Delivery.Init(slots).table, c, envs, outs, maxFragment, |outs|);
    assert outs[..|outs|] == outs;
  }

  /** The purpose of the whole pipeline. Over any number of cycles from an empty table, with advertisements landing
      anywhere in between, the link refusing whatever it likes and connections breaking: if the run is sound, as
      every calm run is, then the very reading the table shows of a device that is not pending was sent, and the
      server has it if and only if it has read that far. */
  lemma AcknowledgedWasSent(slots: nat, cfg: Config, c: Comms, envs: seq<Env>, outs: seq<Outcome>,
                            maxFragment: uint8, sessions: seq<Session>, i: nat) returns (p: Place, sent: Entry)
    requires Deployed(slots, cfg, c, envs, outs, maxFragment, sessions) && SoundHistory(slots, cfg, c, envs, outs)
    requires var e := EntryAt(slots, c, outs, i); e.inUse && !Pending(e)
    ensures SentAt(sessions, p, sent)
    ensures var e := EntryAt(slots, c, outs, i);
            && sent.address == e.address && sent.rssi == e.rssi && sent.reading == e.reading
                  && sent.lastSeen == e.lastSeen
            && (HasAt(sessions, p, e.address, e.rssi, e.reading) <==> ReadUpTo(sessions, p))
  {
    hide SoundHistory, Accepted, SentAt, HasAt, ReadUpTo, OverSocket, Transported, IsHistory;
    DeployedIsTruthful(slots, cfg, c, envs, outs, maxFragment, sessions);
    sent := NotPendingIsAccepted(slots, cfg, c, envs, outs, i);
    p := AcceptedWasSent(AllUplinks(outs), maxFragment, sessions, sent);
    SentIsReadExactly(AllUplinks(outs), maxFragment, sessions, p, sent);
  }

  lemma NotPendingIsAccepted(slots: nat, cfg: Config, c: Comms, envs: seq<Env>, outs: seq<Outcome>, i: nat)
    returns (a: Entry)
    requires slots > 0 && IsHistory(cfg, Delivery.Init(slots).table, c, envs, outs)
    requires SoundHistory(slots, cfg, c, envs, outs)
    requires var e := EntryAt(slots, c, outs, i); e.inUse && !Pending(e)
    ensures a in Accepted(AllUplinks(outs))
    ensures var e := EntryAt(slots, c, outs, i);
            a.address == e.address && a.rssi == e.rssi && a.reading == e.reading && a.lastSeen == e.lastSeen
  {
    var s := Delivery.Init(slots);
    InitialState(slots);
    hide DeliveryExact.SoundThroughout, Delivery.Possible, Delivery.Init, Accepted, AllUplinks, AllSteps, LastTable,
        IsHistory;
    var steps := AllSteps(cfg, s.table, c, envs, outs);
    var r := CyclesLead(s, cfg, c, envs, outs);
    var x := DeliveryExact.SoundMeansDelivered(slots, steps, i);
    AcceptedIn(s, r, AllUplinks(outs), x);
    a := x.entry;
  }

  lemma AcceptedIn(s: Delivery.State, r: Delivery.State, us: seq<Uplink>, x: Delivery.Carried)
    requires Entries(s.accepted) == [] && Entries(r.accepted) == Entries(s.accepted) + Accepted(us)
    requires x in r.accepted
    ensures x.entry in Accepted(us)
  {
    var k :| 0 <= k < |r.accepted| && r.accepted[k] == x;
    assert Entries(r.accepted)[k] == x.entry;
    assert [] + Accepted(us) == Accepted(us);
  }

  /** The server has read everything the link accepted, on every connection. */
  predicate CaughtUp(sessions: seq<Session>) {
    forall x :: 0 <= x < |sessions| ==> |Concat(Succeeded(sessions[x].sends))| <= |Received(sessions[x].chunks)|
  }

  ghost predicate ServerHas(sessions: seq<Session>, address: Address, rssi: int8, reading: Reading) {
    exists p: Place :: HasAt(sessions, p, address, rssi, reading)
  }

  lemma CaughtUpReadsAll(sessions: seq<Session>, p: Place, maxFragment: uint8, e: Entry)
    requires CaughtUp(sessions) && SentAt(sessions, p, e) && Carries(sessions[p.session], maxFragment)
    ensures ReadUpTo(sessions, p)
  {
    var s := sessions[p.session];
    var sent := Succeeded(s.sends);
    DeliveredAre(s.us, s.sends);
    ConcatGrows(sent, p.uplink + 1, |sent|);
    assert sent[..|sent|] == sent;
  }

  /** So once the server has read what the link accepted, no reading is lost: of every device that is not pending
      it has the very reading the table shows. */
  lemma NoReadingIsLost(slots: nat, cfg: Config, c: Comms, envs: seq<Env>, outs: seq<Outcome>,
                        maxFragment: uint8, sessions: seq<Session>, i: nat)
    requires Deployed(slots, cfg, c, envs, outs, maxFragment, sessions) && SoundHistory(slots, cfg, c, envs, outs)
    requires CaughtUp(sessions)
    ensures var e := EntryAt(slots, c, outs, i);
            e.inUse && !Pending(e) ==> ServerHas(sessions, e.address, e.rssi, e.reading)
  {
    hide SoundHistory, HasAt, ReadUpTo, EntryAt, Carries, CaughtUp;
    var e := EntryAt(slots, c, outs, i);
    if e.inUse && !Pending(e) {
      var p, sent := AcknowledgedWasSent(slots, cfg, c, envs, outs, maxFragment, sessions, i);
      CaughtUpReadsAll(sessions, p, maxFragment, sent);
    }
  }

  /** There is a record at this place of what the server has decoded. */
  predicate HasRecord(sessions: seq<Session>, p: Place) {
    && p.session < |sessions|
    && var fs := Fragments(sessions[p.session]);
       p.uplink < |fs| && p.record < |fs[p.uplink].records|
  }

  function RecordAt(sessions: seq<Session>, p: Place): seq<uint8>
    requires HasRecord(sessions, p)
  {
    Fragments(sessions[p.session])[p.uplink].records[p.record]
  }

  /** Everything heard during the history. */
  ghost function HeardIn(slots: nat, cfg: Config, c: Comms, envs: seq<Env>, outs: seq<Outcome>): seq<Advert>
    requires IsHistory(cfg, Delivery.Init(slots).table, c, envs, outs)
  {
    var s := Delivery.Init(slots);
    var steps := AllSteps(cfg, s.table, c, envs, outs);
    if Delivery.Shaped(s) && Delivery.Possible(s, steps) then Delivery.Run(s, steps).history else []
  }

  /** And nothing the server reads was made up: every record repeats an advertisement that was heard, in any run,
      however far the server has read. */
  lemma NothingIsInvented(slots: nat, cfg: Config, c: Comms, envs: seq<Env>, outs: seq<Outcome>,
                          maxFragment: uint8, sessions: seq<Session>, p: Place) returns (n: nat)
    requires Deployed(slots, cfg, c, envs, outs, maxFragment, sessions) && HasRecord(sessions, p)
    ensures n < |HeardIn(slots, cfg, c, envs, outs)|
    ensures var ad := HeardIn(slots, cfg, c, envs, outs)[n];
            Says(RecordAt(sessions, p), ad.address, ad.rssi, ad.reading)
  {
    hide OverSocket, IsHistory, Delivery.Books, Leads;
    var s := Delivery.Init(slots);
    InitialState(slots);
    var r := CyclesLead(s, cfg, c, envs, outs);
    Delivery.InitBooks(slots);
    Delivery.RunKeepsBooks(s, AllSteps(cfg, s.table, c, envs, outs));
    DeployedIsTruthful(slots, cfg, c, envs, outs, maxFragment, sessions);
    var e := DecodedWasAccepted(AllUplinks(outs), maxFragment, sessions, p);
    n := HeardOnce(s, r, AllUplinks(outs), e);
  }

  lemma DecodedWasAccepted(us: seq<Uplink>, maxFragment: uint8, sessions: seq<Session>, p: Place) returns (e: Entry)
    requires Transported(us, maxFragment, sessions) && AllTruthful(us) && HasRecord(sessions, p)
    ensures e in Accepted(us) && Says(RecordAt(sessions, p), e.address, e.rssi, e.reading)
  {
    var s := sessions[p.session];
    SessionsAreTruthful(us, maxFragment, sessions, p.session);
    ServerReadsAcceptedUplinks(s, maxFragment);
    var u := AcceptedOnes(s.us)[p.uplink];
    assert Reads(Fragments(s)[p.uplink], u);
    AcceptedOnesAre(s.us);
    assert u in AcceptedOnes(s.us);
    HandedAre(sessions);
    AcceptedOnesAre(us);
    e := u.carried[p.record];
    assert e in Taken(u);
  }

  lemma HeardOnce(s: Delivery.State, r: Delivery.State, us: seq<Uplink>, e: Entry) returns (n: nat)
    requires Delivery.Books(r)
    requires Entries(s.accepted) == [] && Entries(r.accepted) == Entries(s.accepted) + Accepted(us)
    requires e in Accepted(us)
    ensures n < |r.history| && Shows(e, r.history[n])
  {
    assert [] + Accepted(us) == Accepted(us);
    var k :| 0 <= k < |Entries(r.accepted)| && Entries(r.accepted)[k] == e;
    assert r.accepted[k] in r.accepted;
    assert Delivery.Genuine(r.accepted[k], r.history);
    n := r.accepted[k].tag.stamp;
  }
}
