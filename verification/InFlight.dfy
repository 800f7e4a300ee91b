/** A send succeeds when the kernel takes the bytes. Readings whose bytes are still on their way when the connection
    dies have been acknowledged and never arrive. */
module InFlight {
  import opened Words
  import opened Records
  import opened CommsProtocol
  import opened TableModel
  import opened Dispatch
  import opened CycleTrace
  import opened Histories
  import opened Runs
  import opened SocketLink
  import opened EndToEnd
  import opened OneRecord
  import Delivery
  import DeliveryExact

  /** A cycle on a TCP link that hears one advertisement before its snapshot. */
  function HearingOne(ad: Advert, maxFragment: uint8): Env {
    Env(true, maxFragment, maxFragment, UINT8_MAX, ad.time, ad.time, i => ad.time, i => true, i => 0,
        [ad], i => [], i => [])
  }

  /** The device's slot after its advertisement and after its acknowledgement. */
  function HeardEntry(ad: Advert): Entry {
    Refreshed(BLANK.(address := ad.address, inUse := true), ad)
  }

  lemma HeardAlone(ad: Advert, maxFragment: uint8)
    ensures var t := Delivery.Init(1).table;
            |t.entries| == 1 && TableSnapped(t, HearingOne(ad, maxFragment)) == Table([HeardEntry(ad)], 0)
  {
    var t := Delivery.Init(1).table;
    var x := AfterAdvert(t, ad);
    assert t.entries == [BLANK] && t.evicted == 0;
    assert x == Table([HeardEntry(ad)], 0);
    assert [ad][1..] == [] && AfterAdverts(x, []) == x;
  }

  lemma DeliversOne(cfg: Config, c: Comms, ad: Advert, maxFragment: uint8)
    requires maxFragment >= HEADER_SIZE + RECORD_SIZE
    ensures var t := Delivery.Init(1).table;
            && |t.entries| == 1
            && var o := Cycle(cfg, t, c, HearingOne(ad, maxFragment));
            && o.table.entries == [HeardEntry(ad).(reportedSeq := 1)]
            && |o.uplinks| == 1 && o.uplinks[0].Fragment? && o.uplinks[0].accepted
            && o.uplinks[0].carried == [HeardEntry(ad)]
  {
    hide Cycle;
    HeardAlone(ad, maxFragment);
    NoAge(ad.time);
    SingleCycle(cfg, Delivery.Init(1).table, c, HearingOne(ad, maxFragment));
  }

  // ---- That cycle is a sound run ----

  lemma StepsOfOne(cfg: Config, c: Comms, ad: Advert, maxFragment: uint8)
    requires maxFragment >= HEADER_SIZE + RECORD_SIZE
    ensures var t := Delivery.Init(1).table;
            && |t.entries| == 1
            && CycleSteps(cfg, t, c, HearingOne(ad, maxFragment))
               == [Delivery.Heard(ad), Delivery.SnapshotTaken(ad.time, cfg.staleAfter), Delivery.Sent(1, true),
                   Delivery.Ack, Delivery.Close]
  {
    hide AfterAdverts, Snapshot;
    var t, env := Delivery.Init(1).table, HearingOne(ad, maxFragment);
    HeardAlone(ad, maxFragment);
    NoAge(ad.time);
    FirstLeads([HeardEntry(ad)], ad.time, cfg.staleAfter);
    var snap, p := SnapshotOf(cfg, t, env), PerFragment(maxFragment);
    assert |snap| == 1;
    OneCount(1, p, UINT8_MAX);
    assert Piece(snap, p, 0) == snap;
    assert LeadingAccepts(env.accepts, 0, 1) == 1;
    assert HeardSteps([]) == [] && [ad][1..] == [];
    assert HeardSteps([ad]) == [Delivery.Heard(ad)];
    assert AckSteps(env, 0, 0) == [];
    assert AckSteps(env, 0, 1) == [Delivery.Ack];
    assert OneFragmentSteps(env, snap, p, 0) == [Delivery.Sent(1, true), Delivery.Ack];
    assert FragmentSteps(env, snap, p, 0) == [];
    assert FragmentSteps(env, snap, p, 1) == [Delivery.Sent(1, true), Delivery.Ack];
  }

  lemma SoundFirst(s: Delivery.State, step: Delivery.Step, rest: seq<Delivery.Step>)
    requires Delivery.Shaped(s) && Delivery.Enabled(s, step) && Delivery.Shaped(Delivery.Apply(s, step))
    requires Delivery.Possible(Delivery.Apply(s, step), rest)
    requires DeliveryExact.Sound(s, step) && DeliveryExact.SoundThroughout(Delivery.Apply(s, step), rest)
    ensures Delivery.Possible(s, [step] + rest) && DeliveryExact.SoundThroughout(s, [step] + rest)
  {
    assert ([step] + rest)[1..] == rest;
  }

  lemma OneIsSound(ad: Advert, stale: uint32)
    ensures var s := Delivery.Init(1);
            var steps := [Delivery.Heard(ad), Delivery.SnapshotTaken(ad.time, stale), Delivery.Sent(1, true),
                          Delivery.Ack, Delivery.Close];
            Delivery.Shaped(s) && Delivery.Possible(s, steps) && DeliveryExact.SoundThroughout(s, steps)
  {
    var c := Delivery.Carried(HeardEntry(ad), Delivery.Tag(0, 1));
    var s1 := Delivery.State(Table([HeardEntry(ad)], 0), [Delivery.Tag(0, 1)], [ad], 0, [], 0, 0, []);
    Delivery.StartsAsExpected(ad, stale);
    var s3 := s1.(flight := [c], sent := 1, accepted := [c]);
    var s4 := Delivery.Apply(s3, Delivery.Ack);
    hide Delivery.Apply;
    assert [Delivery.Close] + [] == [Delivery.Close];
    SoundFirst(s4, Delivery.Close, []);
    SoundFirst(s3, Delivery.Ack, [Delivery.Close]);
    SoundFirst(s1.(flight := [c]), Delivery.Sent(1, true), [Delivery.Ack, Delivery.Close]);
    SoundFirst(s1, Delivery.SnapshotTaken(ad.time, stale), [Delivery.Sent(1, true), Delivery.Ack, Delivery.Close]);
    SoundFirst(Delivery.Init(1), Delivery.Heard(ad),
               [Delivery.SnapshotTaken(ad.time, stale), Delivery.Sent(1, true), Delivery.Ack, Delivery.Close]);
  }

  // ---- And yet ----

  /** What the link accepted in this cycle, and a server whose first read finds the connection gone. */
  function Unread(u: Uplink): Session {
    Session([u], [Attempted(Payload(u), NoError)], [Connection(true, []), Connection(true, Payload(u))], [[]])
  }

  lemma UnreadCarries(u: Uplink, maxFragment: uint8)
    requires u.accepted && |Payload(u)| <= maxFragment
    ensures Transported([u], maxFragment, [Unread(u)])
    ensures forall p, a, r, v :: !HasAt([Unread(u)], p, a, r, v)
  {
    hide Payload;
    var x := [Unread(u)];
    assert x[..0] == [] && Handed([]) == [] && Handed(x) == Handed([]) + [u];
    assert [] + Payload(u) == Payload(u);
    assert Carries(Unread(u), maxFragment);
    assert Fragments(Unread(u)) == [];
  }

  lemma HistoryOfOne(cfg: Config, c: Comms, ad: Advert, maxFragment: uint8)
    requires maxFragment >= HEADER_SIZE + RECORD_SIZE
    ensures var t := Delivery.Init(1).table; var env := HearingOne(ad, maxFragment);
            && |t.entries| == 1
            && var outs := [Cycle(cfg, t, c, env)];
            && IsHistory(cfg, t, c, [env], outs)
            && AllUplinks(outs) == outs[0].uplinks
            && AllSteps(cfg, t, c, [env], outs) == CycleSteps(cfg, t, c, env)
            && OverSocket([env], maxFragment)
  {
    hide Cycle, CycleSteps;
    HeardAlone(ad, maxFragment);
    var t := Delivery.Init(1).table;
    var outs := [Cycle(cfg, t, c, HearingOne(ad, maxFragment))];
    assert outs[..0] == [] && AllUplinks([]) == [];
    assert AllUplinks(outs) == [] + outs[0].uplinks;
    assert StepsOf(cfg, t, c, [HearingOne(ad, maxFragment)], outs, 0) == [];
  }

  /** A sound run that loses a reading between the link and the server: everything `NoReadingIsLost` asks for but that
      the server catches up. The device is not pending, and the server has nothing. */
  lemma BytesInFlightAreLost(cfg: Config, c: Comms, ad: Advert, maxFragment: uint8)
    returns (envs: seq<Env>, outs: seq<Outcome>, sessions: seq<Session>)
    requires maxFragment >= HEADER_SIZE + RECORD_SIZE
    ensures Deployed(1, cfg, c, envs, outs, maxFragment, sessions) && SoundHistory(1, cfg, c, envs, outs)
    ensures var e := EntryAt(1, c, outs, 0); e.inUse && !Pending(e) && Shows(e, ad)
    ensures !ServerHas(sessions, ad.address, ad.rssi, ad.reading)
  {
    hide Cycle, CycleSteps, DeliveryExact.SoundThroughout, Delivery.Possible, Transported, IsHistory, AllSteps, HasAt;
    var t, env := Delivery.Init(1).table, HearingOne(ad, maxFragment);
    HistoryOfOne(cfg, c, ad, maxFragment);
    DeliversOne(cfg, c, ad, maxFragment);
    StepsOfOne(cfg, c, ad, maxFragment);
    OneIsSound(ad, cfg.staleAfter);
    var o := Cycle(cfg, t, c, env);
    var u := o.uplinks[0];
    envs, outs, sessions := [env], [o], [Unread(u)];
    PayloadLength(u);
    UnreadCarries(u, maxFragment);
    assert o.uplinks == [u];
  }
}
