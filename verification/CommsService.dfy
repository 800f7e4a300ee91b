/** The comms service itself: the statics, the fragment buffer and the loops, proved to do what `Dispatch`
    says, whatever the acquisition thread does to the shared table in between. */
module CommsService {
  import opened Words
  import opened Records
  import opened CommsProtocol
  import opened TableModel
  import opened Dispatch
  import DeviceTable

  /** What was handed to the link, and whether it was accepted. */
  datatype Transmission = Transmission(payload: seq<uint8>, accepted: bool)

  function OnAir(us: seq<Uplink>): (r: seq<Transmission>)
    ensures |r| == |us|
  {
    seq(|us|, i requires 0 <= i < |us| => Transmission(Payload(us[i]), us[i].accepted))
  }

  const BUFFER_SIZE: nat := 255

  class CommsService {
    const cfg: Config
    const table: DeviceTable.DeviceTable
    const buffer: array<uint8>
    var sequence: uint16
    var bootSent: bool
    var lastUplink: uint32
    var air: seq<Transmission>

    ghost predicate Valid()
      reads this, table
    {
      && table.Valid()
      && table.staleAfter == cfg.staleAfter
      && buffer.Length == BUFFER_SIZE
    }

    ghost function Statics(): (c: Comms)
      reads this
    {
      Comms(sequence, bootSent, lastUplink)
    }

    constructor (cfg: Config, table: DeviceTable.DeviceTable)
      requires table.Valid() && table.staleAfter == cfg.staleAfter
      ensures Valid() && fresh(buffer) && this.cfg == cfg && this.table == table
      ensures Statics() == Comms(0, false, 0) && air == []
    {
      this.cfg := cfg;
      this.table := table;
      buffer := new uint8[BUFFER_SIZE](_ => 0);
      sequence, bootSent, lastUplink := 0, false, 0;
      air := [];
    }

    method CopyIn(offset: nat, bytes: seq<uint8>)
      requires offset + |bytes| <= buffer.Length
      modifies buffer
      ensures buffer[..offset + |bytes|] == old(buffer[..offset]) + bytes
    {
      var k := 0;
      while k < |bytes|
        invariant k <= |bytes|
        invariant buffer[..offset] == old(buffer[..offset])
        invariant buffer[offset..offset + k] == bytes[..k]
      {
        buffer[offset + k] := bytes[k];
        k := k + 1;
      }
      assert buffer[..offset + |bytes|] == buffer[..offset] + buffer[offset..offset + |bytes|];
    }

    /** Lays the header and the records out in the buffer. */
    method BuildFragment(header: UplinkHeader, entries: seq<Entry>, now: uint32) returns (length: nat)
      requires buffer.Length == BUFFER_SIZE && HEADER_SIZE + RECORD_SIZE * |entries| <= BUFFER_SIZE
      modifies buffer
      ensures length == HEADER_SIZE + RECORD_SIZE * |entries|
      ensures buffer[..length] == EncodeFragment(header, ToRecords(entries, now))
    {
      CopyIn(0, EncodeHeader(header));
      length := HEADER_SIZE;
      var i := 0;
      assert ToRecords(entries[..0], now) == [];
      while i < |entries|
        invariant i <= |entries| && length == HEADER_SIZE + RECORD_SIZE * i
        invariant buffer[..length] == EncodeFragment(header, ToRecords(entries[..i], now))
      {
        var record := EncodeRecord(ToRecord(entries[i], now));
        EncodeOneMore(header, entries, now, i);
        CopyIn(length, record);
        length := length + RECORD_SIZE;
        i := i + 1;
      }
      assert entries[..i] == entries;
    }

    method SendFragment(entries: seq<Entry>, first: nat, index: uint8, of: uint8, now: uint32, heartbeat: bool,
                        env: Env)
      returns (ok: bool)
      requires Valid() && HEADER_SIZE + RECORD_SIZE * |entries| <= BUFFER_SIZE
      modifies this`lastUplink, this`air, buffer, table, table.entries
      ensures Valid() && ok == env.accepts(index)
      ensures var t := AfterAdverts(old(table.Contents()), env.beforeFragment(index));
              && table.Contents() == (if ok then AckedTable(t, entries, env, first, |entries|) else t)
              && air == old(air) + [Transmission(
                           EncodeFragment(HeaderFor(cfg, old(Statics()), t.evicted, env.dropped(index), index, of,
                                                    |entries|, heartbeat),
                                          ToRecords(entries, now)), ok)]
      ensures Statics() == old(Statics()).(lastUplink := if ok then env.sentClock(index) else old(lastUplink))
    {
      hide AfterAdverts, AckedTable, EncodeFragment, ToRecords;
      table.Interfere(env.beforeFragment(index));
      ghost var t := table.Contents();
      var flags: uint8 := 0;
      if cfg.reportBoot && !bootSent {
        flags := flags + FLAG_BOOT;
      }
      if heartbeat {
        flags := flags + FLAG_HEARTBEAT;
      }
      var header := UplinkHeader(cfg.concentratorId, sequence, index, of, |entries|,
                                 Saturate8(env.dropped(index)), Saturate8(table.evictedCount), flags);
      var length := BuildFragment(header, entries, now);
      ok := env.accepts(index);
      air := air + [Transmission(buffer[..length], ok)];
      if !ok {
        return;
      }
      AcknowledgeAll(entries, first, env);
      lastUplink := env.sentClock(index);
    }

    /** Acknowledges what left the device, one entry at a time. */
    method AcknowledgeAll(entries: seq<Entry>, first: nat, env: Env)
      requires Valid()
      modifies table, table.entries
      ensures Valid()
      ensures table.Contents() == AckedTable(old(table.Contents()), entries, env, first, |entries|)
    {
      hide AfterAdverts, Marked;
      ghost var t := table.Contents();
      var k := 0;
      while k < |entries|
        invariant k <= |entries| && Valid()
        invariant table.Contents() == AckedTable(t, entries, env, first, k)
      {
        table.Interfere(env.beforeAck(first + k));
        table.MarkReported(entries[k].address, entries[k].updateSeq);
        k := k + 1;
      }
    }

    /** The service and the table are where the outcome says, and the link was handed its uplinks, in order. */
    ghost predicate Did(o: Outcome, airBefore: seq<Transmission>)
      reads this, table, table.entries
    {
      && Valid()
      && table.Contents() == o.table
      && Statics() == o.comms
      && air == airBefore + OnAir(o.uplinks)
    }

    method SendHeader(env: Env)
      requires Valid()
      modifies this`sequence, this`bootSent, this`lastUplink, this`air, buffer, table, table.entries
      ensures Did(SendHeaderOnly(cfg, old(table.Contents()), old(Statics()), env), old(air))
    {
      hide AfterAdverts, EncodeFragment, HeaderFor;
      sequence := Next16(sequence);
      ghost var t := AfterAdverts(table.Contents(), env.beforeFragment(0));
      var ok := SendFragment([], 0, 0, 1, env.cycleClock, true, env);
      if ok {
        bootSent := true;
      }
      assert AckedTable(t, [], env, 0, 0) == t;
    }

    method SendHeartbeatIfDue(env: Env)
      requires Valid()
      modifies this`sequence, this`bootSent, this`lastUplink, this`air, buffer, table, table.entries
      ensures Did(HeartbeatIfDue(cfg, old(table.Contents()), old(Statics()), env), old(air))
    {
      hide SendHeaderOnly;
      if cfg.heartbeatMaxSilence == 0 {
        return;
      }
      var silent := Minus32(env.cycleClock, lastUplink);
      if silent < cfg.heartbeatMaxSilence {
        return;
      }
      SendHeader(env);
    }

    /** The fragment loop: stops at the first refusal. */
    method SendAllFragments(snap: seq<Entry>, perFragment: uint8, of: uint8, env: Env) returns (sent: nat)
      requires Valid() && 0 < perFragment && HEADER_SIZE + RECORD_SIZE * perFragment <= BUFFER_SIZE
      modifies this`lastUplink, this`air, buffer, table, table.entries
      ensures var o := SendFragments(cfg, old(table.Contents()), old(Statics()), env, snap, perFragment, of);
              Did(o, old(air)) && sent == o.sent
    {
      hide AfterAdverts, AckedTable, EncodeFragment, HeaderFor, ToRecords, Aired, SendFragments, OnAir, Start, Piece,
          TableAfter;
      ghost var t, c, before := table.Contents(), Statics(), air;
      sent := 0;
      var index := 0;
      NothingAired(cfg, t, c, env, snap, perFragment, of);
      while index < of
        invariant index <= of && Valid()
        invariant sent == Start(|snap|, perFragment, index)
        invariant forall j :: 0 <= j < index ==> env.accepts(j)
        invariant table.Contents() == TableAfter(t, env, snap, perFragment, index)
        invariant air == before + Aired(cfg, t, c, env, snap, perFragment, of, index)
        invariant Statics() == c.(lastUplink := if index == 0 then c.lastUplink else env.sentClock(index - 1))
      {
        var remaining := |snap| - sent;
        var count := if remaining > perFragment then perFragment else remaining;
        FragmentStep(t, env, snap, perFragment, index);
        AiredStep(cfg, t, c, Statics(), env, snap, perFragment, of, index);
        var ok := SendFragment(snap[sent..sent + count], sent, index, of, env.cycleClock, false, env);
        if !ok {
          break;
        }
        sent := sent + count;
        index := index + 1;
      }
      AiredIsOnAir(cfg, t, c, env, snap, perFragment, of, index);
    }

    /** One dispatch cycle. */
    method Dispatch(env: Env)
      requires Valid()
      modifies this`sequence, this`bootSent, this`lastUplink, this`air, buffer, table, table.entries
      ensures Did(Cycle(cfg, old(table.Contents()), old(Statics()), env), old(air))
    {
      hide AfterAdverts, SendFragments, HeartbeatIfDue, SendHeaderOnly, OnAir, Snapshot, HeaderFor, EncodeFragment,
           TableAt, TableAfter, UplinkAt, Piece, Start, DeviceTable.DeviceTable.Valid;
      NothingOnAir();
      ghost var t, c, before := table.Contents(), Statics(), air;
      if !env.connected {
        return;
      }
      if env.ceiling <= HEADER_SIZE {
        air := air + [Transmission([], env.accepts(0))];
        ProbeOnAir(env.accepts(0));
        return;
      }
      if env.available <= HEADER_SIZE {
        return;
      }
      var perFragment := (env.available - HEADER_SIZE) / RECORD_SIZE;
      if perFragment == 0 {
        SendHeader(env);
        return;
      }
      table.Interfere(env.beforeSnapshot);
      var snap := table.TakeSnapshot(env.snapshotClock, table.entries.Length);
      if |snap| == 0 {
        SendHeartbeatIfDue(env);
        return;
      }
      sequence := Next16(sequence);
      var needed := (|snap| + perFragment - 1) / perFragment;
      var of := if needed > env.maxUplinks then env.maxUplinks else needed;
      var sent := SendAllFragments(snap, perFragment, of, env);
      if sent > 0 {
        bootSent := true;
      }
    }
  }

  /** The first `f` fragments of a snapshot, as handed to the link. */
  function Aired(cfg: Config, t: Table, c: Comms, env: Env, snap: seq<Entry>, perFragment: uint8, of: uint8,
                 f: nat): (r: seq<Transmission>)
    requires |t.entries| > 0 && f <= of
    ensures |r| == f
  {
    seq(f, i requires 0 <= i < f => Transmission(Payload(UplinkAt(cfg, t, c, env, snap, perFragment, of, i)),
                                                 env.accepts(i)))
  }

  lemma FragmentStep(t: Table, env: Env, snap: seq<Entry>, perFragment: uint8, f: nat)
    requires |t.entries| > 0
    ensures var first := Start(|snap|, perFragment, f); var es := Piece(snap, perFragment, f);
            && Start(|snap|, perFragment, f + 1) == Min(|snap|, first + perFragment)
            && es == snap[first..Min(|snap|, first + perFragment)]
            && TableAfter(t, env, snap, perFragment, f + 1)
                  == AckedTable(TableAt(t, env, snap, perFragment, f), es, env, first, |es|)
  {
    hide AckedTable, AfterAdverts;
    PieceIs(snap, perFragment, f);
  }

  /** Fragment `f` as it is built from statics that still hold this cycle's sequence number and boot flag. */
  lemma AiredStep(cfg: Config, t: Table, c: Comms, now: Comms, env: Env, snap: seq<Entry>, perFragment: uint8,
                  of: uint8, f: nat)
    requires |t.entries| > 0 && f < of && now.sequence == c.sequence && now.bootSent == c.bootSent
    requires |Piece(snap, perFragment, f)| <= UINT8_MAX
    ensures var es := Piece(snap, perFragment, f);
            var header := HeaderFor(cfg, now, TableAt(t, env, snap, perFragment, f).evicted, env.dropped(f), f, of,
                                    |es|, false);
            Aired(cfg, t, c, env, snap, perFragment, of, f + 1) ==
            Aired(cfg, t, c, env, snap, perFragment, of, f) +
            [Transmission(EncodeFragment(header, ToRecords(es, env.cycleClock)), env.accepts(f))]
  {
    hide EncodeFragment, ToRecords, TableAt;
    assert Aired(cfg, t, c, env, snap, perFragment, of, f + 1)[f].payload
        == Payload(UplinkAt(cfg, t, c, env, snap, perFragment, of, f));
  }

  lemma NothingOnAir()
    ensures OnAir([]) == []
  {
  }

  lemma ProbeOnAir(ok: bool)
    ensures OnAir([Probe(ok)]) == [Transmission([], ok)]
  {
  }

  lemma NothingAired(cfg: Config, t: Table, c: Comms, env: Env, snap: seq<Entry>, perFragment: uint8, of: uint8)
    requires |t.entries| > 0
    ensures Aired(cfg, t, c, env, snap, perFragment, of, 0) == []
    ensures Start(|snap|, perFragment, 0) == 0 && TableAfter(t, env, snap, perFragment, 0) == t
  {
  }

  lemma AiredIsOnAir(cfg: Config, t: Table, c: Comms, env: Env, snap: seq<Entry>, perFragment: uint8, of: uint8, m: nat)
    requires |t.entries| > 0 && m <= of && (forall j :: 0 <= j < m ==> env.accepts(j)) && (m < of ==> !env.accepts(m))
    ensures var o := SendFragments(cfg, t, c, env, snap, perFragment, of);
            && o.sent == Start(|snap|, perFragment, m)
            && o.comms == c.(lastUplink := if m == 0 then c.lastUplink else env.sentClock(m - 1))
            && o.table == (if m < of then TableAt(t, env, snap, perFragment, m)
                           else TableAfter(t, env, snap, perFragment, of))
            && OnAir(o.uplinks) == Aired(cfg, t, c, env, snap, perFragment, of, if m < of then m + 1 else m)
  {
    hide Payload, UplinkAt, TableAt, TableAfter, Start;
    assert LeadingAccepts(env.accepts, 0, of) == m;
  }

  lemma EncodeOneMore(header: UplinkHeader, entries: seq<Entry>, now: uint32, i: nat)
    requires i < |entries|
    ensures EncodeFragment(header, ToRecords(entries[..i + 1], now)) ==
            EncodeFragment(header, ToRecords(entries[..i], now)) + EncodeRecord(ToRecord(entries[i], now))
  {
    hide EncodeRecord, EncodeHeader, ToRecord;
    var rs, before := ToRecords(entries[..i + 1], now), ToRecords(entries[..i], now);
    var parts := seq(|rs|, j requires 0 <= j < |rs| => EncodeRecord(rs[j]));
    assert parts[..i] == seq(|before|, j requires 0 <= j < |before| => EncodeRecord(before[j]));
    assert EncodeRecords(rs) == EncodeRecords(before) + EncodeRecord(rs[i]);
  }
}
