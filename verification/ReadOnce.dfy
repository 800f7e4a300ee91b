/** Every record the server decodes stands for an advertisement of its own. */
module ReadOnce {
  import opened Words
  import opened Records
  import opened Dispatch
  import opened CycleTrace
  import opened Histories
  import opened Runs
  import opened EndToEnd
  import opened AtMostOnce
  import Delivery

  // ---- Places as positions in everything that was accepted ----

  lemma {:induction false} AcceptedSkipsRefused(us: seq<Uplink>)
    ensures Accepted(AcceptedOnes(us)) == Accepted(us)
    decreases |us|
  {
    if us != [] {
      var n := |us| - 1;
      AcceptedSkipsRefused(us[..n]);
      var front := AcceptedOnes(us[..n]);
      if us[n].accepted {
        assert AcceptedOnes(us)[..|front|] == front;
      } else {
        assert AcceptedOnes(us) == front && Accepted(us) == Accepted(us[..n]);
      }
    }
  }

  lemma AcceptedFront(us: seq<Uplink>, i: nat)
    requires i <= |us|
    ensures Accepted(us[..i]) <= Accepted(us)
  {
    hide Accepted;
    AcceptedOfBoth(us[..i], us[i..]);
    assert us[..i] + us[i..] == us;
  }

  lemma AcceptedPrefix(us: seq<Uplink>, i: nat, j: nat)
    requires i <= j <= |us|
    ensures Accepted(us[..i]) <= Accepted(us[..j]) <= Accepted(us)
  {
    hide Accepted;
    AcceptedFront(us, j);
    AcceptedFront(us[..j], i);
    assert us[..j][..i] == us[..i];
  }

  /** Where the entries of the `j`-th uplink are among all the accepted ones. */
  lemma AcceptedAt(us: seq<Uplink>, j: nat, k: nat)
    requires j < |us| && k < |Taken(us[j])|
    ensures var n := |Accepted(us[..j])| + k;
            n < |Accepted(us[..j + 1])| && n < |Accepted(us)| && Accepted(us)[n] == Taken(us[j])[k]
  {
    AcceptedPrefix(us, j, j + 1);
    assert us[..j + 1][..j] == us[..j];
    assert Accepted(us[..j + 1]) == Accepted(us[..j]) + Taken(us[j]);
  }

  lemma {:induction false} HandedPrefix(sessions: seq<Session>, x: nat, y: nat)
    requires x <= y <= |sessions|
    ensures Accepted(Handed(sessions[..x])) <= Accepted(Handed(sessions[..y]))
    decreases y
  {
    if x < y {
      HandedPrefix(sessions, x, y - 1);
      HandedNext(sessions, y - 1);
    }
  }

  lemma HandedNext(sessions: seq<Session>, x: nat)
    requires x < |sessions|
    ensures Accepted(Handed(sessions[..x + 1])) == Accepted(Handed(sessions[..x])) + Accepted(sessions[x].us)
  {
    assert sessions[..x + 1][..x] == sessions[..x];
    AcceptedOfBoth(Handed(sessions[..x]), sessions[x].us);
  }

  /** The position of a place among everything that was accepted. */
  function Position(sessions: seq<Session>, p: Place): nat {
    if p.session < |sessions| && p.uplink <= |AcceptedOnes(sessions[p.session].us)| then
      |Accepted(Handed(sessions[..p.session]))|
      + |Accepted(AcceptedOnes(sessions[p.session].us)[..p.uplink])| + p.record
    else 0
  }

  lemma {:induction false} OnesAreAccepted(us: seq<Uplink>, j: nat)
    requires j < |AcceptedOnes(us)|
    ensures AcceptedOnes(us)[j].accepted
    decreases |us|
  {
    var n := |us| - 1;
    if j < |AcceptedOnes(us[..n])| {
      OnesAreAccepted(us[..n], j);
    }
  }

  lemma WithinSession(us: seq<Uplink>, j: nat, k: nat)
    requires j < |AcceptedOnes(us)| && AcceptedOnes(us)[j].Fragment? && k < |AcceptedOnes(us)[j].carried|
    ensures var n := |Accepted(AcceptedOnes(us)[..j])| + k;
            n < |Accepted(us)| && Accepted(us)[n] == AcceptedOnes(us)[j].carried[k]
  {
    hide AcceptedOnes, Accepted;
    var ones := AcceptedOnes(us);
    OnesAreAccepted(us, j);
    assert Taken(ones[j]) == ones[j].carried;
    hide Taken;
    AcceptedAt(ones, j, k);
    AcceptedSkipsRefused(us);
  }

  lemma AtInPrefix(before: seq<Entry>, here: seq<Entry>, all: seq<Entry>, n: nat)
    requires before + here <= all && n < |here|
    ensures |before| + n < |before + here| <= |all| && all[|before| + n] == here[n]
  {
    assert (before + here)[|before| + n] == here[n];
  }

  lemma PositionIs(sessions: seq<Session>, p: Place, e: Entry)
    requires SentAt(sessions, p, e)
    ensures var all := Accepted(Handed(sessions)); var n := Position(sessions, p);
            n < |Accepted(Handed(sessions[..p.session + 1]))| <= |all| && all[n] == e
  {
    hide Accepted, Handed, AcceptedOnes;
    var us := sessions[p.session].us;
    WithinSession(us, p.uplink, p.record);
    HandedNext(sessions, p.session);
    HandedPrefix(sessions, p.session + 1, |sessions|);
    assert sessions[..|sessions|] == sessions;
    AtInPrefix(Accepted(Handed(sessions[..p.session])), Accepted(us), Accepted(Handed(sessions)),
               |Accepted(AcceptedOnes(us)[..p.uplink])| + p.record);
  }

  /** Whether a place comes before another. */
  predicate Earlier(p: Place, q: Place) {
    || p.session < q.session
    || (p.session == q.session && p.uplink < q.uplink)
    || (p.session == q.session && p.uplink == q.uplink && p.record < q.record)
  }

  lemma PositionsGrow(sessions: seq<Session>, p: Place, q: Place, d: Entry, e: Entry)
    requires SentAt(sessions, p, d) && SentAt(sessions, q, e) && Earlier(p, q)
    ensures Position(sessions, p) < Position(sessions, q)
  {
    if p.session < q.session {
      PositionIs(sessions, p, d);
      HandedPrefix(sessions, p.session + 1, q.session);
    } else if p.uplink < q.uplink {
      var us := AcceptedOnes(sessions[p.session].us);
      OnesAreAccepted(sessions[p.session].us, p.uplink);
      assert Taken(us[p.uplink]) == us[p.uplink].carried;
      AcceptedAt(us, p.uplink, p.record);
      AcceptedPrefix(us, p.uplink + 1, q.uplink);
    }
  }

  // ---- The advertisement a place stands for ----

  /** Which of the advertisements heard the record at this place carries. */
  ghost function AdvertAt(slots: nat, cfg: Config, c: Comms, envs: seq<Env>, outs: seq<Outcome>,
                          sessions: seq<Session>, p: Place): nat
    requires IsHistory(cfg, Delivery.Init(slots).table, c, envs, outs)
  {
    var s := Delivery.Init(slots);
    var steps := AllSteps(cfg, s.table, c, envs, outs);
    if Delivery.Shaped(s) && Delivery.Possible(s, steps) then
      var r := Delivery.Run(s, steps);
      if Position(sessions, p) < |r.accepted| then r.accepted[Position(sessions, p)].tag.stamp else 0
    else 0
  }

  /** The entry that was sent where a record is decoded. */
  lemma DecodedWasSent(us: seq<Uplink>, maxFragment: uint8, sessions: seq<Session>, p: Place) returns (e: Entry)
    requires Transported(us, maxFragment, sessions) && AllTruthful(us) && HasRecord(sessions, p)
    ensures SentAt(sessions, p, e) && Says(RecordAt(sessions, p), e.address, e.rssi, e.reading)
  {
    var s := sessions[p.session];
    SessionsAreTruthful(us, maxFragment, sessions, p.session);
    ServerReadsAcceptedUplinks(s, maxFragment);
    var u := AcceptedOnes(s.us)[p.uplink];
    assert Reads(Fragments(s)[p.uplink], u);
    e := u.carried[p.record];
  }

  /** Every decoded record says what one of the advertisements heard said, and no two decoded records, on whatever
      connections, stand for the same one: in any run, an advertisement is read at most once. */
  lemma ReadAtMostOnce(slots: nat, cfg: Config, c: Comms, envs: seq<Env>, outs: seq<Outcome>, maxFragment: uint8,
                       sessions: seq<Session>, p: Place, q: Place)
    requires Deployed(slots, cfg, c, envs, outs, maxFragment, sessions)
    requires HasRecord(sessions, p) && HasRecord(sessions, q)
    ensures var heard, n := HeardIn(slots, cfg, c, envs, outs), AdvertAt(slots, cfg, c, envs, outs, sessions, p);
            n < |heard| && Says(RecordAt(sessions, p), heard[n].address, heard[n].rssi, heard[n].reading)
    ensures p != q ==>
              AdvertAt(slots, cfg, c, envs, outs, sessions, p) != AdvertAt(slots, cfg, c, envs, outs, sessions, q)
  {
    hide OverSocket, IsHistory, Transported, HasRecord, SentAt, Position, RecordAt;
    var us, steps := AllUplinks(outs), AllSteps(cfg, Delivery.Init(slots).table, c, envs, outs);
    InitialState(slots);
    var r := CyclesLead(Delivery.Init(slots), cfg, c, envs, outs);
    DeployedIsTruthful(slots, cfg, c, envs, outs, maxFragment, sessions);
    AcceptedAtMostOnce(slots, steps);
    Delivery.InitBooks(slots);
    Delivery.RunKeepsBooks(Delivery.Init(slots), steps);
    var d := DecodedWasSent(us, maxFragment, sessions, p);
    var e := DecodedWasSent(us, maxFragment, sessions, q);
    StampedAt(slots, us, maxFragment, sessions, r, p, d);
    StampedAt(slots, us, maxFragment, sessions, r, q, e);
    if p != q {
      if Earlier(p, q) {
        PositionsGrow(sessions, p, q, d, e);
      } else {
        PositionsGrow(sessions, q, p, e, d);
      }
    }
  }

  lemma StampedAt(slots: nat, us: seq<Uplink>, maxFragment: uint8, sessions: seq<Session>, r: Delivery.State,
                  p: Place, e: Entry)
    requires slots > 0 && Delivery.Books(r) && Entries(r.accepted)
        == Entries(Delivery.Init(slots).accepted) + Accepted(us)
    requires Transported(us, maxFragment, sessions) && SentAt(sessions, p, e)
    ensures var n := Position(sessions, p);
            && n < |r.accepted| && r.accepted[n].entry == e
            && r.accepted[n].tag.stamp < |r.history| && Shows(e, r.history[r.accepted[n].tag.stamp])
  {
    PositionIs(sessions, p, e);
    assert us == Handed(sessions);
    hide Delivery.Books, Position, SentAt, Accepted, Handed, Transported;
    InitialState(slots);
    hide Delivery.Init;
    EntryIs(r.accepted, Accepted(us), Position(sessions, p));
    IsGenuine(r, Position(sessions, p));
  }

  lemma EntryIs(cs: seq<Delivery.Carried>, es: seq<Entry>, n: nat)
    requires Entries(cs) == [] + es && n < |es|
    ensures n < |cs| && cs[n].entry == es[n]
  {
    assert Entries(cs)[n] == es[n];
  }

  lemma IsGenuine(r: Delivery.State, n: nat)
    requires Delivery.Books(r) && n < |r.accepted|
    ensures var c := r.accepted[n]; c.tag.stamp < |r.history| && Shows(c.entry, r.history[c.tag.stamp])
  {
    assert r.accepted[n] in r.accepted;
    assert Delivery.Genuine(r.accepted[n], r.history);
  }
}
