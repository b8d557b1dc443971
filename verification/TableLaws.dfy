/** Who leaves the connection table and what is pushed for them, told by the packets that arrived. */
module TableLaws {
  import opened SerialNumbers
  import opened Bytes
  import opened TcpConnection
  import opened FlowStatistics
  import opened ConnectionTable

  // ---------------------------------------------------------------- what the packets say

  predicate Closes(p: Packet) {
    !p.syn && (p.rst || p.fin)
  }

  /** None of the packets ends the connection. */
  predicate Open(packets: seq<Packet>) {
    forall i | 0 <= i < |packets| :: !Closes(packets[i])
  }

  lemma {:induction false} OpenUntilClosed(packets: seq<Packet>)
    ensures Run(FRESH, packets).finReceived <==> !Open(packets)
  {
    if packets != [] {
      var n := |packets| - 1;
      OpenUntilClosed(packets[..n]);
      hide StreamStep, CountPacket;
      assert packets == packets[..n] + [packets[n]];
    }
  }

  /** The bytes delivered in order. */
  function Delivered(packets: seq<Packet>): seq<byte> {
    Run(FRESH, packets).stream.payload
  }

  /** The segments kept for later. */
  function Kept(packets: seq<Packet>): map<uint32, Segment> {
    Run(FRESH, packets).stream.pending
  }

  function LastTime(packets: seq<Packet>): real
    requires packets != []
  {
    packets[|packets| - 1].time
  }

  // ---------------------------------------------------------------- segments in order of their numbers

  predicate Ascending(keys: seq<uint32>) {
    forall i, j | 0 <= i < j < |keys| :: keys[i] < keys[j]
  }

  ghost predicate Lists(keys: seq<uint32>, kept: map<uint32, Segment>) {
    forall k :: k in keys <==> k in kept
  }

  function Joined(kept: map<uint32, Segment>, keys: seq<uint32>): seq<byte>
    requires forall k | k in keys :: k in kept
  {
    if keys == [] then [] else kept[keys[0]] + Joined(kept, keys[1..])
  }

  lemma {:induction false} JoinedSame(a: map<uint32, Segment>, b: map<uint32, Segment>, keys: seq<uint32>)
    requires forall k | k in keys :: k in a && k in b && a[k] == b[k]
    ensures Joined(a, keys) == Joined(b, keys)
  {
    if keys != [] {
      JoinedSame(a, b, keys[1..]);
    }
  }

  lemma SmallestFirst(kept: map<uint32, Segment>, first: uint32, others: seq<uint32>)
    requires IsMin(first, kept.Keys) && Ascending(others) && Lists(others, kept - {first})
    ensures Ascending([first] + others) && Lists([first] + others, kept)
    ensures Joined(kept, [first] + others) == kept[first] + Joined(kept - {first}, others)
  {
    JoinedSame(kept - {first}, kept, others);
    assert ([first] + others)[1..] == others;
  }

  lemma {:induction false} LeftoverInOrder(kept: map<uint32, Segment>) returns (keys: seq<uint32>)
    ensures Ascending(keys) && Lists(keys, kept) && Leftover(kept) == Joined(kept, keys)
    decreases |kept|
  {
    if kept == map[] {
      keys := [];
    } else {
      var first := FirstKey(kept.Keys);
      var rest := Without(kept, first);
      var others := LeftoverInOrder(rest);
      keys := [first] + others;
      hide Joined, Ascending, Lists;
      SmallestFirst(kept, first, others);
    }
  }

  // ---------------------------------------------------------------- what is pushed

  /** The payload of a flow: the delivered bytes, followed when merging by the kept segments in
      ascending order of their numbers. */
  ghost predicate Assembled(payload: seq<byte>, packets: seq<Packet>, merge: bool) {
    if merge then
      exists keys ::
        && Ascending(keys) && Lists(keys, Kept(packets))
        && payload == Delivered(packets) + Joined(Kept(packets), keys)
    else
      payload == Delivered(packets)
  }

  /** Exactly the k-th of the emissions is for `id`. */
  predicate OnlyAt(es: seq<Emission>, id: ConnectionId, k: int) {
    0 <= k < |es| && forall j | 0 <= j < |es| :: es[j].flow.id == id <==> j == k
  }

  ghost predicate PushedOnce(es: seq<Emission>, id: ConnectionId, packets: seq<Packet>, merge: bool) {
    exists k :: OnlyAt(es, id, k) && es[k].packets == packets && Assembled(es[k].flow.payload, packets, merge)
  }

  predicate NeverPushed(es: seq<Emission>, id: ConnectionId) {
    forall j | 0 <= j < |es| :: es[j].flow.id != id
  }

  lemma EmissionAssembled(id: ConnectionId, c: Conn, packets: seq<Packet>, merge: bool)
    requires c == Run(FRESH, packets) && c.stats.count > 0
    ensures var e := EmissionOf(id, c, packets, merge);
            e.flow.id == id && e.packets == packets && Assembled(e.flow.payload, packets, merge)
  {
    hide Run, Leftover, Joined;
    if merge {
      var keys := LeftoverInOrder(c.stream.pending);
    }
  }

  lemma OnceInEither(a: seq<Emission>, b: seq<Emission>, id: ConnectionId, packets: seq<Packet>, merge: bool)
    requires || (PushedOnce(a, id, packets, merge) && NeverPushed(b, id))
             || (NeverPushed(a, id) && PushedOnce(b, id, packets, merge))
    ensures PushedOnce(a + b, id, packets, merge)
  {
    hide Assembled;
    if NeverPushed(b, id) {
      var k :| OnlyAt(a, id, k) && a[k].packets == packets && Assembled(a[k].flow.payload, packets, merge);
      assert OnlyAt(a + b, id, k);
    } else {
      var k :| OnlyAt(b, id, k) && b[k].packets == packets && Assembled(b[k].flow.payload, packets, merge);
      assert (a + b)[|a| + k] == b[k];
      assert OnlyAt(a + b, id, |a| + k);
    }
  }

  lemma NeverInEither(a: seq<Emission>, b: seq<Emission>, id: ConnectionId)
    requires NeverPushed(a, id) && NeverPushed(b, id)
    ensures NeverPushed(a + b, id)
  {
  }

  lemma SingleOnce(e: Emission, id: ConnectionId, packets: seq<Packet>, merge: bool)
    requires e.flow.id == id && e.packets == packets && Assembled(e.flow.payload, packets, merge)
    ensures PushedOnce([e], id, packets, merge)
  {
    hide Assembled;
    assert OnlyAt([e], id, 0);
  }

  lemma LastPush(es: seq<Emission>, history: map<ConnectionId, seq<Packet>>, ids: set<ConnectionId>, merge: bool,
                 last: ConnectionId, id: ConnectionId)
    requires es != [] && last in ids && last in history && var e := es[|es| - 1];
             e.flow.id == last && e.packets == history[last] && Assembled(e.flow.payload, e.packets, merge)
    requires var before := es[..|es| - 1];
             if id in ids && id != last then id in history && PushedOnce(before, id, history[id], merge)
             else NeverPushed(before, id)
    ensures if id in ids then id in history && PushedOnce(es, id, history[id], merge) else NeverPushed(es, id)
  {
    hide Assembled, PushedOnce;
    var n := |es| - 1;
    SingleOnce(es[n], last, history[last], merge);
    assert es == es[..n] + [es[n]];
    if id in ids {
      OnceInEither(es[..n], [es[n]], id, history[id], merge);
    } else {
      NeverInEither(es[..n], [es[n]], id);
    }
  }

  /** A sweep pushes one flow for each connection it emits and none for any other. */
  lemma {:induction false} SweptOnce(s: System, ids: set<ConnectionId>, merge: bool, es: seq<Emission>,
                                     id: ConnectionId)
    requires Consistent(s) && EmittedFor(s, ids, merge, es)
    ensures if id in ids then id in s.history && PushedOnce(es, id, s.history[id], merge) else NeverPushed(es, id)
  {
    hide Assembled, Run, PushedOnce;
    if es != [] {
      var n := |es| - 1;
      var last := es[n].flow.id;
      SweptOnce(s, ids - {last}, merge, es[..n], id);
      EmissionAssembled(last, s.table[last], s.history[last], merge);
      hide NeverPushed;
      LastPush(es, s.history, ids, merge, last, id);
    }
  }

  // ---------------------------------------------------------------- the sweeps

  /** What was pushed in going from `s` to `t`. */
  function Pushes(s: System, t: System): seq<Emission>
    requires s.emitted <= t.emitted
  {
    t.emitted[|s.emitted|..]
  }

  /** Nothing but pushing and forgetting connections happened. */
  ghost predicate OnlyLeaves(s: System, t: System) {
    && t.table.Keys <= s.table.Keys && t.history.Keys == t.table.Keys && s.emitted <= t.emitted
    && (forall id | id in t.table :: t.table[id] == s.table[id])
    && (forall id | id in t.history :: id in s.history && t.history[id] == s.history[id])
  }

  lemma SweepLeaves(s: System, leaving: set<ConnectionId>, emitting: set<ConnectionId>, merge: bool, t: System)
    requires Consistent(s) && Sweeps(s, leaving, emitting, merge, t)
    ensures OnlyLeaves(s, t)
    ensures forall id | id in s.table :: id in t.table <==> id !in leaving
    ensures forall id :: id !in emitting ==> NeverPushed(Pushes(s, t), id)
    ensures forall id :: id in emitting ==> id in s.history && PushedOnce(Pushes(s, t), id, s.history[id], merge)
  {
    hide EmittedFor, PushedOnce, NeverPushed, Run;
    var es :| EmittedFor(s, emitting, merge, es) && t == Remove(s, leaving).(emitted := s.emitted + es);
    assert Pushes(s, t) == es;
    forall id {
      SweptOnce(s, emitting, merge, es, id);
    }
  }

  /** A completion sweep keeps exactly the connections that no packet has closed and that delivered no more
      than the limit, and pushes one flow for each of the others. */
  lemma CompletionTakesExactly(s: System, maxPayload: nat, t: System)
    requires Invariant(s) && Next(s, CheckComplete, maxPayload, t)
    ensures OnlyLeaves(s, t)
    ensures forall id | id in s.table ::
              id in t.table <==> Open(s.history[id]) && |Delivered(s.history[id])| <= maxPayload
    ensures forall id | id in s.table && id !in t.table :: PushedOnce(Pushes(s, t), id, s.history[id], true)
    ensures forall id :: id !in s.table || id in t.table ==> NeverPushed(Pushes(s, t), id)
  {
    hide EmittedFor, PushedOnce, NeverPushed, Run, Sweeps, AllAccurate, Balanced;
    var done := FinishedIds(s.table, maxPayload);
    SweepLeaves(s, done, done, true, t);
    forall id | id in s.table {
      OpenUntilClosed(s.history[id]);
    }
  }

  lemma StaleByTime(s: System, now: real, id: ConnectionId)
    requires Consistent(s)
    ensures var stale := StaleIds(s.table, now);
            && (id in stale <==> id in s.table && now - LastTime(s.history[id]) > 120.0)
            && (id in WithPayload(s.table, stale) <==>
                id in s.table && now - LastTime(s.history[id]) > 120.0 && Delivered(s.history[id]) != [])
  {
    if id in s.table {
      InterArrivalTelescopes(s.history[id]);
      hide Run;
    }
  }

  /** Within a minute of the last stale sweep nothing happens; otherwise exactly the connections whose last
      packet is more than two minutes old leave, and those among them that delivered something are pushed
      with just that. */
  lemma StaleSweepTakesExactly(s: System, now: real, maxPayload: nat, t: System)
    requires Invariant(s) && Next(s, EvictStale(now), maxPayload, t)
    ensures now - s.lastEviction < 60.0 ==> t == s
    ensures now - s.lastEviction >= 60.0 ==>
              && OnlyLeaves(s, t) && t.lastEviction == now
              && (forall id | id in s.table :: id in t.table <==> now - LastTime(s.history[id]) <= 120.0)
              && (forall id | id in s.table && id !in t.table && Delivered(s.history[id]) != [] ::
                    PushedOnce(Pushes(s, t), id, s.history[id], false))
              && (forall id :: id !in s.table || id in t.table || Delivered(s.history[id]) == [] ==>
                    NeverPushed(Pushes(s, t), id))
  {
    if now - s.lastEviction >= 60.0 {
      hide EmittedFor, PushedOnce, NeverPushed, Run, AllAccurate, Balanced, StaleIds, WithPayload;
      var u := s.(lastEviction := now);
      var stale := StaleIds(u.table, now);
      SweepLeaves(u, stale, WithPayload(u.table, stale), false, t);
      hide Sweeps;
      forall id {
        StaleByTime(s, now, id);
      }
    }
  }

  /** The final flush empties the table and pushes one flow for every connection except those that are a
      lone packet, neither closing nor carrying anything that was delivered. */
  lemma FlushTakesExactly(s: System, maxPayload: nat, t: System)
    requires Invariant(s) && Next(s, FlushAll, maxPayload, t)
    ensures t.table == map[] && t.history == map[] && s.emitted <= t.emitted
    ensures forall id | id in s.table ::
              if |s.history[id]| == 1 && Delivered(s.history[id]) == [] && Open(s.history[id])
              then NeverPushed(Pushes(s, t), id)
              else PushedOnce(Pushes(s, t), id, s.history[id], true)
    ensures forall id | id !in s.table :: NeverPushed(Pushes(s, t), id)
  {
    hide EmittedFor, PushedOnce, NeverPushed, Run, Sweeps, AllAccurate, Balanced;
    var mid :| CompletesFinished(s, maxPayload, mid) && FlushesRemaining(mid, t);
    CompletionTakesExactly(s, maxPayload, mid);
    CompletionKeepsInvariant(s, maxPayload, mid);
    SweepLeaves(mid, mid.table.Keys, NotSilent(mid.table), true, t);
    assert Pushes(s, t) == Pushes(s, mid) + Pushes(mid, t);
    forall id
      ensures if id !in s.table
                || (|s.history[id]| == 1 && Delivered(s.history[id]) == [] && Open(s.history[id]))
              then NeverPushed(Pushes(s, t), id)
              else PushedOnce(Pushes(s, t), id, s.history[id], true)
    {
      if id !in s.table {
        NeverInEither(Pushes(s, mid), Pushes(mid, t), id);
      } else {
        InterArrivalTelescopes(s.history[id]);
        if id in mid.table && Silent(mid.table[id]) {
          NeverInEither(Pushes(s, mid), Pushes(mid, t), id);
        } else {
          OnceInEither(Pushes(s, mid), Pushes(mid, t), id, s.history[id], true);
        }
      }
    }
  }

  // ---------------------------------------------------------------- packets coming in

  /** The connection delivered nothing and its last packet is more than five seconds old. */
  predicate GivesWay(packets: seq<Packet>, now: real)
    requires packets != []
  {
    Delivered(packets) == [] && now - LastTime(packets) > 5.0
  }

  /** The packet was added to what its connection received. */
  ghost predicate Admitted(s: System, id: ConnectionId, p: Packet, t: System) {
    && t.history == s.history[id := PacketsOf(s, id) + [p]]
    && t.table == s.table[id := Run(FRESH, PacketsOf(s, id) + [p])]
    && t.emitted == s.emitted && t.shed == s.shed
    && t.lastForceEvict == s.lastForceEvict && t.lastEviction == s.lastEviction
  }

  /** `u` is `s` without the connections that give way. */
  ghost predicate RoomMade(s: System, now: real, u: System)
    requires Consistent(s)
  {
    && OnlyLeaves(s, u) && u.emitted == s.emitted && u.shed == s.shed
    && forall id | id in s.table :: id in u.table <==> !GivesWay(s.history[id], now)
  }

  lemma ReceiveAdmits(s: System, id: ConnectionId, p: Packet)
    requires Invariant(s)
    ensures Admitted(s, id, p, Receive(s, id, p))
  {
    EntryIsRun(s, id);
    StepFacts(EntryOf(s, id), PacketsOf(s, id), p);
    hide Run, Step, Invariant;
  }

  lemma GivesWayIsIdle(s: System, now: real, id: ConnectionId)
    requires Consistent(s) && id in s.table
    ensures GivesWay(s.history[id], now) <==> id in IdleIds(s.table, now)
  {
    InterArrivalTelescopes(s.history[id]);
    hide Run;
  }

  lemma RemovalLeaves(s: System, ids: set<ConnectionId>, now: real)
    requires Consistent(s)
    ensures OnlyLeaves(s, Remove(s, ids).(lastForceEvict := now))
  {
    hide Run;
  }

  lemma RemovalShrinks(s: System, ids: set<ConnectionId>)
    requires Consistent(s)
    ensures var u := Remove(s, ids); if u.table == s.table then u == s else |u.table| < |s.table|
  {
    hide Run;
    if s.table - ids == s.table {
      assert s.history - ids == s.history;
    } else {
      FewerEntries(s.table, s.table - ids);
    }
  }

  lemma RemovalMakesRoom(s: System, now: real, idle: set<ConnectionId>, u: System)
    requires Consistent(s) && u == Remove(s, idle).(lastForceEvict := now)
    requires forall id | id in s.table :: id in idle <==> GivesWay(s.history[id], now)
    ensures RoomMade(s, now, u)
    ensures if u.table == s.table then u == s.(lastForceEvict := now) else |u.table| < |s.table|
  {
    RemovalLeaves(s, idle, now);
    RemovalShrinks(s, idle);
    hide Run, GivesWay, OnlyLeaves;
  }

  lemma EvictionMakesRoom(s: System, now: real)
    requires Consistent(s) && now - s.lastForceEvict >= 1.0
    ensures var u := ForceEvict(s, now);
            && RoomMade(s, now, u) && u.lastForceEvict == now
            && if u.table == s.table then u == s.(lastForceEvict := now) else |u.table| < |s.table|
  {
    hide Run, GivesWay, IdleIds, RoomMade;
    forall id | id in s.table {
      GivesWayIsIdle(s, now, id);
    }
    RemovalMakesRoom(s, now, IdleIds(s.table, now), ForceEvict(s, now));
  }

  lemma FewerEntries(t: Table, u: Table)
    requires u.Keys <= t.Keys && u != t && forall id | id in u :: u[id] == t[id]
    ensures |u| < |t|
  {
    assert u.Keys != t.Keys;
    assert t.Keys == u.Keys + (t.Keys - u.Keys);
    assert |t| == |t.Keys| && |u| == |u.Keys|;
  }

  /** A packet is added to its connection, known or new, while fewer than 50000 are; on a full table the ones
      that give way are first forgotten, at most once a second, and the packet is shed if that freed nothing. */
  lemma PacketTakesExactly(s: System, id: ConnectionId, p: Packet, maxPayload: nat, t: System)
    requires Invariant(s) && Next(s, PacketIn(id, p), maxPayload, t)
    ensures id in s.table || |s.table| < 50000 ==> Admitted(s, id, p, t)
    ensures id !in s.table && |s.table| == 50000 && p.time - s.lastForceEvict < 1.0 ==> t == s.(shed := s.shed + 1)
    ensures id !in s.table && |s.table| == 50000 && p.time - s.lastForceEvict >= 1.0 ==>
              && t.lastForceEvict == p.time
              && exists u :: RoomMade(s, p.time, u) &&
                   if u.table != s.table then Admitted(u, id, p, t)
                   else t == s.(shed := s.shed + 1, lastForceEvict := p.time)
  {
    hide Run, Step, Invariant, Receive, RoomMade, ForceEvict;
    TableWithinCap(s);
    if id in s.table || |s.table| < 50000 {
      ReceiveAdmits(s, id, p);
    } else if p.time - s.lastForceEvict >= 1.0 {
      EvictionMakesRoom(s, p.time);
      var u := ForceEvict(s, p.time);
      assert RoomMade(s, p.time, u);
      ForceEvictKeepsInvariant(s, p.time);
      if u.table != s.table {
        ReceiveAdmits(u, id, p);
      }
    } else {
      NoRoomMade(s, p.time);
    }
  }

  lemma TableWithinCap(s: System)
    requires Invariant(s)
    ensures |s.table| <= 50000 && Consistent(s)
  {
  }

  lemma NoRoomMade(s: System, now: real)
    requires now - s.lastForceEvict < 1.0
    ensures ForceEvict(s, now) == s
  {
  }
}
