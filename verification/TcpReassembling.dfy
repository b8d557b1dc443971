/** The reassembler object: the connection table updated packet by packet and swept. */
module TcpReassembling {
  import opened TcpConnection
  import opened TcpDetection
  import opened FlowStatistics
  import opened ConnectionTable

  /** Enumerating a larger set of connections, one more emission at the end. */
  lemma EmitOneMore(s: System, ids: set<ConnectionId>, merge: bool, es: seq<Emission>, id: ConnectionId)
    requires EmittedFor(s, ids, merge, es) && id !in ids
    requires id in s.table && id in s.history && s.table[id].stats.count > 0
    ensures EmittedFor(s, ids + {id}, merge, es + [EmissionOf(id, s.table[id], s.history[id], merge)])
  {
    var e := EmissionOf(id, s.table[id], s.history[id], merge);
    assert (es + [e])[..|es|] == es;
    assert ids + {id} - {id} == ids;
  }

  /** A sweep over the table removing `ids`, when the entries in `todo` are still to be visited. */
  function Swept(s: System, ids: set<ConnectionId>, todo: set<ConnectionId>): System {
    Remove(s, ids - todo)
  }

  function Drop(s: System, id: ConnectionId): System {
    s.(table := s.table - {id}, history := s.history - {id})
  }

  lemma SweepStart(s: System, ids: set<ConnectionId>)
    requires ids <= s.table.Keys
    ensures Swept(s, ids, s.table.Keys) == s
  {
    assert ids - s.table.Keys == {};
    assert s.table - {} == s.table;
    assert s.history - {} == s.history;
  }

  lemma SweepVisit(s: System, ids: set<ConnectionId>, todo: set<ConnectionId>, id: ConnectionId)
    requires id in todo
    ensures Swept(s, ids, todo - {id}) == if id in ids then Drop(Swept(s, ids, todo), id) else Swept(s, ids, todo)
    ensures id in s.table ==> id in Swept(s, ids, todo).table && Swept(s, ids, todo).table[id] == s.table[id]
    ensures id in s.history ==> id in Swept(s, ids, todo).history && Swept(s, ids, todo).history[id] == s.history[id]
  {
    if id in ids {
      assert ids - (todo - {id}) == ids - todo + {id};
      assert s.table - (ids - todo) - {id} == s.table - (ids - todo + {id});
      assert s.history - (ids - todo) - {id} == s.history - (ids - todo + {id});
    } else {
      assert ids - (todo - {id}) == ids - todo;
    }
  }

  lemma SweepEnd(s: System, ids: set<ConnectionId>)
    ensures Swept(s, ids, {}) == Remove(s, ids)
  {
    assert ids - {} == ids;
  }

  lemma ForceEvictDue(s: System, now: real)
    requires now - s.lastForceEvict >= FORCE_EVICT_INTERVAL
    ensures ForceEvict(s, now) == Remove(s.(lastForceEvict := now), IdleIds(s.table, now))
    ensures forall id | id in s.table :: id in IdleIds(s.table, now) <==> IdleAndEmpty(s.table[id], now)
    ensures IdleIds(s.table, now) <= s.table.Keys
  {
  }

  lemma EvictionAddsNothing(s: System, now: real)
    ensures ForceEvict(s, now).table.Keys <= s.table.Keys
  {
  }

  lemma DropThenEmit(s: System, id: ConnectionId, before: seq<Emission>, es: seq<Emission>, e: Emission)
    ensures Drop(s.(emitted := before + es), id).(emitted := before + es + [e])
            == Drop(s, id).(emitted := before + (es + [e]))
  {
    assert before + es + [e] == before + (es + [e]);
  }

  lemma DropKeepsEmitted(s: System, id: ConnectionId, es: seq<Emission>)
    ensures Drop(s.(emitted := es), id) == Drop(s, id).(emitted := es)
  {
  }

  /** The output queue holds the flows of the emissions, in order. */
  predicate Matches(queue: seq<FlowData>, es: seq<Emission>) {
    |queue| == |es| && forall i | 0 <= i < |es| :: queue[i] == es[i].flow
  }

  /** A sweep that started in `s` and still has `todo` to visit has reached `v`. */
  ghost predicate SweepingWith(s: System, leaving: set<ConnectionId>, emitting: set<ConnectionId>, merge: bool,
                               todo: set<ConnectionId>, v: System, es: seq<Emission>) {
    v == Swept(s, leaving, todo).(emitted := s.emitted + es) && EmittedFor(s, emitting - todo, merge, es)
  }

  ghost predicate Sweeping(s: System, leaving: set<ConnectionId>, emitting: set<ConnectionId>, merge: bool,
                           todo: set<ConnectionId>, v: System) {
    exists es :: SweepingWith(s, leaving, emitting, merge, todo, v, es)
  }

  lemma BeginSweep(s: System, leaving: set<ConnectionId>, emitting: set<ConnectionId>, merge: bool)
    requires emitting <= leaving <= s.table.Keys
    ensures Sweeping(s, leaving, emitting, merge, s.table.Keys, s)
  {
    SweepStart(s, leaving);
    assert s.emitted + [] == s.emitted;
    assert emitting - s.table.Keys == {};
    assert SweepingWith(s, leaving, emitting, merge, s.table.Keys, s, []);
  }

  lemma SweepEntry(s: System, leaving: set<ConnectionId>, emitting: set<ConnectionId>, merge: bool,
                   todo: set<ConnectionId>, v: System, id: ConnectionId)
    requires Sweeping(s, leaving, emitting, merge, todo, v) && id in todo
    requires id in s.table && id in s.history
    ensures id in v.table && v.table[id] == s.table[id]
    ensures id in v.history && v.history[id] == s.history[id]
  {
    SweepVisit(s, leaving, todo, id);
    hide Swept, EmittedFor;
    var es :| SweepingWith(s, leaving, emitting, merge, todo, v, es);
  }

  lemma KeepEntry(s: System, leaving: set<ConnectionId>, emitting: set<ConnectionId>, merge: bool,
                  todo: set<ConnectionId>, v: System, id: ConnectionId)
    requires Sweeping(s, leaving, emitting, merge, todo, v) && id in todo
    requires id !in leaving && id !in emitting
    ensures Sweeping(s, leaving, emitting, merge, todo - {id}, v)
  {
    SweepVisit(s, leaving, todo, id);
    assert emitting - (todo - {id}) == emitting - todo;
    hide Swept, EmittedFor;
    var es :| SweepingWith(s, leaving, emitting, merge, todo, v, es);
    assert SweepingWith(s, leaving, emitting, merge, todo - {id}, v, es);
  }

  lemma EraseEntry(s: System, leaving: set<ConnectionId>, emitting: set<ConnectionId>, merge: bool,
                   todo: set<ConnectionId>, v: System, id: ConnectionId)
    requires Sweeping(s, leaving, emitting, merge, todo, v) && id in todo
    requires id in leaving && id !in emitting
    ensures Sweeping(s, leaving, emitting, merge, todo - {id}, Drop(v, id))
  {
    SweepVisit(s, leaving, todo, id);
    assert emitting - (todo - {id}) == emitting - todo;
    hide Swept, EmittedFor, Drop;
    var es :| SweepingWith(s, leaving, emitting, merge, todo, v, es);
    DropKeepsEmitted(Swept(s, leaving, todo), id, s.emitted + es);
    assert SweepingWith(s, leaving, emitting, merge, todo - {id}, Drop(v, id), es);
  }

  lemma EmitEntry(s: System, leaving: set<ConnectionId>, emitting: set<ConnectionId>, merge: bool,
                  todo: set<ConnectionId>, v: System, id: ConnectionId)
    requires Sweeping(s, leaving, emitting, merge, todo, v) && id in todo
    requires id in leaving && id in emitting
    requires id in s.table && id in s.history && s.table[id].stats.count > 0
    ensures Sweeping(s, leaving, emitting, merge, todo - {id},
                     Drop(v, id).(emitted := v.emitted + [EmissionOf(id, s.table[id], s.history[id], merge)]))
  {
    SweepVisit(s, leaving, todo, id);
    var e := EmissionOf(id, s.table[id], s.history[id], merge);
    var es :| SweepingWith(s, leaving, emitting, merge, todo, v, es);
    EmitOneMore(s, emitting - todo, merge, es, id);
    assert emitting - (todo - {id}) == emitting - todo + {id};
    DropThenEmit(Swept(s, leaving, todo), id, s.emitted, es, e);
    hide Swept, EmittedFor, Drop, EmissionOf;
    assert SweepingWith(s, leaving, emitting, merge, todo - {id}, Drop(v, id).(emitted := v.emitted + [e]), es + [e]);
  }

  lemma EndSweep(s: System, leaving: set<ConnectionId>, emitting: set<ConnectionId>, merge: bool, v: System)
    requires Sweeping(s, leaving, emitting, merge, {}, v)
    ensures Sweeps(s, leaving, emitting, merge, v)
  {
    SweepEnd(s, leaving);
    assert emitting - {} == emitting;
    hide Swept, EmittedFor, Remove;
    var es :| SweepingWith(s, leaving, emitting, merge, {}, v, es);
  }

  class TcpReassembler {
    const maxFlowPayloadBytes: nat
    var connections: Table
    var shedCount: nat
    var lastForceEvictTime: real
    var lastEvictionTime: real
    /** The flows handed to the output queue, oldest first. */
    var outputQueue: seq<FlowData>

    ghost var history: map<ConnectionId, seq<Packet>>
    ghost var emitted: seq<Emission>
    ghost var delivered: nat

    ghost function View(): System
      reads this
    {
      System(connections, history, emitted, shedCount, lastForceEvictTime, lastEvictionTime, delivered)
    }

    ghost predicate Valid()
      reads this
    {
      Invariant(View()) && Matches(outputQueue, emitted)
    }

    constructor (maxFlowPayloadBytes: nat)
      ensures Valid() && View() == EMPTY_SYSTEM && this.maxFlowPayloadBytes == maxFlowPayloadBytes
      ensures outputQueue == []
    {
      hide Invariant;
      this.maxFlowPayloadBytes := maxFlowPayloadBytes;
      connections, shedCount := map[], 0;
      lastForceEvictTime, lastEvictionTime := 0.0, 0.0;
      outputQueue := [];
      history, emitted, delivered := map[], [], 0;
      new;
      EmptySystemInvariant();
      assert View() == EMPTY_SYSTEM;
    }

    method Erase(id: ConnectionId)
      modifies this`connections, this`history
      ensures View() == Drop(old(View()), id)
    {
      connections := connections - {id};
      history := history - {id};
    }

    method ForceEvictOldest(now: real)
      modifies this`connections, this`lastForceEvictTime, this`history
      ensures View() == ForceEvict(old(View()), now)
    {
      if now - lastForceEvictTime < FORCE_EVICT_INTERVAL {
        return;
      }
      ForceEvictDue(View(), now);
      hide ForceEvict, IdleIds, Remove, Swept, Drop;
      lastForceEvictTime := now;
      ghost var start := View();
      ghost var idle := IdleIds(connections, now);
      var todo := connections.Keys;
      SweepStart(start, idle);
      while todo != {}
        invariant todo <= start.table.Keys
        invariant View() == Swept(start, idle, todo)
        decreases |todo|
      {
        var id :| id in todo;
        SweepVisit(start, idle, todo, id);
        var conn := connections[id];
        if conn.stream.payload == [] && now - conn.stats.lastTime > AGGRESSIVE_TIMEOUT {
          Erase(id);
        }
        todo := todo - {id};
      }
      SweepEnd(start, idle);
    }

    method UpdateConnection(id: ConnectionId, p: Packet) returns (evasion: bool)
      modifies this`connections, this`history, this`delivered
      ensures View() == Receive(old(View()), id, p)
      ensures evasion == RaisesEvasion(if id in old(connections) then old(connections)[id] else FRESH, p)
    {
      hide Step, RaisesEvasion;
      var state := new ConnectionState.Resume(if id in connections then connections[id] else FRESH);
      ghost var before := |state.payload|;
      evasion := state.OnPacket(p);
      history := history[id := (if id in history then history[id] else []) + [p]];
      connections := connections[id := state.View()];
      delivered := if |state.payload| >= before then delivered + (|state.payload| - before) else delivered;
    }

    /** The packet's effect on its connection, admitting or shedding a new one first. */
    method ProcessIpPacket(id: ConnectionId, p: Packet) returns (evasion: bool)
      requires Valid()
      modifies this
      ensures Valid() && View() == ProcessPacket(old(View()), id, p)
      ensures evasion <==> id in old(connections) && RaisesEvasion(old(connections)[id], p)
      ensures outputQueue == old(outputQueue)
    {
      hide Invariant, Step, RaisesEvasion, Receive, ForceEvict;
      PacketKeepsInvariant(View(), id, p);
      EvictionAddsNothing(View(), p.time);
      NeverReported(FRESH, p);
      evasion := false;
      if id !in connections && |connections| >= MAX_CONNECTIONS {
        ForceEvictOldest(p.time);
        if |connections| >= MAX_CONNECTIONS {
          shedCount := shedCount + 1;
          return;
        }
      }
      evasion := UpdateConnection(id, p);
    }

    /** Hands the connection's payload to the output queue as a flow and erases the entry. */
    method EmitAndErase(id: ConnectionId, merge: bool)
      requires id in connections && id in history && connections[id].stats.count > 0
      requires Matches(outputQueue, emitted)
      modifies this`outputQueue, this`emitted, this`connections, this`history
      ensures Matches(outputQueue, emitted)
      ensures View() == Drop(old(View()), id).(
                emitted := old(emitted) + [EmissionOf(id, old(connections)[id], old(history)[id], merge)])
    {
      hide Leftover;
      var conn := connections[id];
      var state := new ConnectionState.Resume(conn);
      if merge {
        state.MergeRemaining();
      }
      var flow := FlowData(id, state.payload, conn.stats.lastTime, conn.stats.count,
                           InterArrivalTime(conn.stats), LengthVariance(conn.stats));
      outputQueue := outputQueue + [flow];
      assert flow == EmissionOf(id, conn, history[id], merge).flow;
      emitted := emitted + [EmissionOf(id, conn, history[id], merge)];
      Erase(id);
    }

    /** Emits every connection that saw FIN or RST or outgrew the payload limit. */
    method CheckCompleteFlows()
      requires Valid()
      modifies this
      ensures Valid() && CompletesFinished(old(View()), maxFlowPayloadBytes, View())
    {
      ghost var start := View();
      ghost var done := FinishedIds(connections, maxFlowPayloadBytes);
      assert done <= start.table.Keys;
      hide Sweeping, Invariant, EmissionOf, Drop, Matches, FinishedIds, CompletesFinished, Sweeps;
      BeginSweep(start, done, done, true);
      var todo := connections.Keys;
      while todo != {}
        invariant todo <= start.table.Keys
        invariant Sweeping(start, done, done, true, todo, View())
        invariant Matches(outputQueue, emitted)
        decreases |todo|
      {
        var id :| id in todo;
        FinishedEntry(start, maxFlowPayloadBytes, id);
        SweepEntry(start, done, done, true, todo, View(), id);
        var conn := connections[id];
        if conn.finReceived || |conn.stream.payload| > maxFlowPayloadBytes {
          EmitEntry(start, done, done, true, todo, View(), id);
          EmitAndErase(id, true);
        } else {
          KeepEntry(start, done, done, true, todo, View(), id);
        }
        todo := todo - {id};
      }
      EndSweep(start, done, done, true, View());
      FinishedSweep(start, maxFlowPayloadBytes, View());
    }

    /** One entry of the stale sweep: emitted, erased or kept. */
    method VisitStale(id: ConnectionId, now: real, ghost start: System, ghost todo: set<ConnectionId>)
      requires Invariant(start) && id in todo && id in start.table && Matches(outputQueue, emitted)
      requires var stale := StaleIds(start.table, now);
               Sweeping(start, stale, WithPayload(start.table, stale), false, todo, View())
      modifies this
      ensures Matches(outputQueue, emitted)
      ensures var stale := StaleIds(start.table, now);
              Sweeping(start, stale, WithPayload(start.table, stale), false, todo - {id}, View())
    {
      hide Sweeping, EmissionOf, Drop, Matches;
      ghost var stale := StaleIds(start.table, now);
      ghost var full := WithPayload(start.table, stale);
      StaleEntry(start, now, id);
      hide Invariant, StaleIds, WithPayload;
      SweepEntry(start, stale, full, false, todo, View(), id);
      var conn := connections[id];
      if now - conn.stats.lastTime > CONNECTION_TIMEOUT {
        if conn.stream.payload != [] {
          EmitEntry(start, stale, full, false, todo, View(), id);
          EmitAndErase(id, false);
        } else {
          EraseEntry(start, stale, full, false, todo, View(), id);
          Erase(id);
        }
      } else {
        KeepEntry(start, stale, full, false, todo, View(), id);
      }
    }

    method RemoveStale(now: real)
      requires Valid()
      modifies this
      ensures Matches(outputQueue, emitted)
      ensures RemovesStale(old(View()), now, View())
    {
      ghost var start := View();
      ghost var stale := StaleIds(connections, now);
      ghost var full := WithPayload(connections, stale);
      assert full <= stale <= start.table.Keys;
      hide Sweeping, Invariant, Matches, StaleIds, WithPayload, Sweeps, RemovesStale;
      BeginSweep(start, stale, full, false);
      var todo := connections.Keys;
      while todo != {}
        invariant todo <= start.table.Keys
        invariant Sweeping(start, stale, full, false, todo, View())
        invariant Matches(outputQueue, emitted)
        decreases |todo|
      {
        var id :| id in todo;
        VisitStale(id, now, start, todo);
        todo := todo - {id};
      }
      EndSweep(start, stale, full, false, View());
      StaleSweep(start, now, View());
    }

    /** Every EVICTION_INTERVAL, removes the connections idle for too long; one with payload is
        emitted as it stands, its pending segments dropped. */
    method EvictStaleState(now: real)
      requires Valid()
      modifies this
      ensures Valid() && Next(old(View()), EvictStale(now), maxFlowPayloadBytes, View())
    {
      if now - lastEvictionTime < EVICTION_INTERVAL {
        return;
      }
      ghost var before := View();
      EvictionTimeIrrelevant(before, now);
      hide RemovesStale, Invariant;
      lastEvictionTime := now;
      RemoveStale(now);
      NextKeepsInvariant(before, EvictStale(now), maxFlowPayloadBytes, View());
    }

    /** One entry of the final flush: emitted, or erased when it has nothing to say. */
    method VisitForFlush(id: ConnectionId, ghost start: System, ghost todo: set<ConnectionId>)
      requires Invariant(start) && id in todo && id in start.table && Matches(outputQueue, emitted)
      requires Sweeping(start, start.table.Keys, NotSilent(start.table), true, todo, View())
      modifies this
      ensures Matches(outputQueue, emitted)
      ensures Sweeping(start, start.table.Keys, NotSilent(start.table), true, todo - {id}, View())
    {
      hide Sweeping, EmissionOf, Drop, Matches;
      ghost var all, speaking := start.table.Keys, NotSilent(start.table);
      FlushEntry(start, id);
      hide Invariant, NotSilent;
      SweepEntry(start, all, speaking, true, todo, View(), id);
      var conn := connections[id];
      if conn.stream.payload == [] && conn.stats.count < 2 {
        EraseEntry(start, all, speaking, true, todo, View(), id);
        Erase(id);
      } else {
        EmitEntry(start, all, speaking, true, todo, View(), id);
        EmitAndErase(id, true);
      }
    }

    method FlushRemaining()
      requires Valid()
      modifies this
      ensures Matches(outputQueue, emitted)
      ensures FlushesRemaining(old(View()), View())
    {
      ghost var start := View();
      ghost var all, speaking := connections.Keys, NotSilent(connections);
      assert speaking <= start.table.Keys;
      hide Sweeping, Invariant, Matches, NotSilent, Sweeps, FlushesRemaining;
      BeginSweep(start, all, speaking, true);
      var todo := connections.Keys;
      while todo != {}
        invariant todo <= start.table.Keys
        invariant Sweeping(start, all, speaking, true, todo, View())
        invariant Matches(outputQueue, emitted)
        decreases |todo|
      {
        var id :| id in todo;
        VisitForFlush(id, start, todo);
        todo := todo - {id};
      }
      EndSweep(start, all, speaking, true, View());
      FlushSweep(start, View());
    }

    /** End of capture: emits the finished connections, then every other one except lone packets
        without payload. */
    method FlushAllFlows()
      requires Valid()
      modifies this
      ensures Valid() && Next(old(View()), FlushAll, maxFlowPayloadBytes, View())
      ensures connections == map[]
    {
      hide CompletesFinished, FlushesRemaining, Invariant;
      ghost var before := View();
      CheckCompleteFlows();
      ghost var mid := View();
      FlushRemaining();
      NothingLeft(mid, View());
      NextKeepsInvariant(before, FlushAll, maxFlowPayloadBytes, View());
    }
  }

  lemma FinishedEntry(s: System, maxPayload: nat, id: ConnectionId)
    requires Invariant(s) && id in s.table
    ensures id in s.history && s.table[id].stats.count > 0
    ensures id in FinishedIds(s.table, maxPayload) <==> Finished(s.table[id], maxPayload)
  {
  }

  lemma FinishedSweep(s: System, maxPayload: nat, s': System)
    requires Invariant(s)
    requires var done := FinishedIds(s.table, maxPayload); Sweeps(s, done, done, true, s')
    ensures CompletesFinished(s, maxPayload, s') && Invariant(s')
  {
    hide Invariant, Sweeps, FinishedIds;
    CompletionKeepsInvariant(s, maxPayload, s');
  }

  lemma StaleEntry(s: System, now: real, id: ConnectionId)
    requires Invariant(s) && id in s.table
    ensures id in s.history && s.table[id].stats.count > 0
    ensures var stale := StaleIds(s.table, now);
            && (id in stale <==> Stale(s.table[id], now))
            && (id in WithPayload(s.table, stale) <==> id in stale && s.table[id].stream.payload != [])
  {
  }

  lemma StaleSweep(s: System, now: real, s': System)
    requires var stale := StaleIds(s.table, now); Sweeps(s, stale, WithPayload(s.table, stale), false, s')
    ensures RemovesStale(s, now, s')
  {
    hide Sweeps, StaleIds, WithPayload;
  }

  lemma FlushEntry(s: System, id: ConnectionId)
    requires Invariant(s) && id in s.table
    ensures id in s.history && s.table[id].stats.count > 0
    ensures id in NotSilent(s.table) <==> !Silent(s.table[id])
  {
  }

  lemma FlushSweep(s: System, s': System)
    requires Sweeps(s, s.table.Keys, NotSilent(s.table), true, s')
    ensures FlushesRemaining(s, s')
  {
    hide Sweeps, NotSilent;
  }

  lemma NothingLeft(s: System, s': System)
    requires FlushesRemaining(s, s')
    ensures s'.table == map[]
  {
    hide EmittedFor;
    assert s.table - s.table.Keys == map[];
  }
}
