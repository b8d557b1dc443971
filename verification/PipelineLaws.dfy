/** Conservation, zero-drop, progress and completion over all runs of the pipeline. */
module PipelineLaws {
  import opened Sequences
  import opened Options
  import opened PriorityQueue
  import opened QueueConcurrency
  import opened Pipeline

  // ---------------------------------------------------------------- conservation

  /** 1 while the filter is between counting a flow as passed and the end of its push. */
  function MidPush(s: State): nat {
    (if s.hand.Counted? then 1 else 0) + (if FILTER in s.output.pushers then 1 else 0)
  }

  lemma WaitingSize(pushers: map<Thread, Entry<Flow>>, t: Thread)
    requires pushers.Keys <= {t}
    ensures |Waiting(pushers)| == if t in pushers then 1 else 0
  {
    if t in pushers {
      WaitingRemove(pushers, t);
      assert pushers - {t} == map[];
    } else {
      assert pushers == map[];
    }
  }

  lemma {:induction false} TallyAdds(popped: seq<Entry<Flow>>, verdicts: seq<NpuFilter.Verdict>)
    requires |verdicts| <= |popped|
    ensures var c := Tally(verdicts);
            c.popped == c.passed + c.filtered == |verdicts| && c.deduped <= c.filtered
            && c.passed == |Forwarded(popped, verdicts)|
    decreases |verdicts|
  {
    if verdicts != [] {
      TallyAdds(popped, verdicts[..|verdicts| - 1]);
    }
  }

  /** The duplicates and the flows filtered out otherwise are counted. */
  lemma {:induction false} TallyCounts(verdicts: seq<NpuFilter.Verdict>)
    ensures var c := Tally(verdicts);
            && c.deduped == multiset(verdicts)[NpuFilter.Duplicate]
            && c.filtered == multiset(verdicts)[NpuFilter.FilteredOut] + multiset(verdicts)[NpuFilter.Duplicate]
  {
    if verdicts != [] {
      var n := |verdicts| - 1;
      TallyCounts(verdicts[..n]);
      SplitLast(verdicts);
    }
  }

  /** Pipeline conservation, at every step of every interleaving, flow by flow: every flow popped from
      the input has one verdict or is in hand, the flows that verdicts send on are exactly those queued
      for the LLM, popped by it, lost by its queue, waiting in a push or in hand, and the counters say
      how many there are of each. */
  lemma PipelineConserves(states: seq<State>, events: seq<Event>, capacity: nat, n: nat)
    requires capacity >= 1 && Pipeline.IsRun(states, events, capacity) && n < |states|
    ensures var s := states[n];
            |s.input.log.popped| == |s.verdicts| + (if s.hand.Popping? then 1 else 0)
    ensures var s := states[n];
            var sent := Forwarded(s.input.log.popped, s.verdicts);
            && (s.hand.Popping? ==> s.hand.flow == s.input.log.popped[|s.verdicts|])
            && multiset(sent) == multiset(s.output.core.q) + multiset(s.output.log.popped) + s.output.log.evicted
                                 + s.output.log.rejected + Waiting(s.output.pushers) + InHand(s.hand)
            && s.counters.popped == |s.input.log.popped|
            && s.counters.popped == s.counters.passed + s.counters.filtered + (if s.hand.Popping? then 1 else 0)
            && s.counters.deduped == multiset(s.verdicts)[NpuFilter.Duplicate]
            && s.counters.filtered == s.counters.deduped + multiset(s.verdicts)[NpuFilter.FilteredOut]
            && s.counters.passed == |sent|
            && s.counters.passed == |s.output.core.q| + |s.output.log.popped| + s.output.core.dropped + MidPush(s)
            && MidPush(s) <= 1
  {
    hide Pipeline.IsRun;
    RunsKeepInvariant(states, events, capacity, n);
    var s := states[n];
    WaitingSize(s.output.pushers, FILTER);
    TallyAdds(s.input.log.popped, s.verdicts);
    TallyCounts(s.verdicts);
    hide Waiting, Fifo, Wellformed, NoLostWakeup, Lossless, Tally, Forwarded;
    assert |multiset(Forwarded(s.input.log.popped, s.verdicts))| == |Forwarded(s.input.log.popped, s.verdicts)|;
  }

  /** Offline zero-drop: until the shutdown switches a queue's blocking off, it has dropped nothing. */
  lemma OfflineDropsNothing(states: seq<State>, events: seq<Event>, capacity: nat, n: nat)
    requires capacity >= 1 && Pipeline.IsRun(states, events, capacity) && n < |states| && states[n].offline
    ensures states[n].phase == Created || states[n].phase == Running ==> states[n].input.core.dropped == 0
    ensures states[n].phase == Created || states[n].phase == Running || states[n].phase == InputUnblocked ==>
              states[n].output.core.dropped == 0
  {
    hide Pipeline.IsRun;
    RunsKeepInvariant(states, events, capacity, n);
    hide Waiting, Fifo, Wellformed, NoLostWakeup, ThreadsInPlace, CountsAgree;
  }

  /** No deadlock: when every wakeup sent has been acted on and the reassembler is blocked on a full
      queue, the filter is not waiting for a flow, and if it is itself blocked on a full queue then
      the LLM worker is not waiting for one. Once a queue's blocking is off no pusher is left waiting
      on it, even before it is finished, so the shutdown can join the capture thread. After the queues
      are finished nobody is blocked. */
  lemma SomebodyCanRun(states: seq<State>, events: seq<Event>, capacity: nat, n: nat)
    requires capacity >= 1 && Pipeline.IsRun(states, events, capacity) && n < |states|
    requires states[n].input.pushSignals == {} && states[n].input.popSignals == {}
    requires states[n].output.pushSignals == {} && states[n].output.popSignals == {}
    ensures var s := states[n];
            && (REASSEMBLER in s.input.pushers ==> FILTER !in s.input.poppers && |s.input.core.q| == capacity)
            && (FILTER in s.output.pushers ==> LLM !in s.output.poppers && |s.output.core.q| == capacity)
            && (!s.input.core.blocking ==> s.input.pushers == map[])
            && (!s.output.core.blocking ==> s.output.pushers == map[])
            && (s.input.core.done ==> s.input.pushers == map[] && s.input.poppers == {})
            && (s.output.core.done ==> s.output.pushers == map[] && s.output.poppers == {})
  {
    hide Pipeline.IsRun;
    RunsKeepInvariant(states, events, capacity, n);
    hide Conserved, Fifo, ThreadsInPlace, CountsAgree, Lossless;
    var s := states[n];
    NobodyUnsignalled(s.input);
    NobodyUnsignalled(s.output);
  }

  lemma NobodyUnsignalled(m: Machine)
    requires m.pushSignals == {} && m.popSignals == {}
    ensures m.pushers.Keys - m.pushSignals == m.pushers.Keys && m.poppers - m.popSignals == m.poppers
    ensures m.pushers == map[] <==> m.pushers.Keys == {}
  {
  }

  // ---------------------------------------------------------------- when everything is done

  /** Every captured flow was popped and judged by the filter, and popped by the LLM if sent on. */
  ghost predicate AllDone(s: State) {
    && s.input.log.pushes == multiset(s.input.log.popped)
    && |s.verdicts| == |s.input.log.popped|
    && multiset(s.output.log.popped) == multiset(Forwarded(s.input.log.popped, s.verdicts))
  }

  /** Nothing is on its way anywhere. */
  predicate Drained(s: State) {
    && s.input.core.q == [] && s.input.pushers == map[] && s.hand == Nothing
    && s.output.core.q == [] && s.output.pushers == map[]
  }

  lemma NothingAdded<T>(total: multiset<T>, kept: multiset<T>, rest: multiset<T>)
    requires total == kept + rest
    ensures total == kept <==> |rest| == 0
  {
    assert |total| == |kept| + |rest|;
    if |rest| == 0 {
      assert rest == multiset{};
    }
  }

  lemma DoneExactlyWhenDrained(s: State, capacity: nat)
    requires PipelineInvariant(s, capacity) && s.offline && s.phase == Running
    ensures AllDone(s) <==> Drained(s)
  {
    WaitingSize(s.input.pushers, REASSEMBLER);
    WaitingSize(s.output.pushers, FILTER);
    hide Waiting, Fifo, Wellformed, NoLostWakeup, Tally, Forwarded;
    var captured, taken := s.input.log.pushes, multiset(s.input.log.popped);
    var queued := multiset(s.input.core.q) + Waiting(s.input.pushers);
    assert captured == taken + queued;
    NothingAdded(captured, taken, queued);
    var sent, handed := multiset(Forwarded(s.input.log.popped, s.verdicts)), multiset(s.output.log.popped);
    var between := multiset(s.output.core.q) + Waiting(s.output.pushers) + InHand(s.hand);
    assert sent == handed + between;
    NothingAdded(sent, handed, between);
    assert s.input.pushers == map[] <==> REASSEMBLER !in s.input.pushers;
    assert s.output.pushers == map[] <==> FILTER !in s.output.pushers;
  }

  // ---------------------------------------------------------------- declaring an offline run complete

  ghost predicate Path(states: seq<State>, events: seq<Event>, capacity: nat)
    requires capacity >= 1
  {
    && |states| == |events| + 1
    && forall i | 0 <= i < |events| :: Step(states[i], capacity, events[i], states[i + 1])
  }

  /** From `s` on, this round of the monitor loop ends by declaring the run complete. */
  ghost predicate Declares(s: State, states: seq<State>, events: seq<Event>, capacity: nat)
    requires capacity >= 1
  {
    && Path(states, events, capacity) && states[0] == s
    && events != [] && events[|events| - 1] == Decide
    && (forall i | 0 <= i < |events| - 1 :: events[i] != Decide)
    && states[|events|].monitor == Complete
  }

  lemma {:induction false} PathKeepsInvariant(states: seq<State>, events: seq<Event>, capacity: nat, i: nat)
    requires capacity >= 1 && Path(states, events, capacity) && PipelineInvariant(states[0], capacity)
    requires i < |states|
    ensures PipelineInvariant(states[i], capacity)
  {
    hide PipelineInvariant, Step;
    if i > 0 {
      PathKeepsInvariant(states, events, capacity, i - 1);
      assert Step(states[i - 1], capacity, events[i - 1], states[i - 1 + 1]);
      StepKeepsInvariant(states[i - 1], capacity, events[i - 1], states[i]);
    }
  }

  /** Both depths were read as 0 and the decision is still to come. */
  predicate Deciding(s: State) {
    s.offline && s.phase == Running && s.monitor == SawBoth(0, 0)
  }

  lemma PopOfEmpty(m: Machine, capacity: nat, a: Action, m': Machine)
    requires capacity >= 1 && m.core.q == [] && (a.BeginPop? || a.WakePop?) && Next(m, capacity, a, m')
    ensures m'.core.q == [] && m'.pushers == m.pushers && m'.log.popped == m.log.popped
  {
    hide NotifyOne;
  }

  lemma DrainedStays(s: State, capacity: nat, e: Event, s': State)
    requires capacity >= 1 && Step(s, capacity, e, s') && Deciding(s) && s.captureFinished && Drained(s)
    ensures Drained(s') && s'.captureFinished && s'.offline && s'.phase == Running
    ensures e != Decide ==> Deciding(s')
  {
    match e
    case FilterPop => PopOfEmpty(s.input, capacity, BeginPop(FILTER), s'.input);
    case ResumeFilterPop => PopOfEmpty(s.input, capacity, WakePop(FILTER), s'.input);
    case LlmPop => PopOfEmpty(s.output, capacity, BeginPop(LLM), s'.output);
    case ResumeLlmPop => PopOfEmpty(s.output, capacity, WakePop(LLM), s'.output);
    case _ => hide PushTurn, PopTurn;
  }

  lemma {:induction false} PathStaysDrained(states: seq<State>, events: seq<Event>, capacity: nat, i: nat)
    requires capacity >= 1 && Path(states, events, capacity) && i < |states|
    requires Deciding(states[0]) && states[0].captureFinished && Drained(states[0])
    requires forall j | 0 <= j < |events| - 1 :: events[j] != Decide
    ensures Drained(states[i]) && states[i].captureFinished && states[i].offline && states[i].phase == Running
    ensures i < |events| ==> Deciding(states[i])
  {
    hide Step, Drained;
    if i > 0 {
      PathStaysDrained(states, events, capacity, i - 1);
      assert Step(states[i - 1], capacity, events[i - 1], states[i - 1 + 1]);
      DrainedStays(states[i - 1], capacity, events[i - 1], states[i]);
    }
  }

  // ---------------------------------------------------------------- how a declaration can come too early

  lemma Notify(waiting: set<Thread>, signals: set<Thread>) returns (signals': set<Thread>)
    ensures NotifyOne(waiting, signals, signals')
  {
    if waiting - signals == {} {
      signals' := signals;
    } else {
      var t :| t in waiting - signals;
      signals' := signals + {t};
    }
  }

  lemma {:induction false} InsertSize(q: seq<Entry<Flow>>, e: Entry<Flow>)
    ensures |Insert(q, e)| == |q| + 1
  {
    if q != [] && q[0].priority >= e.priority {
      InsertSize(q[1..], e);
    }
  }

  /** A push finds room. */
  lemma PushWithRoom(m: Machine, capacity: nat, t: Thread, e: Entry<Flow>) returns (m': Machine)
    requires capacity >= 1 && |m.core.q| < capacity && t !in m.pushers && t !in m.poppers
    ensures Next(m, capacity, BeginPush(t, e), m')
    ensures |m'.core.q| == |m.core.q| + 1 && m'.pushers == m.pushers
  {
    hide Insert, NotifyOne;
    InsertSize(m.core.q, e);
    var signals := Notify(m.poppers, m.popSignals);
    assert m.pushers - {t} == m.pushers;
    var log := LogPush(m.log.(pushes := m.log.pushes + multiset{e}), e, Stored(None));
    m' := Machine(m.core.(q := Insert(m.core.q, e)), m.pushers, m.pushSignals - {t}, m.poppers, signals, log);
  }

  /** A waiting push wakes up and finds room. */
  lemma WakeWithRoom(m: Machine, capacity: nat, t: Thread) returns (m': Machine)
    requires capacity >= 1 && |m.core.q| < capacity && t in m.pushers
    ensures Next(m, capacity, WakePush(t), m')
    ensures |m'.core.q| == |m.core.q| + 1 && m'.pushers == m.pushers - {t}
  {
    hide Insert, NotifyOne;
    var e := m.pushers[t];
    InsertSize(m.core.q, e);
    var signals := Notify(m.poppers, m.popSignals);
    m' := Machine(m.core.(q := Insert(m.core.q, e)), m.pushers - {t}, m.pushSignals - {t}, m.poppers, signals,
                  LogPush(m.log, e, Stored(None)));
  }

  function PopAction(m: Machine, t: Thread): Action {
    if t in m.poppers then WakePop(t) else BeginPop(t)
  }

  lemma PopItem(m: Machine, capacity: nat, t: Thread) returns (m': Machine)
    requires capacity >= 1 && m.core.q != [] && t !in m.pushers
    ensures Next(m, capacity, PopAction(m, t), m')
    ensures m'.core.q == m.core.q[1..] && m'.pushers == m.pushers
    ensures m'.log.popped == m.log.popped + [m.core.q[0]]
  {
    hide NotifyOne;
    var signals := Notify(m.pushers.Keys, m.pushSignals);
    m' := Machine(m.core.(q := m.core.q[1..]), m.pushers, signals, m.poppers - {t}, m.popSignals - {t},
                  m.log.(popped := m.log.popped + [m.core.q[0]]));
    assert t !in m.poppers ==> m.poppers - {t} == m.poppers;
  }

  /** A path so far, without a decision. */
  ghost predicate Undecided(s: State, states: seq<State>, events: seq<Event>, capacity: nat)
    requires capacity >= 1
  {
    && Path(states, events, capacity) && states[0] == s
    && (forall i | 0 <= i < |events| :: events[i] != Decide)
    && Deciding(states[|events|])
  }

  lemma Extend(s: State, states: seq<State>, events: seq<Event>, capacity: nat, e: Event, s': State)
    requires capacity >= 1 && Undecided(s, states, events, capacity)
    requires Step(states[|events|], capacity, e, s')
    ensures Path(states + [s'], events + [e], capacity)
    ensures e != Decide && Deciding(s') ==> Undecided(s, states + [s'], events + [e], capacity)
    ensures e == Decide && s'.monitor == Complete ==> Declares(s, states + [s'], events + [e], capacity)
  {
    hide Step, Deciding;
    var ts, es := states + [s'], events + [e];
    forall i | 0 <= i < |es|
      ensures Step(ts[i], capacity, es[i], ts[i + 1])
    {
      if i < |events| {
        assert Step(states[i], capacity, events[i], states[i + 1]);
      }
    }
  }

  /** Whoever is still on its way when the flag is loaded is overlooked. */
  lemma DeclareNow(s: State, states: seq<State>, events: seq<Event>, capacity: nat)
      returns (ts: seq<State>, es: seq<Event>)
    requires capacity >= 1 && PipelineInvariant(s, capacity) && Undecided(s, states, events, capacity)
    requires states[|events|].captureFinished && !Drained(states[|events|])
    ensures Declares(s, ts, es, capacity) && !AllDone(ts[|es|])
  {
    hide PipelineInvariant, AllDone, Drained;
    var last := states[|events|];
    var end := last.(monitor := Complete);
    assert Step(last, capacity, Decide, end);
    Extend(s, states, events, capacity, Decide, end);
    ts, es := states + [end], events + [Decide];
    PathKeepsInvariant(states, events, capacity, |events|);
    MonitorIrrelevant(last, Complete, capacity);
    DoneExactlyWhenDrained(end, capacity);
  }

  lemma MonitorIrrelevant(s: State, m: Monitor, capacity: nat)
    requires PipelineInvariant(s, capacity)
    ensures PipelineInvariant(s.(monitor := m), capacity)
    ensures Drained(s.(monitor := m)) <==> Drained(s)
  {
    hide QueueSound, Tally, Forwarded;
  }

  lemma FinishThenDeclare(s: State, states: seq<State>, events: seq<Event>, capacity: nat)
      returns (ts: seq<State>, es: seq<Event>)
    requires capacity >= 1 && PipelineInvariant(s, capacity) && Undecided(s, states, events, capacity)
    requires var last := states[|events|];
             !last.captureFinished && REASSEMBLER !in last.input.pushers && last.input.core.q != []
    ensures Declares(s, ts, es, capacity) && !AllDone(ts[|es|])
  {
    hide PipelineInvariant, AllDone;
    var end := states[|events|].(captureFinished := true);
    Extend(s, states, events, capacity, FinishCapture, end);
    ts, es := DeclareNow(s, states + [end], events + [FinishCapture], capacity);
  }

  /** The filter can always get its hands free while the output queue is empty. */
  lemma FreeFilter(s: State, capacity: nat) returns (ts: seq<State>, es: seq<Event>)
    requires capacity >= 1 && PipelineInvariant(s, capacity) && Deciding(s) && s.output.core.q == []
    ensures Undecided(s, ts, es, capacity)
    ensures var t := ts[|es|];
            t.input == s.input && t.hand == Nothing && FILTER !in t.output.pushers
            && t.captureFinished == s.captureFinished
  {
    hide QueueSound, CountsAgree, Lossless, Next;
    ts, es := [s], [];
    if s.hand.Popping? {
      var v := NpuFilter.FilteredOut;
      var t := s.(counters := NpuFilter.Count(s.counters, v).(popped := s.counters.popped),
                  verdicts := s.verdicts + [v], hand := Nothing);
      assert Step(s, capacity, Judge(v), t);
      Extend(s, ts, es, capacity, Judge(v), t);
      ts, es := ts + [t], es + [Judge(v)];
    } else if s.hand.Counted? {
      var output := PushWithRoom(s.output, capacity, FILTER, s.hand.entry);
      var t := s.(output := output, hand := Nothing);
      assert Step(s, capacity, Forward, t);
      Extend(s, ts, es, capacity, Forward, t);
      ts, es := ts + [t], es + [Forward];
    } else if FILTER in s.output.pushers {
      var output := WakeWithRoom(s.output, capacity, FILTER);
      var t := s.(output := output);
      assert Step(s, capacity, ResumeForward, t);
      Extend(s, ts, es, capacity, ResumeForward, t);
      ts, es := ts + [t], es + [ResumeForward];
    }
  }

  /** The event of the filter's pop. */
  function TakeEvent(s: State): Event {
    if FILTER in s.input.poppers then ResumeFilterPop else FilterPop
  }

  lemma FilterTakesOne(s: State, capacity: nat) returns (t: State)
    requires capacity >= 1 && PipelineInvariant(s, capacity) && s.phase == Running
    requires s.hand == Nothing && FILTER !in s.output.pushers && s.input.core.q != []
    ensures Step(s, capacity, TakeEvent(s), t)
    ensures t.input.core.q == s.input.core.q[1..] && t.input.pushers == s.input.pushers
    ensures t.output == s.output && t.hand.Popping?
    ensures t.phase == s.phase && t.offline == s.offline && t.monitor == s.monitor
    ensures t.captureFinished == s.captureFinished
  {
    hide QueueSound, CountsAgree, Lossless, Next;
    var input := PopItem(s.input, capacity, FILTER);
    var hand := PickUp(s.input, input);
    t := s.(input := input, hand := hand,
            counters := if hand == Nothing then s.counters else s.counters.(popped := s.counters.popped + 1));
  }

  /** While the reassembler waits on a full queue, the filter can take one flow, and the push ends. */
  lemma MakeRoom(s: State, capacity: nat) returns (ts: seq<State>, es: seq<Event>)
    requires capacity >= 1 && PipelineInvariant(s, capacity) && Deciding(s) && s.output.core.q == []
    requires REASSEMBLER in s.input.pushers
    ensures Undecided(s, ts, es, capacity)
    ensures var t := ts[|es|];
            |t.input.core.q| < capacity && t.input.pushers == s.input.pushers && t.captureFinished == s.captureFinished
  {
    if |s.input.core.q| < capacity {
      return [s], [];
    }
    assert |s.input.core.q| == capacity;
    hide PipelineInvariant, Step;
    ts, es := FreeFilter(s, capacity);
    PathKeepsInvariant(ts, es, capacity, |es|);
    var t := ts[|es|];
    var u := FilterTakesOne(t, capacity);
    Extend(s, ts, es, capacity, TakeEvent(t), u);
    ts, es := ts + [u], es + [TakeEvent(t)];
  }

  lemma WaitingPushEnds(s: State, capacity: nat) returns (ts: seq<State>, es: seq<Event>)
    requires capacity >= 1 && PipelineInvariant(s, capacity) && Deciding(s) && s.output.core.q == []
    requires !s.captureFinished && REASSEMBLER in s.input.pushers
    ensures Declares(s, ts, es, capacity) && !AllDone(ts[|es|])
  {
    hide PipelineInvariant, AllDone, Next, Undecided, Declares;
    ts, es := MakeRoom(s, capacity);
    var t := LastState(s, ts, es, capacity);
    var input := WakeWithRoom(t.input, capacity, REASSEMBLER);
    var u := t.(input := input);
    Extend(s, ts, es, capacity, ResumeCapture, u);
    LastOfExtended(ts, es, u);
    ts, es := FinishThenDeclare(s, ts + [u], es + [ResumeCapture], capacity);
  }

  lemma LastState(s: State, ts: seq<State>, es: seq<Event>, capacity: nat) returns (t: State)
    requires capacity >= 1 && Undecided(s, ts, es, capacity)
    ensures |ts| == |es| + 1 && t == ts[|es|] && Deciding(t)
  {
    t := ts[|es|];
  }

  lemma LastOfExtended(ts: seq<State>, es: seq<Event>, u: State)
    requires |ts| == |es| + 1
    ensures (ts + [u])[|es| + 1] == u
  {
  }

  lemma OneMoreCaptured(s: State, capacity: nat) returns (ts: seq<State>, es: seq<Event>)
    requires capacity >= 1 && PipelineInvariant(s, capacity) && Deciding(s)
    requires !s.captureFinished && REASSEMBLER !in s.input.pushers && REASSEMBLER !in s.input.poppers
    requires s.input.core.q == []
    ensures Declares(s, ts, es, capacity) && !AllDone(ts[|es|])
  {
    hide PipelineInvariant, AllDone, Next, Declares;
    var entry := Entry(1, 0);
    var input := PushWithRoom(s.input, capacity, REASSEMBLER, entry);
    var u := s.(input := input);
    Extend(s, [s], [], capacity, Capture(entry), u);
    hide Undecided;
    LastOfExtended([s], [], u);
    ts, es := FinishThenDeclare(s, [s] + [u], [] + [Capture(entry)], capacity);
  }

  lemma FailingContinuation(s: State, capacity: nat) returns (ts: seq<State>, es: seq<Event>)
    requires capacity >= 1 && PipelineInvariant(s, capacity) && Deciding(s) && s.output.core.q == []
    requires !s.captureFinished || !Drained(s)
    ensures Declares(s, ts, es, capacity) && !AllDone(ts[|es|])
  {
    assert REASSEMBLER !in s.input.poppers;
    hide PipelineInvariant, AllDone, Drained, Step, Declares;
    if s.captureFinished {
      ts, es := DeclareNow(s, [s], [], capacity);
    } else if REASSEMBLER in s.input.pushers {
      ts, es := WaitingPushEnds(s, capacity);
    } else if s.input.core.q == [] {
      ts, es := OneMoreCaptured(s, capacity);
    } else {
      ts, es := FinishThenDeclare(s, [s], [], capacity);
    }
  }

  lemma StepDeclares(s: State, capacity: nat, e: Event, s': State)
    requires capacity >= 1 && Step(s, capacity, e, s')
    ensures s'.offline == s.offline && (s.captureFinished ==> s'.captureFinished)
    ensures s'.monitor == Complete ==> s.monitor == Complete || (s.offline && s.captureFinished)
  {
    hide Next;
  }

  /** Only an offline run is ever declared complete, and only after its capture. */
  lemma {:induction false} DeclaredOnlyOffline(states: seq<State>, events: seq<Event>, capacity: nat, n: nat)
    requires capacity >= 1 && Pipeline.IsRun(states, events, capacity) && n < |states|
    ensures states[n].monitor == Complete ==> states[n].offline && states[n].captureFinished
  {
    if n > 0 {
      DeclaredOnlyOffline(states, events, capacity, n - 1);
      hide Step;
      StepDeclares(states[n - 1], capacity, events[n - 1], states[n]);
    }
  }

  /** The controller reads the input depth, then the output depth, then loads the capture flag. When both
      depths were read as 0, no way this round can go on declares the run complete with a captured flow
      still to be filtered or handed to the LLM, exactly when at the second reading the capture had
      finished, the input queue was empty, the filter had no flow in hand and no push was waiting. */
  lemma DeclaredMeansDoneExactly(states: seq<State>, events: seq<Event>, capacity: nat, n: nat)
    requires capacity >= 1 && Pipeline.IsRun(states, events, capacity) && 0 < n < |states|
    requires events[n - 1] == ReadOutputDepth && Deciding(states[n])
    ensures (forall ts, es | Declares(states[n], ts, es, capacity) :: AllDone(ts[|es|])) <==>
            var s := states[n];
            s.captureFinished && s.input.core.q == [] && s.hand == Nothing && s.output.pushers == map[]
  {
    hide Pipeline.IsRun, PipelineInvariant, AllDone, Step;
    RunsKeepInvariant(states, events, capacity, n);
    var s := states[n];
    OutputWasEmpty(states, events, capacity, n);
    FinishedNobodyWaits(s, capacity);
    if s.captureFinished && Drained(s) {
      forall ts, es | Declares(s, ts, es, capacity)
        ensures AllDone(ts[|es|])
      {
        DrainedMeansDone(s, ts, es, capacity);
      }
    } else {
      var ts, es := FailingContinuation(s, capacity);
    }
  }

  lemma OutputWasEmpty(states: seq<State>, events: seq<Event>, capacity: nat, n: nat)
    requires capacity >= 1 && Pipeline.IsRun(states, events, capacity) && 0 < n < |states|
    requires events[n - 1] == ReadOutputDepth && Deciding(states[n])
    ensures states[n].output.core.q == []
  {
    assert Step(states[n - 1], capacity, events[n - 1], states[n - 1 + 1]);
  }

  lemma FinishedNobodyWaits(s: State, capacity: nat)
    requires PipelineInvariant(s, capacity)
    ensures s.captureFinished ==> s.input.pushers == map[]
  {
  }

  lemma DrainedMeansDone(s: State, ts: seq<State>, es: seq<Event>, capacity: nat)
    requires capacity >= 1 && PipelineInvariant(s, capacity) && Deciding(s) && s.captureFinished && Drained(s)
    requires Declares(s, ts, es, capacity)
    ensures |ts| == |es| + 1 && AllDone(ts[|es|])
  {
    hide PipelineInvariant, AllDone, Step, Drained, Deciding;
    PathStaysDrained(ts, es, capacity, |es|);
    PathKeepsInvariant(ts, es, capacity, |es|);
    DoneExactlyWhenDrained(ts[|es|], capacity);
  }

  lemma InputStaysEmpty(s: State, capacity: nat, e: Event, s': State)
    requires capacity >= 1 && Step(s, capacity, e, s')
    requires s.captureFinished && s.input.core.q == [] && s.input.pushers == map[]
    ensures s'.captureFinished && s'.input.core.q == [] && s'.input.pushers == map[]
  {
    match e
    case FilterPop => PopOfEmpty(s.input, capacity, BeginPop(FILTER), s'.input);
    case ResumeFilterPop => PopOfEmpty(s.input, capacity, WakePop(FILTER), s'.input);
    case _ => hide PushTurn, PopTurn;
  }

  lemma {:induction false} InputEmptySince(states: seq<State>, events: seq<Event>, capacity: nat, i: nat, j: nat)
    requires capacity >= 1 && Pipeline.IsRun(states, events, capacity) && i <= j < |states|
    requires states[i].captureFinished && states[i].input.core.q == [] && states[i].input.pushers == map[]
    ensures states[j].captureFinished && states[j].input.core.q == [] && states[j].input.pushers == map[]
    decreases j
  {
    hide Step;
    if i < j {
      InputEmptySince(states, events, capacity, i, j - 1);
      assert Step(states[j - 1], capacity, events[j - 1], states[j - 1 + 1]);
      InputStaysEmpty(states[j - 1], capacity, events[j - 1], states[j]);
    }
  }

  /** In particular, when the capture had finished before the first depth was read, all that matters is
      the filter at the second reading: no flow in hand, no push waiting. */
  lemma CaptureBeforeReading(states: seq<State>, events: seq<Event>, capacity: nat, i: nat, n: nat)
    requires capacity >= 1 && Pipeline.IsRun(states, events, capacity) && i + 1 < n < |states|
    requires events[i] == ReadInputDepth && states[i].captureFinished && states[i + 1].monitor == SawInput(0)
    requires events[n - 1] == ReadOutputDepth && Deciding(states[n])
    ensures (forall ts, es | Declares(states[n], ts, es, capacity) :: AllDone(ts[|es|])) <==>
            states[n].hand == Nothing && states[n].output.pushers == map[]
  {
    RunsKeepInvariant(states, events, capacity, i);
    assert Step(states[i], capacity, events[i], states[i + 1]);
    assert states[i].input.core.q == [] && states[i].input.pushers == map[];
    hide Pipeline.IsRun, Step, PipelineInvariant, AllDone, Declares;
    InputEmptySince(states, events, capacity, i, n);
    DeclaredMeansDoneExactly(states, events, capacity, n);
  }

  // ---------------------------------------------------------------- two runs declared complete too early

  const EMPTY_QUEUE: Machine := Machine(Queue([], false, false, 0), map[], {}, {}, {},
                                        Log(multiset{}, [], [], multiset{}, multiset{}))

  const OPEN_QUEUE: Machine := EMPTY_QUEUE.(core := Queue([], false, true, 0))

  function Holding(entry: Entry<Flow>): Machine {
    OPEN_QUEUE.(core := Queue([entry], false, true, 0),
                log := Log(multiset{entry}, [entry], [], multiset{}, multiset{}))
  }

  function Taken(entry: Entry<Flow>): Machine {
    Holding(entry).(core := OPEN_QUEUE.core, log := Holding(entry).log.(popped := [entry]))
  }

  const CREATED: State := State(Created, true, EMPTY_QUEUE, EMPTY_QUEUE, Nothing, NpuFilter.Counters(0, 0, 0, 0), [],
                                false, Watching)

  const STARTED: State := CREATED.(phase := Running, input := OPEN_QUEUE, output := OPEN_QUEUE)

  lemma Starts()
    ensures Initial(CREATED) && Step(CREATED, 1, Start, STARTED)
  {
  }

  lemma OneCaptured(s: State, entry: Entry<Flow>)
    requires s.phase == Running && !s.captureFinished && s.input == OPEN_QUEUE
    ensures Step(s, 1, Capture(entry), s.(input := Holding(entry)))
  {
    assert Next(OPEN_QUEUE, 1, BeginPush(REASSEMBLER, entry), Holding(entry));
  }

  lemma StartedRun() returns (states: seq<State>, events: seq<Event>)
    ensures Pipeline.IsRun(states, events, 1) && |states| == 2 && states[|states| - 1] == STARTED
  {
    Starts();
    states, events := [CREATED, STARTED], [Start];
  }

  lemma Longer(states: seq<State>, events: seq<Event>, e: Event, s: State) returns (ts: seq<State>, es: seq<Event>)
    requires Pipeline.IsRun(states, events, 1) && states != [] && Step(states[|states| - 1], 1, e, s)
    ensures Pipeline.IsRun(ts, es, 1) && |ts| == |states| + 1 && ts[|ts| - 1] == s
  {
    hide Step, Initial;
    ts, es := states + [s], events + [e];
    forall i | 0 <= i < |es|
      ensures Step(ts[i], 1, es[i], ts[i + 1])
    {
      if i < |events| {
        assert Step(states[i], 1, events[i], states[i + 1]);
      }
    }
  }

  lemma OneTaken(s: State, entry: Entry<Flow>)
    requires s.phase == Running && s.input == Holding(entry) && s.hand == Nothing && FILTER !in s.output.pushers
    requires s.counters == NpuFilter.Counters(0, 0, 0, 0)
    ensures Step(s, 1, FilterPop, s.(input := Taken(entry), hand := Popping(entry),
                                     counters := NpuFilter.Counters(1, 0, 0, 0)))
  {
    assert Next(Holding(entry), 1, BeginPop(FILTER), Taken(entry));
  }

  lemma OneRound(s: State)
    requires s.phase == Running && s.monitor == Watching && s.input.core.q == [] && s.output.core.q == []
    ensures Step(s, 1, ReadInputDepth, s.(monitor := SawInput(0)))
    ensures Step(s.(monitor := SawInput(0)), 1, ReadOutputDepth, s.(monitor := SawBoth(0, 0)))
  {
  }

  lemma OneDecision(s: State)
    requires Deciding(s)
    ensures s.captureFinished ==> Step(s, 1, Decide, s.(monitor := Complete))
    ensures !s.captureFinished && REASSEMBLER !in s.input.pushers ==>
              Step(s, 1, FinishCapture, s.(captureFinished := true))
  {
  }

  /** The depths are read before the last flow arrives, the flag after. */
  lemma StaleDepthsHideAFlow(entry: Entry<Flow>)
    ensures exists states: seq<State>, events: seq<Event> ::
              && Pipeline.IsRun(states, events, 1) && |states| == 7
              && states[6].offline && states[6].monitor == Complete
              && states[6].input.core.q == [entry]
  {
    var s2 := STARTED.(monitor := SawInput(0));
    var s3 := STARTED.(monitor := SawBoth(0, 0));
    var s4 := s3.(input := Holding(entry));
    var s5 := s4.(captureFinished := true);
    var s6 := s5.(monitor := Complete);
    OneRound(STARTED);
    OneCaptured(s3, entry);
    OneDecision(s4);
    OneDecision(s5);
    hide Step, Initial, Pipeline.IsRun;
    var states, events := StartedRun();
    states, events := Longer(states, events, ReadInputDepth, s2);
    states, events := Longer(states, events, ReadOutputDepth, s3);
    states, events := Longer(states, events, Capture(entry), s4);
    states, events := Longer(states, events, FinishCapture, s5);
    states, events := Longer(states, events, Decide, s6);
  }

  /** Both depths are 0 and the capture has finished, but the filter still has a flow in hand. */
  lemma EmptyQueuesCanHideAFlow(entry: Entry<Flow>)
    ensures exists states: seq<State>, events: seq<Event> ::
              && Pipeline.IsRun(states, events, 1) && |states| == 8
              && states[7].offline && states[7].monitor == Complete
              && states[7].input.core.q == [] && states[7].output.core.q == []
              && states[7].hand == Popping(entry)
  {
    var s2 := STARTED.(input := Holding(entry));
    var s3 := s2.(captureFinished := true);
    var s4 := s3.(input := Taken(entry), hand := Popping(entry), counters := NpuFilter.Counters(1, 0, 0, 0));
    var s5, s6, s7 := s4.(monitor := SawInput(0)), s4.(monitor := SawBoth(0, 0)), s4.(monitor := Complete);
    OneCaptured(STARTED, entry);
    assert Step(s2, 1, FinishCapture, s3);
    OneTaken(s3, entry);
    OneRound(s4);
    OneDecision(s6);
    hide Step, Initial, Pipeline.IsRun;
    var states, events := StartedRun();
    states, events := Longer(states, events, Capture(entry), s2);
    states, events := Longer(states, events, FinishCapture, s3);
    states, events := Longer(states, events, FilterPop, s4);
    states, events := Longer(states, events, ReadInputDepth, s5);
    states, events := Longer(states, events, ReadOutputDepth, s6);
    states, events := Longer(states, events, Decide, s7);
  }

  // ---------------------------------------------------------------- progress

  /** What is still to be done for everything that is on its way. */
  function Work(s: State): nat {
    |s.output.core.q| + (if FILTER in s.output.pushers then 2 else 0)
    + (match s.hand
       case Nothing => 0
       case Counted(_) => 2
       case Popping(_) => 3)
    + 4 * |s.input.core.q| + (if REASSEMBLER in s.input.pushers then 5 else 0)
  }

  lemma NoWorkWhenDrained(s: State, capacity: nat)
    requires PipelineInvariant(s, capacity)
    ensures Work(s) == 0 <==> Drained(s)
  {
    hide QueueSound, CountsAgree, Lossless;
    assert s.input.pushers == map[] <==> REASSEMBLER !in s.input.pushers;
    assert s.output.pushers == map[] <==> FILTER !in s.output.pushers;
  }

  /** A step of a worker thread that captures nothing new, with the verdict that `judge` gives. */
  predicate WorkerStep(s: State, e: Event, judge: Entry<Flow> -> NpuFilter.Verdict) {
    match e
    case ResumeCapture => true
    case FilterPop => true
    case ResumeFilterPop => true
    case Judge(v) => s.hand.Popping? && v == judge(s.hand.flow)
    case Forward => true
    case ResumeForward => true
    case LlmPop => true
    case ResumeLlmPop => true
    case _ => false
  }

  /** The event of the LLM worker's pop. */
  function LlmEvent(s: State): Event {
    if LLM in s.output.poppers then ResumeLlmPop else LlmPop
  }

  lemma OutputWorks(s: State, capacity: nat) returns (e: Event, t: State)
    requires capacity >= 1 && PipelineInvariant(s, capacity) && s.phase == Running
    requires s.output.core.q != [] || FILTER in s.output.pushers || s.hand.Counted?
    ensures Step(s, capacity, e, t) && t.phase == Running && Work(t) < Work(s)
    ensures forall judge :: WorkerStep(s, e, judge)
  {
    hide QueueSound, CountsAgree, Lossless, Next;
    if s.output.core.q != [] {
      var output := PopItem(s.output, capacity, LLM);
      e, t := LlmEvent(s), s.(output := output);
    } else if FILTER in s.output.pushers {
      var output := WakeWithRoom(s.output, capacity, FILTER);
      e, t := ResumeForward, s.(output := output);
    } else {
      var output := PushWithRoom(s.output, capacity, FILTER, s.hand.entry);
      e, t := Forward, s.(output := output, hand := Nothing);
    }
  }

  lemma JudgingWorks(s: State, capacity: nat, v: NpuFilter.Verdict) returns (t: State)
    requires capacity >= 1 && s.phase == Running && s.hand.Popping?
    ensures Step(s, capacity, Judge(v), t) && t.phase == Running && Work(t) < Work(s)
  {
    t := s.(counters := NpuFilter.Count(s.counters, v).(popped := s.counters.popped), verdicts := s.verdicts + [v],
            hand := if v.PassedOn? then Counted(Entry(v.priority, s.hand.flow.item)) else Nothing);
  }

  lemma TakingWorks(s: State, capacity: nat) returns (t: State)
    requires capacity >= 1 && PipelineInvariant(s, capacity) && s.phase == Running
    requires s.hand == Nothing && FILTER !in s.output.pushers && s.input.core.q != []
    ensures Step(s, capacity, TakeEvent(s), t) && t.phase == Running && Work(t) < Work(s)
  {
    hide PipelineInvariant, Step;
    t := FilterTakesOne(s, capacity);
  }

  lemma ResumingWorks(s: State, capacity: nat) returns (t: State)
    requires capacity >= 1 && s.phase == Running && s.input.core.q == [] && REASSEMBLER in s.input.pushers
    ensures Step(s, capacity, ResumeCapture, t) && t.phase == Running && Work(t) < Work(s)
  {
    hide Next;
    var input := WakeWithRoom(s.input, capacity, REASSEMBLER);
    t := s.(input := input);
  }

  lemma InputWorks(s: State, capacity: nat, judge: Entry<Flow> -> NpuFilter.Verdict) returns (e: Event, t: State)
    requires capacity >= 1 && PipelineInvariant(s, capacity) && s.phase == Running
    requires FILTER !in s.output.pushers && !s.hand.Counted?
    requires s.hand.Popping? || s.input.core.q != [] || REASSEMBLER in s.input.pushers
    ensures Step(s, capacity, e, t) && t.phase == Running && Work(t) < Work(s)
    ensures WorkerStep(s, e, judge)
  {
    hide PipelineInvariant, Step, Work;
    if s.hand.Popping? {
      e := Judge(judge(s.hand.flow));
      t := JudgingWorks(s, capacity, judge(s.hand.flow));
    } else if s.input.core.q != [] {
      e := TakeEvent(s);
      t := TakingWorks(s, capacity);
    } else {
      e := ResumeCapture;
      t := ResumingWorks(s, capacity);
    }
  }

  ghost predicate WorkerPath(states: seq<State>, events: seq<Event>, capacity: nat,
                             judge: Entry<Flow> -> NpuFilter.Verdict)
    requires capacity >= 1
  {
    && Path(states, events, capacity)
    && forall i | 0 <= i < |events| :: WorkerStep(states[i], events[i], judge)
  }

  lemma OneStepFirst(s: State, e: Event, states: seq<State>, events: seq<Event>, capacity: nat,
                     judge: Entry<Flow> -> NpuFilter.Verdict)
    requires capacity >= 1 && WorkerPath(states, events, capacity, judge)
    requires Step(s, capacity, e, states[0]) && WorkerStep(s, e, judge)
    ensures WorkerPath([s] + states, [e] + events, capacity, judge)
  {
    hide Step, WorkerStep;
    var ts, es := [s] + states, [e] + events;
    forall i | 0 <= i < |es|
      ensures Step(ts[i], capacity, es[i], ts[i + 1]) && WorkerStep(ts[i], es[i], judge)
    {
      if i > 0 {
        assert Step(states[i - 1], capacity, events[i - 1], states[i - 1 + 1]);
        assert WorkerStep(states[i - 1], events[i - 1], judge);
      }
    }
  }

  lemma {:induction false} WorkersDrain(s: State, capacity: nat, judge: Entry<Flow> -> NpuFilter.Verdict)
    returns (states: seq<State>, events: seq<Event>)
    requires capacity >= 1 && PipelineInvariant(s, capacity) && s.phase == Running
    ensures WorkerPath(states, events, capacity, judge) && states[0] == s && Drained(states[|events|])
    ensures |events| <= Work(s)
    decreases Work(s)
  {
    hide PipelineInvariant, Step, WorkerStep;
    NoWorkWhenDrained(s, capacity);
    if Drained(s) {
      states, events := [s], [];
    } else {
      var e, t := SomeStepDown(s, capacity, judge);
      StepKeepsInvariant(s, capacity, e, t);
      hide Work, Drained;
      states, events := WorkersDrain(t, capacity, judge);
      OneStepFirst(s, e, states, events, capacity, judge);
      states, events := [s] + states, [e] + events;
    }
  }

  lemma SomeStepDown(s: State, capacity: nat, judge: Entry<Flow> -> NpuFilter.Verdict) returns (e: Event, t: State)
    requires capacity >= 1 && PipelineInvariant(s, capacity) && s.phase == Running && Work(s) > 0
    ensures Step(s, capacity, e, t) && t.phase == Running && Work(t) < Work(s)
    ensures WorkerStep(s, e, judge)
  {
    hide PipelineInvariant, Step, WorkerStep;
    if s.output.core.q != [] || FILTER in s.output.pushers || s.hand.Counted? {
      e, t := OutputWorks(s, capacity);
    } else {
      e, t := InputWorks(s, capacity, judge);
    }
  }

  /** Progress. From every state that a run reaches while the pipeline is running, whoever sleeps, whichever
      queue is full and whatever the filter's verdicts will be, steps of the worker threads alone lead to a
      state with nothing queued, in hand or waiting, in at most as many steps as there is work; offline,
      every flow captured so far is then filtered or handed to the LLM. */
  lemma WorkersCanDrain(states: seq<State>, events: seq<Event>, capacity: nat, n: nat,
                        judge: Entry<Flow> -> NpuFilter.Verdict)
    returns (ts: seq<State>, es: seq<Event>)
    requires capacity >= 1 && Pipeline.IsRun(states, events, capacity) && n < |states| && states[n].phase == Running
    ensures WorkerPath(ts, es, capacity, judge) && ts[0] == states[n] && |es| <= Work(states[n])
    ensures Drained(ts[|es|])
    ensures states[n].offline ==> AllDone(ts[|es|])
  {
    hide Pipeline.IsRun, PipelineInvariant, Step, WorkerStep, AllDone;
    RunsKeepInvariant(states, events, capacity, n);
    ts, es := WorkersDrain(states[n], capacity, judge);
    PathKeepsInvariant(ts, es, capacity, |es|);
    WorkersKeepPhase(ts, es, capacity, judge, |es|);
    if states[n].offline {
      DoneExactlyWhenDrained(ts[|es|], capacity);
    }
  }

  lemma WorkerKeepsPhase(s: State, capacity: nat, e: Event, t: State, judge: Entry<Flow> -> NpuFilter.Verdict)
    requires capacity >= 1 && Step(s, capacity, e, t) && WorkerStep(s, e, judge)
    ensures t.phase == s.phase && t.offline == s.offline
  {
    hide Next;
  }

  lemma {:induction false} WorkersKeepPhase(ts: seq<State>, es: seq<Event>, capacity: nat,
                                            judge: Entry<Flow> -> NpuFilter.Verdict, i: nat)
    requires capacity >= 1 && WorkerPath(ts, es, capacity, judge) && i < |ts|
    ensures ts[i].phase == ts[0].phase && ts[i].offline == ts[0].offline
  {
    hide Step, WorkerStep;
    if i > 0 {
      WorkersKeepPhase(ts, es, capacity, judge, i - 1);
      assert Step(ts[i - 1], capacity, es[i - 1], ts[i - 1 + 1]);
      WorkerKeepsPhase(ts[i - 1], capacity, es[i - 1], ts[i], judge);
    }
  }
}
