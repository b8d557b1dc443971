/** The queue shared by threads: every interleaving of its critical sections and wakeups. */
module QueueConcurrency {
  import opened Options
  import opened Sequences
  import opened PriorityQueue

  type Thread = nat

  /** Queued items are told apart by identity only. */
  type Flow = nat

  /** What passed through the queue: entries stored, entries popped, both in order; entries lost to
      an emergency drop or a rejected push. */
  datatype Log = Log(pushes: multiset<Entry<Flow>>, stored: seq<Entry<Flow>>, popped: seq<Entry<Flow>>,
                        evicted: multiset<Entry<Flow>>, rejected: multiset<Entry<Flow>>)

  /** Threads blocked in push with their entries, threads blocked in pop, and those of each that
      were notified but did not run yet. */
  datatype Machine = Machine(core: Queue<Flow>, pushers: map<Thread, Entry<Flow>>, pushSignals: set<Thread>,
                                poppers: set<Thread>, popSignals: set<Thread>, log: Log)

  datatype Action =
    | BeginPush(thread: Thread, entry: Entry<Flow>)
    | WakePush(thread: Thread)
    | BeginPop(thread: Thread)
    | WakePop(thread: Thread)
    | SetBlocking(enable: bool)
    | Finish

  // ---------------------------------------------------------------- steps

  /** notify_one: some waiting thread not notified yet becomes notified, if there is one. */
  ghost predicate NotifyOne(waiting: set<Thread>, signals: set<Thread>, signals': set<Thread>) {
    if waiting - signals == {} then signals' == signals
    else exists t :: t in waiting - signals && signals' == signals + {t}
  }

  function LogPush(log: Log, e: Entry<Flow>, outcome: Push<Flow>): Log {
    match outcome
    case Stored(None) => log.(stored := log.stored + [e])
    case Stored(Some(lowest)) => log.(stored := log.stored + [e], evicted := log.evicted + multiset{lowest})
    case Rejected => log.(rejected := log.rejected + multiset{e})
    case MustWait => log
  }

  /** The effect of a push that got its turn: waits, or takes effect and notifies a popper. */
  ghost predicate PushTurn(m: Machine, capacity: nat, t: Thread, e: Entry<Flow>, m': Machine)
    requires capacity >= 1
  {
    var (core', outcome) := EnterPush(m.core, capacity, e);
    && m'.core == core'
    && m'.poppers == m.poppers
    && m'.pushSignals == m.pushSignals - {t}
    && m'.log == LogPush(m.log, e, outcome)
    && m'.pushers == (if outcome == MustWait then m.pushers[t := e] else m.pushers - {t})
    && (if outcome.Stored? then NotifyOne(m.poppers, m.popSignals, m'.popSignals) else m'.popSignals == m.popSignals)
  }

  ghost predicate PopTurn(m: Machine, t: Thread, m': Machine) {
    var (core', outcome) := EnterPop(m.core);
    && m'.core == core'
    && m'.pushers == m.pushers
    && m'.popSignals == m.popSignals - {t}
    && m'.poppers == (if outcome == MustWaitForItem then m.poppers + {t} else m.poppers - {t})
    && m'.log == (if outcome.Popped? then m.log.(popped := m.log.popped + [outcome.entry]) else m.log)
    && (if outcome.Popped? then NotifyOne(m.pushers.Keys, m.pushSignals, m'.pushSignals)
        else m'.pushSignals == m.pushSignals)
  }

  /** A wakeup may be due to a notification or spurious. */
  ghost predicate Next(m: Machine, capacity: nat, a: Action, m': Machine)
    requires capacity >= 1
  {
    match a
    case BeginPush(t, e) =>
      t !in m.pushers && t !in m.poppers
      && PushTurn(m.(log := m.log.(pushes := m.log.pushes + multiset{e})), capacity, t, e, m')
    case WakePush(t) => t in m.pushers && WokenPush(m, capacity, t, m')
    case BeginPop(t) => t !in m.pushers && t !in m.poppers && PopTurn(m, t, m')
    case WakePop(t) => t in m.poppers && PopTurn(m, t, m')
    case SetBlocking(enable) =>
      m' == m.(core := m.core.(blocking := enable),
               pushSignals := if enable then m.pushSignals else m.pushers.Keys)
    case Finish =>
      m' == m.(core := m.core.(done := true), pushSignals := m.pushers.Keys, popSignals := m.poppers)
  }

  /** A woken pusher re-tests its predicate, then completes without another look at the mode. */
  ghost predicate WokenPush(m: Machine, capacity: nat, t: Thread, m': Machine)
    requires t in m.pushers
  {
    var e := m.pushers[t];
    if !PushReady(m.core, capacity) then m' == m.(pushSignals := m.pushSignals - {t})
    else
      var (core', outcome) := CompletePush(m.core, capacity, e);
      && m'.core == core'
      && m'.poppers == m.poppers
      && m'.pushSignals == m.pushSignals - {t}
      && m'.pushers == m.pushers - {t}
      && m'.log == LogPush(m.log, e, outcome)
      && (if outcome.Stored? then NotifyOne(m.poppers, m.popSignals, m'.popSignals) else m'.popSignals == m.popSignals)
  }

  ghost predicate Init(m: Machine) {
    m == Machine(Queue([], false, false, 0), map[], {}, {}, {}, Log(multiset{}, [], [], multiset{}, multiset{}))
  }

  ghost predicate IsRun(states: seq<Machine>, actions: seq<Action>, capacity: nat)
    requires capacity >= 1
  {
    && |states| == |actions| + 1
    && Init(states[0])
    && forall i | 0 <= i < |actions| :: Next(states[i], capacity, actions[i], states[i + 1])
  }

  // ---------------------------------------------------------------- no lost wakeup

  /** A sleeping thread that was not notified is outnumbered: whatever work there is, enough
      notified threads are already on their way to it. */
  ghost predicate NoLostWakeup(m: Machine, capacity: nat) {
    && (m.pushers.Keys - m.pushSignals != {} ==>
          m.core.blocking && !m.core.done && capacity - |m.core.q| <= |m.pushSignals|)
    && (m.poppers - m.popSignals != {} ==> !m.core.done && |m.core.q| <= |m.popSignals|)
  }

  ghost predicate Wellformed(m: Machine, capacity: nat) {
    && |m.core.q| <= capacity
    && Descending(m.core.q)
    && m.pushSignals <= m.pushers.Keys
    && m.popSignals <= m.poppers
  }

  lemma NotifyOneCounts(waiting: set<Thread>, signals: set<Thread>, signals': set<Thread>)
    requires NotifyOne(waiting, signals, signals') && signals <= waiting
    ensures signals <= signals' <= waiting
    ensures waiting - signals' != {} ==> |signals'| == |signals| + 1
  {
  }

  lemma RemoveCounts(s: set<Thread>, t: Thread)
    ensures |s| - 1 <= |s - {t}| <= |s|
  {
    if t !in s {
      assert s - {t} == s;
    }
  }

  lemma PushTurnKeepsWakeups(m: Machine, capacity: nat, t: Thread, e: Entry<Flow>, m': Machine)
    requires capacity >= 1 && t !in m.pushers && t !in m.poppers
    requires Wellformed(m, capacity) && NoLostWakeup(m, capacity) && PushTurn(m, capacity, t, e, m')
    ensures Wellformed(m', capacity) && NoLostWakeup(m', capacity)
  {
    PushKeepsOrder(m.core, capacity, e);
    hide Insert, Descending;
    assert m.pushSignals - {t} == m.pushSignals;
    assert m.pushers - {t} == m.pushers;
    if EnterPush(m.core, capacity, e).1.Stored? {
      NotifyOneCounts(m.poppers, m.popSignals, m'.popSignals);
    }
  }

  lemma PushKeepsOrder(s: Queue<Flow>, capacity: nat, e: Entry<Flow>)
    requires capacity >= 1 && |s.q| <= capacity && Descending(s.q)
    ensures var (s', outcome) := EnterPush(s, capacity, e);
            && Descending(s'.q) && |s'.q| <= capacity
            && |s'.q| == |s.q| + (if outcome == Stored(None) then 1 else 0)
            && s'.done == s.done && s'.blocking == s.blocking
            && (outcome == MustWait ==> |s.q| == capacity && s.blocking && !s.done)
    ensures var (s', outcome) := CompletePush(s, capacity, e);
            && Descending(s'.q) && |s'.q| <= capacity
            && |s'.q| == |s.q| + (if outcome == Stored(None) then 1 else 0)
            && s'.done == s.done && s'.blocking == s.blocking
  {
    InsertKeepsDescending(s.q, e);
    if s.q != [] {
      InsertKeepsDescending(s.q[..|s.q| - 1], e);
    }
  }

  lemma WokenPushKeepsWakeups(m: Machine, capacity: nat, t: Thread, m': Machine)
    requires capacity >= 1 && t in m.pushers
    requires Wellformed(m, capacity) && NoLostWakeup(m, capacity) && WokenPush(m, capacity, t, m')
    ensures Wellformed(m', capacity) && NoLostWakeup(m', capacity)
  {
    PushKeepsOrder(m.core, capacity, m.pushers[t]);
    hide Insert, Descending;
    RemoveCounts(m.pushSignals, t);
    if PushReady(m.core, capacity) {
      assert m'.pushers.Keys == m.pushers.Keys - {t};
      if t in m.pushers.Keys - m.pushSignals {
        assert m.pushSignals - {t} == m.pushSignals;
      }
      assert m'.pushers.Keys - m'.pushSignals <= m.pushers.Keys - m.pushSignals;
      if CompletePush(m.core, capacity, m.pushers[t]).1.Stored? {
        NotifyOneCounts(m.poppers, m.popSignals, m'.popSignals);
      }
    }
  }

  lemma PopTurnKeepsPushers(m: Machine, capacity: nat, t: Thread, m': Machine)
    requires capacity >= 1
    requires Wellformed(m, capacity) && NoLostWakeup(m, capacity) && PopTurn(m, t, m')
    ensures m'.pushSignals <= m'.pushers.Keys
    ensures m'.pushers.Keys - m'.pushSignals != {} ==>
              m'.core.blocking && !m'.core.done && capacity - |m'.core.q| <= |m'.pushSignals|
  {
    hide Descending;
    if EnterPop(m.core).1.Popped? {
      NotifyOneCounts(m.pushers.Keys, m.pushSignals, m'.pushSignals);
      assert m'.pushers.Keys - m'.pushSignals <= m.pushers.Keys - m.pushSignals;
    }
  }

  lemma UnsignalledShrink(waiting: set<Thread>, signals: set<Thread>, t: Thread)
    ensures waiting - {t} - (signals - {t}) <= waiting - signals
    ensures |signals| - 1 <= |signals - {t}|
  {
    RemoveCounts(signals, t);
  }

  lemma PopKeepsOrder(s: Queue<Flow>, capacity: nat)
    requires |s.q| <= capacity && Descending(s.q)
    ensures Descending(EnterPop(s).0.q) && |EnterPop(s).0.q| <= capacity
  {
  }

  lemma PopTurnKeepsPoppers(m: Machine, capacity: nat, t: Thread, m': Machine)
    requires capacity >= 1
    requires Wellformed(m, capacity) && NoLostWakeup(m, capacity) && PopTurn(m, t, m')
    ensures Wellformed(m', capacity) || !(m'.pushSignals <= m'.pushers.Keys)
    ensures m'.poppers - m'.popSignals != {} ==> !m'.core.done && |m'.core.q| <= |m'.popSignals|
  {
    PopKeepsOrder(m.core, capacity);
    hide Descending, NotifyOne;
    UnsignalledShrink(m.poppers, m.popSignals, t);
    var before, after := m.poppers - m.popSignals, m'.poppers - m'.popSignals;
    if EnterPop(m.core).1 != MustWaitForItem && after != {} {
      assert after <= before;
      assert before != {};
    }
  }

  lemma PopTurnKeepsWakeups(m: Machine, capacity: nat, t: Thread, m': Machine)
    requires capacity >= 1
    requires Wellformed(m, capacity) && NoLostWakeup(m, capacity) && PopTurn(m, t, m')
    ensures Wellformed(m', capacity) && NoLostWakeup(m', capacity)
  {
    PopTurnKeepsPushers(m, capacity, t, m');
    PopTurnKeepsPoppers(m, capacity, t, m');
  }

  /** A thread waits in at most one of the two places. */
  ghost predicate OnePlaceEach(m: Machine) {
    forall t | t in m.pushers :: t !in m.poppers
  }

  lemma NextKeepsPlaces(m: Machine, capacity: nat, a: Action, m': Machine)
    requires capacity >= 1 && OnePlaceEach(m) && Next(m, capacity, a, m')
    ensures OnePlaceEach(m')
  {
    hide EnterPush, CompletePush, EnterPop, NotifyOne, LogPush;
  }

  lemma NextKeepsWakeups(m: Machine, capacity: nat, a: Action, m': Machine)
    requires capacity >= 1 && Wellformed(m, capacity) && NoLostWakeup(m, capacity)
    requires Next(m, capacity, a, m')
    ensures Wellformed(m', capacity) && NoLostWakeup(m', capacity)
  {
    match a
    case BeginPush(t, e) =>
      hide PushTurn, Descending;
      PushTurnKeepsWakeups(m.(log := m.log.(pushes := m.log.pushes + multiset{e})), capacity, t, e, m');
    case WakePush(t) => WokenPushKeepsWakeups(m, capacity, t, m');
    case BeginPop(t) => PopTurnKeepsWakeups(m, capacity, t, m');
    case WakePop(t) => PopTurnKeepsWakeups(m, capacity, t, m');
    case SetBlocking(_) =>
    case Finish =>
  }

  lemma InitWakeups(m: Machine, capacity: nat)
    requires Init(m)
    ensures Wellformed(m, capacity) && NoLostWakeup(m, capacity) && OnePlaceEach(m)
  {
  }

  lemma {:induction false} RunsKeepWakeups(states: seq<Machine>, actions: seq<Action>, capacity: nat, n: nat)
    requires capacity >= 1 && IsRun(states, actions, capacity) && n < |states|
    ensures Wellformed(states[n], capacity) && NoLostWakeup(states[n], capacity) && OnePlaceEach(states[n])
  {
    hide Wellformed, NoLostWakeup, OnePlaceEach, Next, Init;
    if n == 0 {
      InitWakeups(states[0], capacity);
    } else {
      RunsKeepWakeups(states, actions, capacity, n - 1);
      assert Next(states[n - 1], capacity, actions[n - 1], states[n - 1 + 1]);
      NextKeepsPlaces(states[n - 1], capacity, actions[n - 1], states[n]);
      NextKeepsWakeups(states[n - 1], capacity, actions[n - 1], states[n]);
    }
  }

  /** No lost wakeup. In every state of every interleaving: when nobody who was notified is still
      due to run, sleeping pushers mean a full queue in blocking mode and sleeping poppers an empty
      one, so the two never sleep at once, and after finish() nobody sleeps at all. */
  lemma NobodySleepsOnWork(states: seq<Machine>, actions: seq<Action>, capacity: nat, n: nat)
    requires capacity >= 1 && IsRun(states, actions, capacity) && n < |states|
    requires states[n].pushSignals == {} && states[n].popSignals == {}
    ensures var m := states[n];
            && (m.pushers != map[] ==> |m.core.q| == capacity && m.core.blocking && !m.core.done)
            && (m.poppers != {} ==> m.core.q == [] && !m.core.done)
            && (m.pushers == map[] || m.poppers == {})
  {
    RunsKeepWakeups(states, actions, capacity, n);
    var m := states[n];
    assert m.poppers - m.popSignals == m.poppers;
    assert m.pushers.Keys - m.pushSignals == m.pushers.Keys;
    assert m.pushers != map[] ==> m.pushers.Keys != {};
  }

  // ---------------------------------------------------------------- conservation and order

  ghost function Waiting(pushers: map<Thread, Entry<Flow>>): multiset<Entry<Flow>> {
    if pushers == map[] then multiset{}
    else
      var t :| t in pushers;
      multiset{pushers[t]} + Waiting(pushers - {t})
  }

  lemma SmallerWithout(pushers: map<Thread, Entry<Flow>>, t: Thread)
    requires t in pushers
    ensures |pushers - {t}| < |pushers|
  {
    assert (pushers - {t}).Keys == pushers.Keys - {t};
    assert |pushers - {t}| == |(pushers - {t}).Keys| && |pushers| == |pushers.Keys|;
  }

  lemma WaitingPick(pushers: map<Thread, Entry<Flow>>) returns (t: Thread)
    requires pushers != map[]
    ensures t in pushers && Waiting(pushers) == multiset{pushers[t]} + Waiting(pushers - {t})
  {
    t :| t in pushers && Waiting(pushers) == multiset{pushers[t]} + Waiting(pushers - {t});
  }

  lemma {:induction false} WaitingRemove(pushers: map<Thread, Entry<Flow>>, t: Thread)
    requires t in pushers
    ensures Waiting(pushers) == multiset{pushers[t]} + Waiting(pushers - {t})
    decreases |pushers|
  {
    hide Waiting;
    var first := WaitingPick(pushers);
    if first != t {
      SmallerWithout(pushers, first);
      SmallerWithout(pushers, t);
      WaitingRemove(pushers - {first}, t);
      WaitingRemove(pushers - {t}, first);
      assert pushers - {first} - {t} == pushers - {t} - {first};
    }
  }

  lemma WaitingAdd(pushers: map<Thread, Entry<Flow>>, t: Thread, e: Entry<Flow>)
    requires t !in pushers
    ensures Waiting(pushers[t := e]) == Waiting(pushers) + multiset{e}
  {
    WaitingRemove(pushers[t := e], t);
    assert pushers[t := e] - {t} == pushers;
  }

  /** Every entry ever offered is queued, popped, evicted, rejected or in the hands of a waiting
      pusher, and the drop counter counts the lost ones. */
  ghost predicate Conserved(m: Machine) {
    && m.log.pushes == multiset(m.core.q) + multiset(m.log.popped) + m.log.evicted + m.log.rejected
                       + Waiting(m.pushers)
    && m.core.dropped == |m.log.evicted| + |m.log.rejected|
  }

  /** Of each priority, what was popped and then what is queued came in that order. */
  ghost predicate InOrder(q: seq<Entry<Flow>>, log: Log) {
    forall p :: Subsequence(Band(log.popped, p) + Band(q, p), Band(log.stored, p))
  }

  /** The entries of each priority leave in the order they came, and as long as nothing was evicted
      none is missing. */
  ghost predicate Fifo(m: Machine) {
    && Descending(m.core.q)
    && InOrder(m.core.q, m.log)
    && (m.log.evicted == multiset{} ==>
          forall p :: Band(m.log.stored, p) == Band(m.log.popped, p) + Band(m.core.q, p))
  }

  /** All entries held or lost, other than those popped or with waiting pushers. */
  ghost function Settled(q: seq<Entry<Flow>>, log: Log): multiset<Entry<Flow>> {
    multiset(q) + log.evicted + log.rejected
  }

  lemma ConservedIff(m: Machine)
    ensures Conserved(m) <==>
              && m.log.pushes == Settled(m.core.q, m.log) + multiset(m.log.popped) + Waiting(m.pushers)
              && m.core.dropped == |m.log.evicted| + |m.log.rejected|
  {
    hide Waiting;
    assert multiset(m.core.q) + multiset(m.log.popped) + m.log.evicted + m.log.rejected
           == Settled(m.core.q, m.log) + multiset(m.log.popped);
  }

  lemma InsertSettles(q: seq<Entry<Flow>>, e: Entry<Flow>, log: Log)
    ensures Settled(Insert(q, e), log) == Settled(q, log) + multiset{e}
    ensures Settled(q, log.(rejected := log.rejected + multiset{e})) == Settled(q, log) + multiset{e}
  {
    InsertAddsOne(q, e);
    hide Insert;
  }

  lemma Exchange<T>(front: multiset<T>, evicted: multiset<T>, rejected: multiset<T>, last: T, e: T)
    ensures (front + multiset{e}) + (evicted + multiset{last}) + rejected
            == (front + multiset{last}) + evicted + rejected + multiset{e}
  {
  }

  lemma EvictionSettles(q: seq<Entry<Flow>>, e: Entry<Flow>, log: Log)
    requires q != []
    ensures var n := |q| - 1;
            Settled(Insert(q[..n], e), log.(evicted := log.evicted + multiset{q[n]})) == Settled(q, log) + multiset{e}
  {
    var n := |q| - 1;
    hide Insert;
    InsertAddsOne(q[..n], e);
    SplitLast(q);
    Exchange(multiset(q[..n]), log.evicted, log.rejected, q[n], e);
  }

  /** An entry that got its turn is settled, one way or another, unless it must wait. */
  lemma PushSettles(s: Queue<Flow>, capacity: nat, e: Entry<Flow>, log: Log, direct: bool)
    requires capacity >= 1
    ensures var (s', outcome) := if direct then EnterPush(s, capacity, e) else CompletePush(s, capacity, e);
            var log' := LogPush(log, e, outcome);
            && log'.pushes == log.pushes && log'.popped == log.popped
            && Settled(s'.q, log')
               == (if outcome == MustWait then Settled(s.q, log) else Settled(s.q, log) + multiset{e})
            && s'.dropped - |log'.evicted| - |log'.rejected| == s.dropped - |log.evicted| - |log.rejected|
            && (!direct ==> outcome != MustWait)
  {
    hide Insert, Settled;
    InsertSettles(s.q, e, log);
    if |s.q| >= capacity {
      EvictionSettles(s.q, e, log);
    }
    SettledIgnoresStored(s.q, log, e);
    SettledIgnoresStored(Insert(s.q, e), log, e);
    if s.q != [] {
      SettledIgnoresStored(Insert(s.q[..|s.q| - 1], e),
                           log.(evicted := log.evicted + multiset{s.q[|s.q| - 1]}), e);
    }
  }

  lemma SettledIgnoresStored(q: seq<Entry<Flow>>, log: Log, e: Entry<Flow>)
    ensures Settled(q, log.(stored := log.stored + [e])) == Settled(q, log)
  {
  }

  lemma PushKeepsFifo(s: Queue<Flow>, capacity: nat, e: Entry<Flow>, log: Log, direct: bool)
    requires capacity >= 1 && Descending(s.q)
    requires log.evicted == multiset{} ==> forall p :: Band(log.stored, p) == Band(log.popped, p) + Band(s.q, p)
    ensures var (s', outcome) := if direct then EnterPush(s, capacity, e) else CompletePush(s, capacity, e);
            var log' := LogPush(log, e, outcome);
            && Descending(s'.q)
            && (log'.evicted == multiset{} ==>
                  forall p :: Band(log'.stored, p) == Band(log'.popped, p) + Band(s'.q, p))
  {
    hide Insert, Band;
    InsertKeepsDescending(s.q, e);
    if s.q != [] {
      InsertKeepsDescending(s.q[..|s.q| - 1], e);
    }
    if log.evicted == multiset{} {
      StoredExactly(s.q, e, log);
    }
  }

  lemma StoredExactly(q: seq<Entry<Flow>>, e: Entry<Flow>, log: Log)
    requires Descending(q) && forall p :: Band(log.stored, p) == Band(log.popped, p) + Band(q, p)
    ensures forall p :: Band(log.stored + [e], p) == Band(log.popped, p) + Band(Insert(q, e), p)
  {
    hide Insert;
    forall p
      ensures Band(log.stored + [e], p) == Band(log.popped, p) + Band(Insert(q, e), p)
    {
      BandConcat(log.stored, [e], p);
      InsertAppendsToBand(q, e, p);
      Associate(Band(log.popped, p), Band(q, p), Band([e], p));
    }
  }

  lemma StoredInOrder(q: seq<Entry<Flow>>, e: Entry<Flow>, log: Log)
    requires Descending(q) && InOrder(q, log)
    ensures InOrder(Insert(q, e), log.(stored := log.stored + [e]))
  {
    hide Insert;
    forall p
      ensures Subsequence(Band(log.popped, p) + Band(Insert(q, e), p), Band(log.stored + [e], p))
    {
      BandConcat(log.stored, [e], p);
      InsertAppendsToBand(q, e, p);
      BothAppended(Band(log.popped, p) + Band(q, p), Band(log.stored, p), Band([e], p));
      Associate(Band(log.popped, p), Band(q, p), Band([e], p));
    }
  }

  lemma LastEvictedInOrder(q: seq<Entry<Flow>>, log: Log)
    requires q != [] && InOrder(q, log)
    ensures InOrder(q[..|q| - 1], log)
  {
    var front, last := q[..|q| - 1], q[|q| - 1];
    assert q == front + [last];
    forall p
      ensures Subsequence(Band(log.popped, p) + Band(front, p), Band(log.stored, p))
    {
      BandConcat(front, [last], p);
      BandOfOne(last, p);
      var all, rest := Band(log.popped, p) + Band(q, p), Band(log.popped, p) + Band(front, p);
      if last.priority == p {
        assert all == rest + [last];
        LastLeftOut(all, Band(log.stored, p));
        assert all[..|all| - 1] == rest;
      } else {
        assert all == rest;
      }
    }
  }

  lemma BandOfOne(e: Entry<Flow>, p: int)
    ensures Band([e], p) == if e.priority == p then [e] else []
  {
  }

  lemma PushInOrder(s: Queue<Flow>, capacity: nat, e: Entry<Flow>, log: Log, direct: bool)
    requires capacity >= 1 && Descending(s.q) && InOrder(s.q, log)
    ensures var (s', outcome) := if direct then EnterPush(s, capacity, e) else CompletePush(s, capacity, e);
            InOrder(s'.q, LogPush(log, e, outcome))
  {
    hide Insert, Subsequence, Band;
    StoredInOrder(s.q, e, log);
    if s.q != [] {
      LastEvictedInOrder(s.q, log);
      StoredInOrder(s.q[..|s.q| - 1], e, log);
    }
  }

  lemma PopInOrder(q: seq<Entry<Flow>>, log: Log)
    requires q != [] && InOrder(q, log)
    ensures InOrder(q[1..], log.(popped := log.popped + [q[0]]))
  {
    hide Subsequence, Band;
    forall p
      ensures Subsequence(Band(log.popped + [q[0]], p) + Band(q[1..], p), Band(log.stored, p))
    {
      BandConcat(log.popped, [q[0]], p);
      BandConcat([q[0]], q[1..], p);
      assert [q[0]] + q[1..] == q;
      Associate(Band(log.popped, p), Band([q[0]], p), Band(q[1..], p));
    }
  }

  lemma Balance<T>(pushes: multiset<T>, settled: multiset<T>, popped: multiset<T>, waiting: multiset<T>, e: T,
                   settled': multiset<T>, waiting': multiset<T>)
    requires pushes == settled + popped + waiting
    requires || (settled' == settled + multiset{e} && waiting' == waiting)
             || (settled' == settled && waiting' == waiting + multiset{e})
    ensures pushes + multiset{e} == settled' + popped + waiting'
  {
  }

  lemma SettledIgnoresPushes(q: seq<Entry<Flow>>, log: Log, pushes: multiset<Entry<Flow>>)
    ensures Settled(q, log.(pushes := pushes)) == Settled(q, log)
  {
  }

  lemma TurnTaken(m: Machine, capacity: nat, t: Thread, e: Entry<Flow>, m': Machine)
    requires capacity >= 1 && t !in m.pushers
    requires PushTurn(m.(log := m.log.(pushes := m.log.pushes + multiset{e})), capacity, t, e, m')
    ensures m'.log.pushes == m.log.pushes + multiset{e} && m'.log.popped == m.log.popped
    ensures || (&& Settled(m'.core.q, m'.log) == Settled(m.core.q, m.log) + multiset{e}
                && m'.pushers == m.pushers)
            || (&& Settled(m'.core.q, m'.log) == Settled(m.core.q, m.log)
                && m'.pushers == m.pushers[t := e])
    ensures m'.core.dropped - |m'.log.evicted| - |m'.log.rejected|
            == m.core.dropped - |m.log.evicted| - |m.log.rejected|
  {
    hide EnterPush, NotifyOne, Settled, LogPush;
    var log := m.log.(pushes := m.log.pushes + multiset{e});
    PushSettles(m.core, capacity, e, log, true);
    SettledIgnoresPushes(m.core.q, m.log, log.pushes);
    assert m.pushers - {t} == m.pushers;
  }

  lemma PushTurnConserves(m: Machine, capacity: nat, t: Thread, e: Entry<Flow>, m': Machine)
    requires capacity >= 1 && t !in m.pushers && Conserved(m)
    requires PushTurn(m.(log := m.log.(pushes := m.log.pushes + multiset{e})), capacity, t, e, m')
    ensures Conserved(m')
  {
    hide PushTurn, Conserved, Waiting, Settled;
    TurnTaken(m, capacity, t, e, m');
    WaitingAdd(m.pushers, t, e);
    ConservedIff(m);
    ConservedIff(m');
    Balance(m.log.pushes, Settled(m.core.q, m.log), multiset(m.log.popped), Waiting(m.pushers), e,
            Settled(m'.core.q, m'.log), Waiting(m'.pushers));
  }

  lemma WokenPushConserves(m: Machine, capacity: nat, t: Thread, m': Machine)
    requires t in m.pushers && capacity >= 1 && Conserved(m) && WokenPush(m, capacity, t, m')
    ensures Conserved(m')
  {
    PushSettles(m.core, capacity, m.pushers[t], m.log, false);
    WaitingRemove(m.pushers, t);
    ConservedIff(m);
    ConservedIff(m');
    hide CompletePush, NotifyOne, Conserved, Waiting, LogPush, Settled;
  }

  lemma PopTurnConserves(m: Machine, t: Thread, m': Machine)
    requires Conserved(m) && PopTurn(m, t, m')
    ensures Conserved(m')
  {
    hide NotifyOne, Waiting;
    if m.core.q != [] {
      assert m.core.q == [m.core.q[0]] + m.core.q[1..];
    }
  }

  lemma PopTurnKeepsFifo(m: Machine, t: Thread, m': Machine)
    requires Fifo(m) && PopTurn(m, t, m')
    ensures Fifo(m')
  {
    hide NotifyOne, Subsequence;
    if m.core.q != [] {
      PopInOrder(m.core.q, m.log);
    }
    hide InOrder;
    if m.core.q != [] && m.log.evicted == multiset{} {
      forall p
        ensures Band(m.log.stored, p) == Band(m.log.popped + [m.core.q[0]], p) + Band(m.core.q[1..], p)
      {
        BandConcat(m.log.popped, [m.core.q[0]], p);
        assert Band(m.log.stored, p) == Band(m.log.popped, p) + Band(m.core.q, p);
      }
    }
  }

  lemma NextConserves(m: Machine, capacity: nat, a: Action, m': Machine)
    requires capacity >= 1 && Conserved(m) && Fifo(m) && Next(m, capacity, a, m')
    ensures Conserved(m') && Fifo(m')
  {
    match a
    case BeginPush(t, e) =>
      PushTurnConserves(m, capacity, t, e, m');
      PushKeepsFifo(m.core, capacity, e, m.log.(pushes := m.log.pushes + multiset{e}), true);
      PushInOrder(m.core, capacity, e, m.log.(pushes := m.log.pushes + multiset{e}), true);
      hide Conserved, EnterPush, NotifyOne, LogPush, Subsequence;
    case WakePush(t) =>
      WokenPushConserves(m, capacity, t, m');
      PushKeepsFifo(m.core, capacity, m.pushers[t], m.log, false);
      PushInOrder(m.core, capacity, m.pushers[t], m.log, false);
      hide Conserved, CompletePush, NotifyOne, LogPush, Subsequence;
    case BeginPop(t) =>
      PopTurnConserves(m, t, m');
      PopTurnKeepsFifo(m, t, m');
    case WakePop(t) =>
      PopTurnConserves(m, t, m');
      PopTurnKeepsFifo(m, t, m');
    case SetBlocking(_) =>
    case Finish =>
  }

  lemma InitConserves(m: Machine)
    requires Init(m)
    ensures Conserved(m) && Fifo(m)
  {
  }

  /** Conservation and per-priority order, in every state of every interleaving. */
  lemma {:induction false} RunsConserve(states: seq<Machine>, actions: seq<Action>, capacity: nat, n: nat)
    requires capacity >= 1 && IsRun(states, actions, capacity) && n < |states|
    ensures Conserved(states[n]) && Fifo(states[n])
  {
    hide Conserved, Fifo, Next, Init;
    if n == 0 {
      InitConserves(states[0]);
    } else {
      RunsConserve(states, actions, capacity, n - 1);
      assert Next(states[n - 1], capacity, actions[n - 1], states[n - 1 + 1]);
      NextConserves(states[n - 1], capacity, actions[n - 1], states[n]);
    }
  }

  // ---------------------------------------------------------------- offline mode

  /** Backpressure is switched on first, never off, and the queue is not finished. */
  predicate Offline(actions: seq<Action>) {
    && (actions != [] ==> actions[0] == SetBlocking(true))
    && forall i | 0 <= i < |actions| :: actions[i] != SetBlocking(false) && actions[i] != Finish
  }

  lemma NextLosesNothing(m: Machine, capacity: nat, a: Action, m': Machine)
    requires capacity >= 1 && Next(m, capacity, a, m')
    requires m.core.blocking && !m.core.done && a != SetBlocking(false) && a != Finish
    ensures m'.core.blocking && !m'.core.done
    ensures m'.log.evicted == m.log.evicted && m'.log.rejected == m.log.rejected
  {
  }

  /** Backpressure loses nothing: while it is on, every entry offered is queued, popped or with a
      waiting pusher, the drop counter is 0, and each priority leaves in arrival order. */
  lemma {:induction false} OfflineLosesNothing(states: seq<Machine>, actions: seq<Action>, capacity: nat, n: nat)
    requires capacity >= 1 && IsRun(states, actions, capacity) && n < |states|
    requires Offline(actions[..n])
    ensures var m := states[n];
            && m.log.evicted == m.log.rejected == multiset{}
            && m.core.dropped == 0
            && m.log.pushes == multiset(m.core.q) + multiset(m.log.popped) + Waiting(m.pushers)
            && (forall p :: Band(m.log.stored, p) == Band(m.log.popped, p) + Band(m.core.q, p))
            && (n > 0 ==> m.core.blocking && !m.core.done)
  {
    RunsConserve(states, actions, capacity, n);
    if n == 1 {
      assert actions[..n][0] == actions[0];
    } else if n > 1 {
      assert actions[..n - 1][0] == actions[..n][0];
      forall i | 0 <= i < n - 1
        ensures actions[..n - 1][i] == actions[..n][i]
      {
      }
      OfflineLosesNothing(states, actions, capacity, n - 1);
      assert actions[..n][n - 1] == actions[n - 1];
      hide Conserved, Fifo;
      NextLosesNothing(states[n - 1], capacity, actions[n - 1], states[n]);
    }
  }
}
