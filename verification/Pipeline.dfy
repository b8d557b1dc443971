/** Reassembler, filter and LLM workers around the two queues, under the controller's lifecycle. */
module Pipeline {
  import opened PriorityQueue
  import opened QueueConcurrency
  import NpuFilter

  /** The three worker threads. */
  const REASSEMBLER: Thread := 0
  const FILTER: Thread := 1
  const LLM: Thread := 2

  /** The controller's progress: queues created, workers running, then the steps of the shutdown. */
  datatype Phase = Created | Running | InputUnblocked | Unblocked | InputFinished | AllFinished

  /** What the filter has in hand between two queue operations. */
  datatype Hand = Nothing | Popping(flow: Entry<Flow>) | Counted(entry: Entry<Flow>)

  /** Where the controller is in one round of its monitor loop: the two depths are read one after the
      other, then compared with the capture flag as it is by then. */
  datatype Monitor = Watching | SawInput(input: nat) | SawBoth(input: nat, output: nat) | Complete

  /** `verdicts` are those on the flows popped from the input queue, oldest first. */
  datatype State = State(phase: Phase, offline: bool, input: Machine, output: Machine, hand: Hand,
                         counters: NpuFilter.Counters, verdicts: seq<NpuFilter.Verdict>,
                         captureFinished: bool, monitor: Monitor)

  datatype Event =
    | Start
    | Capture(entry: Entry<Flow>)
    | ResumeCapture
    | FinishCapture
    | FilterPop
    | ResumeFilterPop
    | Judge(verdict: NpuFilter.Verdict)
    | Forward
    | ResumeForward
    | LlmPop
    | ResumeLlmPop
    | ReadInputDepth
    | ReadOutputDepth
    | Decide
    | Shutdown

  // ---------------------------------------------------------------- steps

  ghost predicate WorkersRun(p: Phase) {
    p != Created
  }

  /** The filter picks up the entry that its pop just removed from the input queue. */
  function PickUp(before: Machine, after: Machine): Hand {
    if |after.log.popped| > |before.log.popped| && before.core.q != [] then Popping(before.core.q[0]) else Nothing
  }

  ghost predicate InputStep(s: State, capacity: nat, a: Action, s': State)
    requires capacity >= 1
  {
    Next(s.input, capacity, a, s'.input) && s' == s.(input := s'.input)
  }

  ghost predicate OutputStep(s: State, capacity: nat, a: Action, s': State)
    requires capacity >= 1
  {
    Next(s.output, capacity, a, s'.output) && s' == s.(output := s'.output)
  }

  ghost predicate FilterTakes(s: State, capacity: nat, a: Action, s': State)
    requires capacity >= 1
  {
    && s.hand == Nothing && FILTER !in s.output.pushers
    && Next(s.input, capacity, a, s'.input)
    && s' == s.(input := s'.input, hand := PickUp(s.input, s'.input),
                counters := if PickUp(s.input, s'.input) == Nothing then s.counters
                            else s.counters.(popped := s.counters.popped + 1))
  }

  /** The filter's verdict: passed flows are counted before they are pushed. */
  ghost predicate FilterJudges(s: State, v: NpuFilter.Verdict, s': State) {
    && s.hand.Popping?
    && s' == s.(counters := NpuFilter.Count(s.counters, v).(popped := s.counters.popped),
                verdicts := s.verdicts + [v],
                hand := if v.PassedOn? then Counted(Entry(v.priority, s.hand.flow.item)) else Nothing)
  }

  ghost predicate FilterForwards(s: State, capacity: nat, s': State)
    requires capacity >= 1
  {
    && s.hand.Counted?
    && Next(s.output, capacity, BeginPush(FILTER, s.hand.entry), s'.output)
    && s' == s.(output := s'.output, hand := Nothing)
  }

  /** The capture thread ends once its last push has returned. */
  ghost predicate CaptureStep(s: State, s': State) {
    !s.captureFinished && REASSEMBLER !in s.input.pushers && s' == s.(captureFinished := true)
  }

  function Decided(s: State): Monitor {
    if s.offline && s.captureFinished && s.monitor == SawBoth(0, 0) then Complete else Watching
  }

  ghost predicate MonitorStep(s: State, e: Event, s': State) {
    && s.phase == Running
    && match e
       case ReadInputDepth => s.monitor == Watching && s' == s.(monitor := SawInput(|s.input.core.q|))
       case ReadOutputDepth =>
         s.monitor.SawInput? && s' == s.(monitor := SawBoth(s.monitor.input, |s.output.core.q|))
       case Decide => s.monitor.SawBoth? && s' == s.(monitor := Decided(s))
       case _ => false
  }

  /** The controller leaves its loop between two rounds, and waits for the capture thread before it
      finishes the input queue. */
  ghost predicate ShutdownStep(s: State, capacity: nat, s': State)
    requires capacity >= 1
  {
    match s.phase
    case Running => (s.monitor == Watching || s.monitor == Complete)
                    && Next(s.input, capacity, SetBlocking(false), s'.input)
                    && s' == s.(phase := InputUnblocked, input := s'.input)
    case InputUnblocked => Next(s.output, capacity, SetBlocking(false), s'.output)
                           && s' == s.(phase := Unblocked, output := s'.output)
    case Unblocked => s.captureFinished && Next(s.input, capacity, Finish, s'.input)
                      && s' == s.(phase := InputFinished, input := s'.input)
    case InputFinished => Next(s.output, capacity, Finish, s'.output)
                          && s' == s.(phase := AllFinished, output := s'.output)
    case _ => false
  }

  ghost predicate StartStep(s: State, capacity: nat, s': State)
    requires capacity >= 1
  {
    && s.phase == Created
    && if s.offline then
         && Next(s.input, capacity, SetBlocking(true), s'.input)
         && Next(s.output, capacity, SetBlocking(true), s'.output)
         && s' == s.(phase := Running, input := s'.input, output := s'.output)
       else s' == s.(phase := Running)
  }

  ghost predicate Step(s: State, capacity: nat, e: Event, s': State)
    requires capacity >= 1
  {
    match e
    case Start => StartStep(s, capacity, s')
    case Shutdown => ShutdownStep(s, capacity, s')
    case FinishCapture => WorkersRun(s.phase) && CaptureStep(s, s')
    case Capture(entry) =>
      WorkersRun(s.phase) && !s.captureFinished && InputStep(s, capacity, BeginPush(REASSEMBLER, entry), s')
    case ResumeCapture => WorkersRun(s.phase) && InputStep(s, capacity, WakePush(REASSEMBLER), s')
    case FilterPop => WorkersRun(s.phase) && FilterTakes(s, capacity, BeginPop(FILTER), s')
    case ResumeFilterPop => WorkersRun(s.phase) && FilterTakes(s, capacity, WakePop(FILTER), s')
    case Judge(v) => WorkersRun(s.phase) && FilterJudges(s, v, s')
    case Forward => WorkersRun(s.phase) && FilterForwards(s, capacity, s')
    case ResumeForward => WorkersRun(s.phase) && OutputStep(s, capacity, WakePush(FILTER), s')
    case LlmPop => WorkersRun(s.phase) && OutputStep(s, capacity, BeginPop(LLM), s')
    case ResumeLlmPop => WorkersRun(s.phase) && OutputStep(s, capacity, WakePop(LLM), s')
    case _ => MonitorStep(s, e, s')
  }

  ghost predicate Initial(s: State) {
    && s.phase == Created && s.hand == Nothing && s.counters == NpuFilter.Counters(0, 0, 0, 0)
    && s.verdicts == [] && !s.captureFinished && s.monitor == Watching
    && Init(s.input) && Init(s.output)
  }

  ghost predicate IsRun(states: seq<State>, events: seq<Event>, capacity: nat)
    requires capacity >= 1
  {
    && |states| == |events| + 1
    && Initial(states[0])
    && forall i | 0 <= i < |events| :: Step(states[i], capacity, events[i], states[i + 1])
  }

  // ---------------------------------------------------------------- the invariant

  ghost predicate QueueSound(m: Machine, capacity: nat) {
    Conserved(m) && Fifo(m) && Wellformed(m, capacity) && NoLostWakeup(m, capacity)
  }

  /** Only the reassembler waits to push on the input, only the filter on the output. */
  ghost predicate ThreadsInPlace(s: State) {
    && s.input.pushers.Keys <= {REASSEMBLER} && s.input.poppers <= {FILTER}
    && s.output.pushers.Keys <= {FILTER} && s.output.poppers <= {LLM}
    && (s.hand != Nothing ==> FILTER !in s.output.pushers && FILTER !in s.input.poppers)
    && (FILTER in s.output.pushers ==> FILTER !in s.input.poppers)
    && (s.captureFinished ==> s.input.pushers == map[])
    && (s.phase == InputFinished || s.phase == AllFinished ==> s.captureFinished)
  }

  /** What the verdicts so far send on, in order. */
  function Forwarded(popped: seq<Entry<Flow>>, verdicts: seq<NpuFilter.Verdict>): seq<Entry<Flow>>
    requires |verdicts| <= |popped|
  {
    if verdicts == [] then []
    else
      var n := |verdicts| - 1;
      Forwarded(popped, verdicts[..n]) + NpuFilter.Pushed(verdicts[n], popped[n].item)
  }

  /** The counters that the verdicts so far add up to. */
  function Tally(verdicts: seq<NpuFilter.Verdict>): NpuFilter.Counters {
    if verdicts == [] then NpuFilter.Counters(0, 0, 0, 0)
    else NpuFilter.Count(Tally(verdicts[..|verdicts| - 1]), verdicts[|verdicts| - 1])
  }

  function InHand(h: Hand): multiset<Entry<Flow>> {
    if h.Counted? then multiset{h.entry} else multiset{}
  }

  /** Every popped flow has one verdict, or is the one in hand; what the verdicts send on was pushed to
      the output queue, flow by flow, or is in hand; and the counters are those of the verdicts. */
  ghost predicate CountsAgree(s: State) {
    && |s.input.log.popped| == |s.verdicts| + (if s.hand.Popping? then 1 else 0)
    && (s.hand.Popping? ==> s.hand.flow == s.input.log.popped[|s.verdicts|])
    && s.counters == Tally(s.verdicts).(popped := |s.input.log.popped|)
    && multiset(Forwarded(s.input.log.popped, s.verdicts)) == s.output.log.pushes + InHand(s.hand)
  }

  ghost predicate NothingLost(m: Machine) {
    m.log.evicted == m.log.rejected == multiset{}
  }

  /** Backpressure is on and nothing has been lost. */
  ghost predicate Tight(m: Machine) {
    m.core.blocking && !m.core.done && NothingLost(m)
  }

  /** Until the shutdown reaches a queue, offline mode keeps it tight. */
  ghost predicate Lossless(s: State) {
    && (s.phase == Created ==>
          !s.input.core.done && NothingLost(s.input) && !s.output.core.done && NothingLost(s.output))
    && (s.offline && s.phase == Running ==> Tight(s.input))
    && (s.offline && (s.phase == Running || s.phase == InputUnblocked) ==> Tight(s.output))
  }

  ghost predicate PipelineInvariant(s: State, capacity: nat) {
    && QueueSound(s.input, capacity) && QueueSound(s.output, capacity)
    && ThreadsInPlace(s) && CountsAgree(s) && Lossless(s)
  }

  lemma NextKeepsQueueSound(m: Machine, capacity: nat, a: Action, m': Machine)
    requires capacity >= 1 && QueueSound(m, capacity) && Next(m, capacity, a, m')
    ensures QueueSound(m', capacity)
  {
    hide Next, Conserved, Fifo, Wellformed, NoLostWakeup;
    NextConserves(m, capacity, a, m');
    NextKeepsWakeups(m, capacity, a, m');
  }

  /** What an action changes outside the queue proper. */
  ghost predicate Effects(m: Machine, a: Action, m': Machine) {
    && m'.log.pushes == m.log.pushes + (if a.BeginPush? then multiset{a.entry} else multiset{})
    && (|| m'.log.popped == m.log.popped
        || (&& (a.BeginPop? || a.WakePop?) && m.core.q != [] && m'.log.popped == m.log.popped + [m.core.q[0]]
            && a.thread !in m'.poppers))
    && m'.pushers.Keys <= m.pushers.Keys + (if a.BeginPush? then {a.thread} else {})
    && m'.poppers <= m.poppers + (if a.BeginPop? then {a.thread} else {})
    && (a.BeginPush? || a.BeginPop? ==> a.thread !in m.pushers && a.thread !in m.poppers)
    && (a.WakePush? ==> a.thread in m.pushers)
    && (a.WakePop? ==> a.thread in m.poppers)
    && m'.core.blocking == (if a.SetBlocking? then a.enable else m.core.blocking)
    && m'.core.done == (m.core.done || a.Finish?)
    && (a.SetBlocking? || a.Finish? ==> m'.log == m.log && m'.pushers == m.pushers && m'.poppers == m.poppers)
    && (Tight(m) && a != SetBlocking(false) && a != Finish ==> Tight(m'))
  }

  lemma PushEffects(m: Machine, capacity: nat, a: Action, m': Machine)
    requires capacity >= 1 && (a.BeginPush? || a.WakePush?) && Next(m, capacity, a, m')
    ensures Effects(m, a, m')
  {
    hide Insert, NotifyOne;
  }

  lemma PopEffects(m: Machine, capacity: nat, a: Action, m': Machine)
    requires capacity >= 1 && (a.BeginPop? || a.WakePop?) && Next(m, capacity, a, m')
    ensures Effects(m, a, m')
  {
    hide NotifyOne;
  }

  lemma NextEffects(m: Machine, capacity: nat, a: Action, m': Machine)
    requires capacity >= 1 && Next(m, capacity, a, m')
    ensures Effects(m, a, m')
  {
    match a
    case BeginPush(_, _) => PushEffects(m, capacity, a, m');
    case WakePush(_) => PushEffects(m, capacity, a, m');
    case BeginPop(_) => PopEffects(m, capacity, a, m');
    case WakePop(_) => PopEffects(m, capacity, a, m');
    case SetBlocking(_) =>
    case Finish =>
  }

  ghost predicate Bookkeeping(s: State) {
    ThreadsInPlace(s) && CountsAgree(s) && Lossless(s)
  }

  /** The queues stay sound whatever the event. */
  lemma StepKeepsQueues(s: State, capacity: nat, e: Event, s': State)
    requires capacity >= 1 && Step(s, capacity, e, s')
    requires QueueSound(s.input, capacity) && QueueSound(s.output, capacity)
    ensures QueueSound(s'.input, capacity) && QueueSound(s'.output, capacity)
  {
    hide QueueSound, Next;
    forall a | Next(s.input, capacity, a, s'.input)
      ensures QueueSound(s'.input, capacity)
    {
      NextKeepsQueueSound(s.input, capacity, a, s'.input);
    }
    forall a | Next(s.output, capacity, a, s'.output)
      ensures QueueSound(s'.output, capacity)
    {
      NextKeepsQueueSound(s.output, capacity, a, s'.output);
    }
  }

  /** Counters, verdicts and logs are those of `s`. */
  predicate SameBooks(s: State, s': State) {
    && s'.hand == s.hand && s'.counters == s.counters && s'.verdicts == s.verdicts
    && s'.input.log == s.input.log && s'.output.log == s.output.log
  }

  lemma SameBooksAgree(s: State, s': State)
    requires CountsAgree(s) && SameBooks(s, s')
    ensures CountsAgree(s')
  {
    hide Tally, Forwarded, InHand;
  }

  lemma StartKeepsBooks(s: State, capacity: nat, s': State)
    requires capacity >= 1 && StartStep(s, capacity, s') && Bookkeeping(s)
    ensures Bookkeeping(s')
  {
    SameBooksAgree(s, s');
    hide CountsAgree;
  }

  lemma InputControlKeepsBooks(s: State, capacity: nat, a: Action, input: Machine, phase: Phase)
    requires capacity >= 1 && Next(s.input, capacity, a, input) && Bookkeeping(s)
    requires s.phase != Created && (a == SetBlocking(false) || a == Finish)
    requires phase == InputUnblocked || (phase == InputFinished && s.captureFinished)
    requires s.phase == if phase == InputFinished then Unblocked else Running
    ensures Bookkeeping(s.(phase := phase, input := input))
  {
    NextEffects(s.input, capacity, a, input);
    hide Next;
    SameBooksAgree(s, s.(phase := phase, input := input));
    hide CountsAgree;
  }

  lemma OutputControlKeepsBooks(s: State, capacity: nat, a: Action, output: Machine, phase: Phase)
    requires capacity >= 1 && Next(s.output, capacity, a, output) && Bookkeeping(s)
    requires a == SetBlocking(false) || a == Finish
    requires phase == Unblocked || (phase == AllFinished && s.phase == InputFinished)
    ensures Bookkeeping(s.(phase := phase, output := output))
  {
    NextEffects(s.output, capacity, a, output);
    hide Next;
    SameBooksAgree(s, s.(phase := phase, output := output));
    hide CountsAgree;
  }

  lemma ShutdownKeepsBooks(s: State, capacity: nat, s': State)
    requires capacity >= 1 && ShutdownStep(s, capacity, s') && Bookkeeping(s)
    ensures Bookkeeping(s')
  {
    hide Next, Bookkeeping;
    match s.phase
    case Running => InputControlKeepsBooks(s, capacity, SetBlocking(false), s'.input, InputUnblocked);
    case InputUnblocked => OutputControlKeepsBooks(s, capacity, SetBlocking(false), s'.output, Unblocked);
    case Unblocked => InputControlKeepsBooks(s, capacity, Finish, s'.input, InputFinished);
    case InputFinished => OutputControlKeepsBooks(s, capacity, Finish, s'.output, AllFinished);
    case _ =>
  }

  lemma CaptureOrMonitorKeepsBooks(s: State, e: Event, s': State)
    requires s.phase != Created && (CaptureStep(s, s') || MonitorStep(s, e, s')) && Bookkeeping(s)
    ensures Bookkeeping(s')
  {
    SameBooksAgree(s, s');
    hide CountsAgree;
    assert REASSEMBLER !in s.input.pushers ==> s.input.pushers == map[] by {
      assert s.input.pushers.Keys <= {REASSEMBLER};
      assert REASSEMBLER !in s.input.pushers ==> s.input.pushers.Keys == {};
    }
  }

  lemma InputKeepsBooks(s: State, capacity: nat, a: Action, s': State)
    requires a.BeginPush? || a.WakePush?
    requires capacity >= 1 && a.thread == REASSEMBLER && s.phase != Created
    requires a.BeginPush? ==> !s.captureFinished
    requires InputStep(s, capacity, a, s') && Bookkeeping(s)
    ensures Bookkeeping(s')
  {
    NextEffects(s.input, capacity, a, s'.input);
    hide Next, Tally, Forwarded, InHand;
  }

  lemma {:induction false} ForwardedIgnoresRest(popped: seq<Entry<Flow>>, x: Entry<Flow>,
                                                verdicts: seq<NpuFilter.Verdict>)
    requires |verdicts| <= |popped|
    ensures Forwarded(popped + [x], verdicts) == Forwarded(popped, verdicts)
    decreases |verdicts|
  {
    if verdicts != [] {
      ForwardedIgnoresRest(popped, x, verdicts[..|verdicts| - 1]);
    }
  }

  lemma FilterTakeCounts(s: State, capacity: nat, a: Action, s': State)
    requires capacity >= 1 && (a == BeginPop(FILTER) || a == WakePop(FILTER))
    requires FilterTakes(s, capacity, a, s') && CountsAgree(s)
    ensures CountsAgree(s')
  {
    NextEffects(s.input, capacity, a, s'.input);
    hide Next, Tally, Forwarded;
    if s'.hand.Popping? {
      ForwardedIgnoresRest(s.input.log.popped, s.input.core.q[0], s.verdicts);
    }
  }

  lemma FilterTakeKeepsBooks(s: State, capacity: nat, a: Action, s': State)
    requires capacity >= 1 && (a == BeginPop(FILTER) || a == WakePop(FILTER)) && s.phase != Created
    requires FilterTakes(s, capacity, a, s') && Bookkeeping(s)
    ensures Bookkeeping(s')
  {
    FilterTakeCounts(s, capacity, a, s');
    NextEffects(s.input, capacity, a, s'.input);
    hide Next, CountsAgree;
  }

  lemma OneVerdictMore(popped: seq<Entry<Flow>>, verdicts: seq<NpuFilter.Verdict>, v: NpuFilter.Verdict)
    requires |verdicts| < |popped|
    ensures Forwarded(popped, verdicts + [v])
            == Forwarded(popped, verdicts) + NpuFilter.Pushed(v, popped[|verdicts|].item)
    ensures Tally(verdicts + [v]) == NpuFilter.Count(Tally(verdicts), v)
  {
    assert (verdicts + [v])[..|verdicts|] == verdicts;
  }

  lemma FilterJudgeCounts(s: State, v: NpuFilter.Verdict, s': State)
    requires FilterJudges(s, v, s') && CountsAgree(s)
    ensures CountsAgree(s')
  {
    hide Tally, Forwarded;
    OneVerdictMore(s.input.log.popped, s.verdicts, v);
  }

  lemma FilterJudgeKeepsBooks(s: State, v: NpuFilter.Verdict, s': State)
    requires s.phase != Created && FilterJudges(s, v, s') && Bookkeeping(s)
    ensures Bookkeeping(s')
  {
    FilterJudgeCounts(s, v, s');
    hide CountsAgree;
  }

  lemma FilterForwardKeepsBooks(s: State, capacity: nat, s': State)
    requires capacity >= 1 && s.phase != Created && FilterForwards(s, capacity, s') && Bookkeeping(s)
    ensures Bookkeeping(s')
  {
    NextEffects(s.output, capacity, BeginPush(FILTER, s.hand.entry), s'.output);
    hide Next, Tally, Forwarded;
  }

  lemma OutputKeepsBooks(s: State, capacity: nat, a: Action, s': State)
    requires capacity >= 1 && s.phase != Created
    requires a == WakePush(FILTER) || a == BeginPop(LLM) || a == WakePop(LLM)
    requires OutputStep(s, capacity, a, s') && Bookkeeping(s)
    ensures Bookkeeping(s')
  {
    NextEffects(s.output, capacity, a, s'.output);
    hide Next, Tally, Forwarded, InHand;
  }

  lemma StepKeepsInvariant(s: State, capacity: nat, e: Event, s': State)
    requires capacity >= 1 && PipelineInvariant(s, capacity) && Step(s, capacity, e, s')
    ensures PipelineInvariant(s', capacity)
  {
    StepKeepsQueues(s, capacity, e, s');
    hide QueueSound, Next, CountsAgree, Lossless, ThreadsInPlace;
    StepKeepsBooks(s, capacity, e, s');
  }

  lemma StepKeepsBooks(s: State, capacity: nat, e: Event, s': State)
    requires capacity >= 1 && Step(s, capacity, e, s') && Bookkeeping(s)
    ensures Bookkeeping(s')
  {
    hide Next, Bookkeeping, InputStep, OutputStep, FilterTakes, FilterJudges, FilterForwards;
    hide StartStep, ShutdownStep, MonitorStep, CaptureStep;
    match e
    case Start => StartKeepsBooks(s, capacity, s');
    case Shutdown =>
      ShutdownKeepsBooks(s, capacity, s');
    case FinishCapture => CaptureOrMonitorKeepsBooks(s, e, s');
    case ReadInputDepth => MonitorKeepsBooks(s, e, s');
    case ReadOutputDepth => MonitorKeepsBooks(s, e, s');
    case Decide => MonitorKeepsBooks(s, e, s');
    case Capture(entry) => InputKeepsBooks(s, capacity, BeginPush(REASSEMBLER, entry), s');
    case ResumeCapture => InputKeepsBooks(s, capacity, WakePush(REASSEMBLER), s');
    case FilterPop => FilterTakeKeepsBooks(s, capacity, BeginPop(FILTER), s');
    case ResumeFilterPop => FilterTakeKeepsBooks(s, capacity, WakePop(FILTER), s');
    case Judge(v) => FilterJudgeKeepsBooks(s, v, s');
    case Forward => FilterForwardKeepsBooks(s, capacity, s');
    case ResumeForward => OutputKeepsBooks(s, capacity, WakePush(FILTER), s');
    case LlmPop => OutputKeepsBooks(s, capacity, BeginPop(LLM), s');
    case ResumeLlmPop => OutputKeepsBooks(s, capacity, WakePop(LLM), s');
  }

  lemma MonitorKeepsBooks(s: State, e: Event, s': State)
    requires MonitorStep(s, e, s') && Bookkeeping(s)
    ensures Bookkeeping(s')
  {
    hide Bookkeeping;
    CaptureOrMonitorKeepsBooks(s, e, s');
  }

  lemma InitialInvariant(s: State, capacity: nat)
    requires Initial(s) && capacity >= 1
    ensures PipelineInvariant(s, capacity)
  {
  }

  lemma {:induction false} RunsKeepInvariant(states: seq<State>, events: seq<Event>, capacity: nat, n: nat)
    requires capacity >= 1 && IsRun(states, events, capacity) && n < |states|
    ensures PipelineInvariant(states[n], capacity)
  {
    hide PipelineInvariant, Step, Initial;
    if n == 0 {
      InitialInvariant(states[0], capacity);
    } else {
      RunsKeepInvariant(states, events, capacity, n - 1);
      assert Step(states[n - 1], capacity, events[n - 1], states[n - 1 + 1]);
      StepKeepsInvariant(states[n - 1], capacity, events[n - 1], states[n]);
    }
  }
}
