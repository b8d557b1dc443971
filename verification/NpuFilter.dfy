/** The filter worker: one outcome per flow, with deduplication and counters. */
module NpuFilter {
  import opened Options
  import opened PriorityQueue

  const MAX_DEDUP_HASHES: nat := 100000

  /** What a detection is remembered under. Hash collisions are left out: equal keys mean equal
      inputs to the hash. */
  datatype Key =
    | HeartbleedKey(dstIp: nat, dstPort: nat)
    | SmbKey(lowIp: nat, highIp: nat)
    | RatKey(serverIp: nat, serverPort: nat)
    | PayloadKey(dstIp: nat, dstPort: nat, prefix: seq<nat>)

  datatype Tls = NotTls | SuspiciousTls | BenignTls

  /** What the detectors say about one flow, and the keys it would be remembered under. */
  datatype Findings = Findings(
    emptyPayload: bool, tls: Tls, heartbleed: bool,
    feedLoaded: bool, signature: bool, badIp: bool, forensic: bool,
    smb: bool, spnego: bool, httpBruteForce: bool, benignHttp: bool, credential: bool, ftp: bool, rat: bool,
    obfuscated: bool, behavioralSuspect: bool, statistical: bool, mostlyBinary: bool,
    heartbleedKey: Key, smbKey: Key, ratKey: Key, payloadKey: Key)

  datatype Verdict = PassedOn(priority: int) | FilteredOut | Duplicate

  /** Flows a detector named, or that the behavioral model escalated, outrank the rest. */
  function FlowPriority(tagged: bool, behavioralSuspect: bool): int {
    if tagged || behavioralSuspect then 2 else 1
  }

  /** The dedup memory when a flow is looked at: cleared once it has grown past its limit. */
  function Trim(seen: set<Key>): set<Key> {
    if |seen| > MAX_DEDUP_HASHES then {} else seen
  }

  // ---------------------------------------------------------------- the stages

  /** What a stage does with a flow it applies to. */
  datatype Effect = Pass(priority: int) | Drop | Once(key: Key, priority: int)

  const STAGES: nat := 13

  /** Whether stage i has something to say about the flow. The last always has. */
  predicate Applies(f: Findings, i: nat) {
    if i == 0 then f.emptyPayload
    else if i == 1 then f.tls == SuspiciousTls
    else if i == 2 then f.tls == BenignTls && !f.heartbleed
    else if i == 3 then f.feedLoaded && (f.signature || f.badIp)
    else if i == 4 then f.heartbleed
    else if i == 5 then f.smb
    else if i == 6 then f.spnego
    else if i == 7 then f.httpBruteForce
    else if i == 8 then f.benignHttp
    else if i == 9 then f.credential || f.ftp
    else if i == 10 then f.rat
    else if i == 11 then f.mostlyBinary || !(f.obfuscated || f.behavioralSuspect || f.statistical)
    else true
  }

  function EffectOf(f: Findings, i: nat): Effect {
    if i == 3 then Pass(FlowPriority(f.signature && !f.forensic, f.behavioralSuspect))
    else if i == 4 then Once(f.heartbleedKey, 2)
    else if i == 5 then Once(f.smbKey, 2)
    else if i == 1 || i == 7 || i == 9 then Pass(2)
    else if i == 10 then Once(f.ratKey, 2)
    else if i == 12 then Once(f.payloadKey, FlowPriority(false, f.behavioralSuspect))
    else Drop
  }

  /** The first stage from i on that applies. */
  function FirstStage(f: Findings, i: nat): (k: nat)
    requires i < STAGES
    ensures i <= k < STAGES && Applies(f, k)
    decreases STAGES - i
  {
    if Applies(f, i) then i else FirstStage(f, i + 1)
  }

  function Settling(f: Findings): Effect {
    EffectOf(f, FirstStage(f, 0))
  }

  function Apply(effect: Effect, seen: set<Key>): (Verdict, set<Key>) {
    match effect
    case Pass(priority) => (PassedOn(priority), seen)
    case Drop => (FilteredOut, seen)
    case Once(key, priority) =>
      if key in seen then (Duplicate, seen) else (PassedOn(priority), seen + {key})
  }

  /** The verdict on a flow and the memory after it. A flow without payload does not get as far as the
      memory. */
  function Decide(f: Findings, memory: set<Key>): (Verdict, set<Key>) {
    Apply(Settling(f), if f.emptyPayload then memory else Trim(memory))
  }

  /** No stage before i applies. */
  predicate NoneBefore(f: Findings, i: nat) {
    i == 0 || (!Applies(f, i - 1) && NoneBefore(f, i - 1))
  }

  lemma {:induction false} FirstAfter(f: Findings, i: nat)
    requires i < STAGES && NoneBefore(f, i)
    ensures FirstStage(f, 0) == FirstStage(f, i)
  {
    hide Applies;
    if i > 0 {
      FirstAfter(f, i - 1);
    }
  }

  lemma Settled(f: Findings, i: nat)
    requires i < STAGES && NoneBefore(f, i) && Applies(f, i)
    ensures Settling(f) == EffectOf(f, i)
  {
    hide Applies, EffectOf;
    FirstAfter(f, i);
  }

  // ---------------------------------------------------------------- the worker

  datatype Counters = Counters(popped: nat, passed: nat, filtered: nat, deduped: nat)

  function Count(c: Counters, v: Verdict): Counters {
    match v
    case PassedOn(_) => c.(popped := c.popped + 1, passed := c.passed + 1)
    case FilteredOut => c.(popped := c.popped + 1, filtered := c.filtered + 1)
    case Duplicate => c.(popped := c.popped + 1, filtered := c.filtered + 1, deduped := c.deduped + 1)
  }

  ghost predicate CountersAgree(c: Counters) {
    c.popped == c.passed + c.filtered && c.deduped <= c.filtered
  }

  function Pushed<T>(v: Verdict, flow: T): seq<Entry<T>> {
    if v.PassedOn? then [Entry(v.priority, flow)] else []
  }

  class Worker<T> {
    var passedCount: nat
    var filteredCount: nat
    var dedupCount: nat
    var seenPayloadHashes: set<Key>
    /** The pushes made to the output queue, oldest first. */
    var pushes: seq<Entry<T>>
    ghost var poppedCount: nat

    ghost function View(): Counters
      reads this
    {
      Counters(poppedCount, passedCount, filteredCount, dedupCount)
    }

    ghost predicate Valid()
      reads this
    {
      CountersAgree(View()) && |pushes| == passedCount
    }

    constructor ()
      ensures Valid() && View() == Counters(0, 0, 0, 0) && seenPayloadHashes == {} && pushes == []
    {
      passedCount, filteredCount, dedupCount, poppedCount := 0, 0, 0, 0;
      seenPayloadHashes, pushes := {}, [];
    }

    method Filter(v: Verdict)
      requires !v.PassedOn?
      modifies this
      ensures View() == Count(old(View()), v)
      ensures seenPayloadHashes == old(seenPayloadHashes) && pushes == old(pushes)
    {
      poppedCount := poppedCount + 1;
      if v == Duplicate {
        dedupCount := dedupCount + 1;
      }
      filteredCount := filteredCount + 1;
    }

    method Pass(flow: T, priority: int)
      modifies this
      ensures View() == Count(old(View()), PassedOn(priority))
      ensures seenPayloadHashes == old(seenPayloadHashes) && pushes == old(pushes) + [Entry(priority, flow)]
    {
      poppedCount := poppedCount + 1;
      passedCount := passedCount + 1;
      pushes := pushes + [Entry(priority, flow)];
    }

    method PassUnlessSeen(flow: T, key: Key, priority: int)
      modifies this
      ensures var (v, seen) := Apply(Once(key, priority), old(seenPayloadHashes));
              && seenPayloadHashes == seen
              && View() == Count(old(View()), v)
              && pushes == old(pushes) + Pushed(v, flow)
    {
      if key in seenPayloadHashes {
        Filter(Duplicate);
        return;
      }
      seenPayloadHashes := seenPayloadHashes + {key};
      Pass(flow, priority);
    }

    /** One iteration of the worker loop on a popped flow. */
    method Handle(flow: T, f: Findings)
      requires Valid()
      modifies this
      ensures Valid()
      ensures var (v, seen) := Decide(f, old(seenPayloadHashes));
              && seenPayloadHashes == seen
              && View() == Count(old(View()), v)
              && pushes == old(pushes) + Pushed(v, flow)
    {
      hide Count, FirstStage, Settling;
      CountKeepsAgreement(View(), Decide(f, seenPayloadHashes).0);
      if f.emptyPayload {
        Settled(f, 0);
        Filter(FilteredOut);
        return;
      }
      assert NoneBefore(f, 1);
      if |seenPayloadHashes| > MAX_DEDUP_HASHES {
        seenPayloadHashes := {};
      }
      var tls := f.tls;
      if tls == BenignTls && f.heartbleed {
        tls := NotTls;
      }
      if tls == SuspiciousTls {
        Settled(f, 1);
        Pass(flow, FlowPriority(true, f.behavioralSuspect));
        return;
      } else if tls == BenignTls {
        assert NoneBefore(f, 2);
        Settled(f, 2);
        Filter(FilteredOut);
        return;
      }
      assert NoneBefore(f, 2);
      assert NoneBefore(f, 3);
      if f.feedLoaded && (f.signature || f.badIp) {
        Settled(f, 3);
        Pass(flow, FlowPriority(f.signature && !f.forensic, f.behavioralSuspect));
        return;
      }
      assert NoneBefore(f, 4);
      HandleNamed(flow, f);
    }

    /** The stages whose detectors name a protocol or an attack. */
    method HandleNamed(flow: T, f: Findings)
      requires Valid() && NoneBefore(f, 4)
      modifies this
      ensures var (v, seen) := Apply(Settling(f), old(seenPayloadHashes));
              && seenPayloadHashes == seen
              && View() == Count(old(View()), v)
              && pushes == old(pushes) + Pushed(v, flow)
    {
      hide Count, FirstStage, Settling;
      if f.heartbleed {
        Settled(f, 4);
        PassUnlessSeen(flow, f.heartbleedKey, FlowPriority(true, f.behavioralSuspect));
        return;
      }
      assert NoneBefore(f, 5);
      if f.smb {
        Settled(f, 5);
        PassUnlessSeen(flow, f.smbKey, FlowPriority(true, f.behavioralSuspect));
        return;
      }
      assert NoneBefore(f, 6);
      if f.spnego {
        Settled(f, 6);
        Filter(FilteredOut);
        return;
      }
      assert NoneBefore(f, 7);
      if f.httpBruteForce {
        Settled(f, 7);
        Pass(flow, FlowPriority(true, f.behavioralSuspect));
        return;
      }
      assert NoneBefore(f, 8);
      if f.benignHttp {
        Settled(f, 8);
        Filter(FilteredOut);
        return;
      }
      assert NoneBefore(f, 9);
      if f.credential {
        Settled(f, 9);
        Pass(flow, FlowPriority(true, f.behavioralSuspect));
        return;
      }
      if f.ftp {
        Settled(f, 9);
        Pass(flow, FlowPriority(true, f.behavioralSuspect));
        return;
      }
      assert NoneBefore(f, 10);
      HandleRest(flow, f);
    }

    /** The last stages, after those that name a protocol. */
    method HandleRest(flow: T, f: Findings)
      requires Valid() && NoneBefore(f, 10)
      modifies this
      ensures var (v, seen) := Apply(Settling(f), old(seenPayloadHashes));
              && seenPayloadHashes == seen
              && View() == Count(old(View()), v)
              && pushes == old(pushes) + Pushed(v, flow)
    {
      hide Count, FirstStage, Settling;
      if f.rat {
        Settled(f, 10);
        PassUnlessSeen(flow, f.ratKey, FlowPriority(true, f.behavioralSuspect));
        return;
      }
      assert NoneBefore(f, 11);
      var suspicious := f.obfuscated || f.behavioralSuspect;
      suspicious := suspicious || f.statistical;
      if suspicious && f.mostlyBinary {
        Settled(f, 11);
        Filter(FilteredOut);
        return;
      }
      if suspicious {
        assert NoneBefore(f, 12);
        Settled(f, 12);
        PassUnlessSeen(flow, f.payloadKey, FlowPriority(false, f.behavioralSuspect));
      } else {
        Settled(f, 11);
        Filter(FilteredOut);
      }
    }
  }

  // ---------------------------------------------------------------- laws

  lemma CountKeepsAgreement(c: Counters, v: Verdict)
    requires CountersAgree(c)
    ensures CountersAgree(Count(c, v))
    ensures Count(c, v).passed == c.passed + if v.PassedOn? then 1 else 0
  {
  }

  /** Whether a stage lets a flow through, given what is remembered. */
  predicate LetsThrough(effect: Effect, memory: set<Key>) {
    match effect
    case Pass(_) => true
    case Drop => false
    case Once(key, _) => key !in Trim(memory)
  }

  /** Every flow is settled by exactly one stage, and that stage decides: verdict, priority and memory. */
  lemma FirstStageDecides(f: Findings, memory: set<Key>, i: nat)
    requires i < STAGES && NoneBefore(f, i) && Applies(f, i)
    ensures Decide(f, memory) == Apply(EffectOf(f, i), if i == 0 then memory else Trim(memory))
    ensures Decide(f, memory).0.PassedOn? <==> LetsThrough(EffectOf(f, i), memory)
    ensures forall j: nat | j < STAGES && NoneBefore(f, j) && Applies(f, j) :: j == i
  {
    hide EffectOf, FirstStage, Settling;
    Settled(f, i);
    FirstIsEmpty(f, i);
    forall j: nat | j < STAGES && NoneBefore(f, j) && Applies(f, j)
      ensures j == i
    {
      if j < i {
        NoneBeforeHolds(f, i, j);
      } else if i < j {
        NoneBeforeHolds(f, j, i);
      }
    }
  }

  lemma {:induction false} NoneBeforeHolds(f: Findings, i: nat, j: nat)
    requires NoneBefore(f, i) && j < i
    ensures !Applies(f, j)
    decreases i
  {
    hide Applies;
    if j < i - 1 {
      NoneBeforeHolds(f, i - 1, j);
    }
  }

  lemma FirstIsEmpty(f: Findings, i: nat)
    requires i < STAGES && NoneBefore(f, i) && Applies(f, i)
    ensures f.emptyPayload <==> i == 0
    ensures i == 0 ==> EffectOf(f, i) == Drop
  {
    if i > 0 {
      NoneBeforeHolds(f, i, 0);
    }
  }

  lemma SomeStageSettles(f: Findings) returns (i: nat)
    ensures i < STAGES && NoneBefore(f, i) && Applies(f, i)
  {
    i := 0;
    while !Applies(f, i)
      invariant i < STAGES && NoneBefore(f, i)
      decreases STAGES - i
    {
      i := i + 1;
    }
  }

  /** A behavioral escalation overrides the statistical verdict, which then has no influence, and nothing
      else: the flow is passed on exactly when the first stage that applies to it lets it through, at once
      or because its key is not remembered, and then with the higher priority. */
  lemma BehavioralEscalation(f: Findings, memory: set<Key>, statistical: bool)
    requires f.behavioralSuspect
    ensures Decide(f.(statistical := statistical), memory) == Decide(f, memory)
    ensures Decide(f, memory).0.PassedOn? <==>
              exists i: nat | i < STAGES :: NoneBefore(f, i) && Applies(f, i) && LetsThrough(EffectOf(f, i), memory)
    ensures Decide(f, memory).0.PassedOn? ==> Decide(f, memory).0.priority == 2
  {
    StatisticsIrrelevant(f, statistical, 0);
    EscalatedEffect(f, statistical, FirstStage(f, 0));
    hide FirstStage, EffectOf, Applies, NoneBefore;
    assert Decide(f, memory).0.PassedOn? ==> Decide(f, memory).0.priority == 2;
    assert Decide(f.(statistical := statistical), memory) == Decide(f, memory);
    hide Decide;
    var i := SomeStageSettles(f);
    FirstStageDecides(f, memory, i);
  }

  lemma EscalatedEffect(f: Findings, statistical: bool, i: nat)
    requires f.behavioralSuspect
    ensures EffectOf(f.(statistical := statistical), i) == EffectOf(f, i)
    ensures match EffectOf(f, i)
            case Pass(priority) => priority == 2
            case Drop => true
            case Once(_, priority) => priority == 2
  {
  }

  lemma SameStages(f: Findings, statistical: bool, i: nat)
    requires f.behavioralSuspect
    ensures Applies(f.(statistical := statistical), i) <==> Applies(f, i)
  {
  }

  lemma {:induction false} StatisticsIrrelevant(f: Findings, statistical: bool, i: nat)
    requires f.behavioralSuspect && i < STAGES
    ensures FirstStage(f.(statistical := statistical), i) == FirstStage(f, i)
    decreases STAGES - i
  {
    assert Applies(f, STAGES - 1);
    hide Applies;
    SameStages(f, statistical, i);
    if !Applies(f, i) {
      StatisticsIrrelevant(f, statistical, i + 1);
    }
  }

  /** A flow is forced through whatever is remembered exactly when a stage that always passes settles it. */
  lemma ForcedThroughExactly(f: Findings)
    ensures (forall memory :: Decide(f, memory).0.PassedOn?) <==>
            exists i: nat | i < STAGES :: NoneBefore(f, i) && Applies(f, i) && EffectOf(f, i).Pass?
  {
    hide Decide, Applies, NoneBefore, EffectOf;
    var i := SomeStageSettles(f);
    FirstStageDecides(f, {}, i);
    match EffectOf(f, i)
    case Pass(_) =>
      forall memory
        ensures Decide(f, memory).0.PassedOn?
      {
        FirstStageDecides(f, memory, i);
      }
    case Drop =>
    case Once(key, _) => FirstStageDecides(f, {key}, i);
  }

  /** An escalated flow of mostly binary content, as encrypted command traffic is, is filtered out. */
  lemma EscalatedBinaryIsDropped(key: Key, memory: set<Key>)
    ensures var f := Findings(false, NotTls, false, false, false, false, false, false, false, false, false, false,
                              false, false, false, true, false, true, key, key, key, key);
            f.behavioralSuspect && Decide(f, memory).0 == FilteredOut
  {
    var f := Findings(false, NotTls, false, false, false, false, false, false, false, false, false, false,
                      false, false, false, true, false, true, key, key, key, key);
    var i := SomeStageSettles(f);
    assert i == 11;
    FirstStageDecides(f, memory, i);
  }

  /** The key under which a flow is let through once, if its verdict depends on one. */
  function GuardKey(f: Findings): Option<Key> {
    match Settling(f)
    case Once(key, _) => Some(key)
    case _ => None
  }

  /** The dedup memory after a run of flows. */
  function Memory(fs: seq<Findings>): set<Key> {
    if fs == [] then {} else Decide(fs[|fs| - 1], Memory(fs[..|fs| - 1])).1
  }

  function VerdictAt(fs: seq<Findings>, i: nat): Verdict
    requires i < |fs|
  {
    Decide(fs[i], Memory(fs[..i])).0
  }

  lemma DecideByKey(f: Findings, memory: set<Key>)
    ensures var (v, seen) := Decide(f, memory);
            match GuardKey(f)
            case None => v != Duplicate && (seen == memory || seen == Trim(memory))
            case Some(k) => && seen == Trim(memory) + {k}
                            && (if k in Trim(memory) then v == Duplicate else v.PassedOn?)
  {
  }

  /** As long as the memory was never trimmed, it holds the key of every guarded flow so far. */
  lemma {:induction false} MemoryKeepsKeys(fs: seq<Findings>, i: nat)
    requires i < |fs| && GuardKey(fs[i]).Some?
    requires forall j | i < j < |fs| :: |Memory(fs[..j])| <= MAX_DEDUP_HASHES
    ensures GuardKey(fs[i]).value in Memory(fs)
  {
    hide Decide, GuardKey;
    var n := |fs| - 1;
    DecideByKey(fs[n], Memory(fs[..n]));
    if i < n {
      var front := fs[..n];
      forall j | i < j < |front|
        ensures |Memory(front[..j])| <= MAX_DEDUP_HASHES
      {
        assert front[..j] == fs[..j];
      }
      MemoryKeepsKeys(front, i);
    }
  }

  /** Between two flows with the same guard key that both get through, the memory was trimmed. */
  lemma NoRepeatUntilTrimmed(fs: seq<Findings>, i: nat, j: nat)
    requires i < j < |fs|
    requires GuardKey(fs[i]).Some? && GuardKey(fs[j]) == GuardKey(fs[i])
    requires VerdictAt(fs, i).PassedOn? && VerdictAt(fs, j).PassedOn?
    ensures exists m :: i < m <= j && |Memory(fs[..m])| > MAX_DEDUP_HASHES
  {
    hide Decide, GuardKey;
    if forall m | i < m <= j :: |Memory(fs[..m])| <= MAX_DEDUP_HASHES {
      forall m | i < m < |fs[..j]|
        ensures |Memory(fs[..j][..m])| <= MAX_DEDUP_HASHES
      {
        assert fs[..j][..m] == fs[..m];
      }
      MemoryKeepsKeys(fs[..j], i);
      DecideByKey(fs[j], Memory(fs[..j]));
      assert false;
    }
  }

  lemma MemoryStep(fs: seq<Findings>)
    ensures Memory(fs) == if fs == [] then {} else Decide(fs[|fs| - 1], Memory(fs[..|fs| - 1])).1
  {
  }

  lemma OneFlowSize(f: Findings, memory: set<Key>)
    ensures |Decide(f, memory).1| <= |memory| + 1
    ensures |memory| <= MAX_DEDUP_HASHES + 1 ==> |Decide(f, memory).1| <= MAX_DEDUP_HASHES + 1
  {
    hide Decide, GuardKey;
    DecideByKey(f, memory);
  }

  lemma {:induction false} MemorySize(fs: seq<Findings>)
    ensures |Memory(fs)| <= |fs| && |Memory(fs)| <= MAX_DEDUP_HASHES + 1
  {
    MemoryStep(fs);
    hide *;
    if fs != [] {
      var n := |fs| - 1;
      MemorySize(fs[..n]);
      OneFlowSize(fs[n], Memory(fs[..n]));
    }
  }

  /** Among the first 100001 flows no guarded detection gets through twice. */
  lemma NoRepeatEarly(fs: seq<Findings>, i: nat, j: nat)
    requires |fs| <= MAX_DEDUP_HASHES + 1 && i < j < |fs|
    requires GuardKey(fs[i]).Some? && GuardKey(fs[j]) == GuardKey(fs[i])
    ensures !(VerdictAt(fs, i).PassedOn? && VerdictAt(fs, j).PassedOn?)
  {
    if VerdictAt(fs, i).PassedOn? && VerdictAt(fs, j).PassedOn? {
      NoRepeatUntilTrimmed(fs, i, j);
      var m :| i < m <= j && |Memory(fs[..m])| > MAX_DEDUP_HASHES;
      MemorySize(fs[..m]);
      assert false;
    }
  }
}
