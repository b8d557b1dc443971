/** The verdict of the filter worker told by the findings alone. */
module NpuVerdicts {
  import opened PriorityQueue
  import opened NpuFilter

  // ---------------------------------------------------------------- how far a flow gets

  /** There is a payload, and TLS settled nothing: none, or a handshake with an exploit on top. */
  predicate Readable(f: Findings) {
    !f.emptyPayload && f.tls != SuspiciousTls && (f.tls == BenignTls ==> f.heartbleed)
  }

  /** The threat feed has a signature or an address of it. */
  predicate Listed(f: Findings) {
    f.feedLoaded && (f.signature || f.badIp)
  }

  /** Neither the feed nor the two exploit signatures have it. */
  predicate Unnamed(f: Findings) {
    Readable(f) && !Listed(f) && !f.heartbleed && !f.smb
  }

  /** None of the protocol detectors before the last has it either. */
  predicate Plain(f: Findings) {
    Unnamed(f) && !f.spnego && !f.httpBruteForce && !f.benignHttp && !f.credential && !f.ftp
  }

  /** Nothing names it, it is not binary, and one of the three general suspicions holds. */
  predicate Anomalous(f: Findings) {
    Plain(f) && !f.rat && !f.mostlyBinary && (f.obfuscated || f.behavioralSuspect || f.statistical)
  }

  /** The memory a flow meets. */
  function Remembered(memory: set<Key>): set<Key> {
    if |memory| > 100000 then {} else memory
  }

  // ---------------------------------------------------------------- from stages to findings

  /** What not having been settled before stage i says about the flow. */
  lemma Reach(f: Findings, i: nat)
    requires i < STAGES && forall j: nat | j < i :: !Applies(f, j)
    ensures i >= 1 ==> !f.emptyPayload
    ensures i >= 2 ==> f.tls != SuspiciousTls
    ensures i >= 3 ==> Readable(f)
    ensures i >= 4 ==> !Listed(f)
    ensures i >= 5 ==> !f.heartbleed
    ensures i >= 6 ==> Unnamed(f)
    ensures i >= 7 ==> !f.spnego
    ensures i >= 8 ==> !f.httpBruteForce
    ensures i >= 9 ==> !f.benignHttp
    ensures i >= 10 ==> Plain(f)
    ensures i >= 11 ==> !f.rat
    ensures i >= 12 ==> Anomalous(f)
  {
    assert i >= 1 ==> !Applies(f, 0);
    assert i >= 2 ==> !Applies(f, 1);
    assert i >= 3 ==> !Applies(f, 2);
    assert i >= 4 ==> !Applies(f, 3);
    assert i >= 5 ==> !Applies(f, 4);
    assert i >= 6 ==> !Applies(f, 5);
    assert i >= 7 ==> !Applies(f, 6);
    assert i >= 8 ==> !Applies(f, 7);
    assert i >= 9 ==> !Applies(f, 8);
    assert i >= 10 ==> !Applies(f, 9);
    assert i >= 11 ==> !Applies(f, 10);
    assert i >= 12 ==> !Applies(f, 11);
  }

  /** The stage that settles the flow, with the findings that lead to it. */
  lemma StageOf(f: Findings) returns (i: nat)
    ensures i < STAGES && NoneBefore(f, i) && Applies(f, i)
    ensures i == 0 <==> f.emptyPayload
    ensures i == 1 <==> !f.emptyPayload && f.tls == SuspiciousTls
    ensures i == 2 <==> !f.emptyPayload && f.tls == BenignTls && !f.heartbleed
    ensures i == 3 <==> Readable(f) && Listed(f)
    ensures i == 4 <==> Readable(f) && !Listed(f) && f.heartbleed
    ensures i == 5 <==> Readable(f) && !Listed(f) && !f.heartbleed && f.smb
    ensures i == 6 <==> Unnamed(f) && f.spnego
    ensures i == 7 <==> Unnamed(f) && !f.spnego && f.httpBruteForce
    ensures i == 8 <==> Unnamed(f) && !f.spnego && !f.httpBruteForce && f.benignHttp
    ensures i == 9 <==> Unnamed(f) && !f.spnego && !f.httpBruteForce && !f.benignHttp && (f.credential || f.ftp)
    ensures i == 10 <==> Plain(f) && f.rat
    ensures i == 12 <==> Anomalous(f)
  {
    i := SomeStageSettles(f);
    forall j: nat | j < i
      ensures !Applies(f, j)
    {
      NoneBeforeHolds(f, i, j);
    }
    Reach(f, i);
    hide NoneBefore;
  }

  // ---------------------------------------------------------------- the verdicts

  /** Filtered out as benign: no payload, benign TLS, negotiation, benign HTTP that is no brute force, and
      what nothing names that is binary or not suspicious. */
  lemma FilteredExactly(f: Findings, memory: set<Key>)
    ensures Decide(f, memory).0 == FilteredOut <==>
              || f.emptyPayload
              || (f.tls == BenignTls && !f.heartbleed)
              || (Unnamed(f) && (f.spnego || (f.benignHttp && !f.httpBruteForce)))
              || (Plain(f) && !f.rat && !Anomalous(f))
  {
    var i := StageOf(f);
    FirstStageDecides(f, memory, i);
    hide Decide, Applies, NoneBefore;
  }

  /** Filtered out as seen before: the detections that are remembered are the two exploits, the remote access
      protocol and the anomalies. */
  lemma DuplicateExactly(f: Findings, memory: set<Key>)
    ensures var kept := Remembered(memory);
            Decide(f, memory).0 == Duplicate <==>
              || (Readable(f) && !Listed(f) && f.heartbleed && f.heartbleedKey in kept)
              || (Readable(f) && !Listed(f) && !f.heartbleed && f.smb && f.smbKey in kept)
              || (Plain(f) && f.rat && f.ratKey in kept)
              || (Anomalous(f) && f.payloadKey in kept)
  {
    var i := StageOf(f);
    FirstStageDecides(f, memory, i);
    hide Decide, Applies, NoneBefore;
  }

  /** Passed on with low priority: what only the feed has, without naming it, and fresh anomalies, unless the
      behavioral model escalated them. */
  lemma LowPriorityExactly(f: Findings, memory: set<Key>)
    ensures Decide(f, memory).0 == PassedOn(1) <==>
              && !f.behavioralSuspect
              && (|| (Readable(f) && Listed(f) && (!f.signature || f.forensic))
                  || (Anomalous(f) && f.payloadKey !in Remembered(memory)))
  {
    var i := StageOf(f);
    FirstStageDecides(f, memory, i);
    hide Decide, Applies, NoneBefore;
  }

  /** Passed on with high priority: everything else. */
  lemma HighPriorityExactly(f: Findings, memory: set<Key>)
    ensures var kept := Remembered(memory);
            Decide(f, memory).0 == PassedOn(2) <==>
              || (!f.emptyPayload && f.tls == SuspiciousTls)
              || (Readable(f) && Listed(f) && (f.behavioralSuspect || (f.signature && !f.forensic)))
              || (Readable(f) && !Listed(f) && f.heartbleed && f.heartbleedKey !in kept)
              || (Readable(f) && !Listed(f) && !f.heartbleed && f.smb && f.smbKey !in kept)
              || (Unnamed(f) && !f.spnego && f.httpBruteForce)
              || (Unnamed(f) && !f.spnego && !f.httpBruteForce && !f.benignHttp && (f.credential || f.ftp))
              || (Plain(f) && f.rat && f.ratKey !in kept)
              || (Anomalous(f) && f.behavioralSuspect && f.payloadKey !in kept)
  {
    var i := StageOf(f);
    FirstStageDecides(f, memory, i);
    hide Decide, Applies, NoneBefore;
  }

  /** No flow ever gets another verdict. */
  lemma FourVerdicts(f: Findings, memory: set<Key>)
    ensures Decide(f, memory).0 in {FilteredOut, Duplicate, PassedOn(1), PassedOn(2)}
  {
    var i := StageOf(f);
    FirstStageDecides(f, memory, i);
    hide Decide, Applies, NoneBefore;
  }

  /** And it is pushed once with that priority, or not at all. */
  lemma PushedExactly<T>(f: Findings, memory: set<Key>, flow: T)
    ensures var v := Decide(f, memory).0;
            Pushed(v, flow) ==
              if v == PassedOn(1) then [Entry(1, flow)] else if v == PassedOn(2) then [Entry(2, flow)] else []
  {
    FourVerdicts(f, memory);
    hide Decide;
  }

  /** What is remembered afterwards: what was, unless a flow with a payload met more than 100000 keys, and
      the key of a detection that is remembered. */
  lemma MemoryExactly(f: Findings, memory: set<Key>, key: Key)
    ensures key in Decide(f, memory).1 <==>
              || (f.emptyPayload && key in memory)
              || (!f.emptyPayload && key in Remembered(memory))
              || (Readable(f) && !Listed(f) && f.heartbleed && key == f.heartbleedKey)
              || (Readable(f) && !Listed(f) && !f.heartbleed && f.smb && key == f.smbKey)
              || (Plain(f) && f.rat && key == f.ratKey)
              || (Anomalous(f) && key == f.payloadKey)
  {
    var i := StageOf(f);
    FirstStageDecides(f, memory, i);
    hide Decide, Applies, NoneBefore;
  }
}
