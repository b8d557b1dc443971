/** Delivered data is final: laws of reassembly over arbitrary packets. */
module TcpFirstSeen {
  import opened SerialNumbers
  import opened TcpConnection

  /** The sequence number of the first payload byte, as implied by the buffers. */
  function Baseline(s: Stream): uint32 {
    Add32(s.expected, -|s.payload|)
  }

  lemma AdvanceKeepsBaseline(expected: uint32, have: int, more: int)
    ensures Add32(Add32(expected, more), -(have + more)) == Add32(expected, -have)
  {
  }

  lemma DrainFirstKeepsFirstSeen(s: Stream)
    requires !Blocked(s)
    ensures s.payload <= DrainFirst(s).payload
    ensures |DrainFirst(s).pending| < |s.pending|
    ensures Baseline(DrainFirst(s)) == Baseline(s)
  {
    hide Add32, Sub32, SeqAfter;
    var key := FirstKey(s.pending.Keys);
    if SeqAfter(Add32(key, |s.pending[key]|), s.expected) {
      DrainOffsetInRange(s.expected, key, s.pending[key]);
      AdvanceKeepsBaseline(s.expected, |s.payload|, |s.pending[key]| - Sub32(s.expected, key));
    }
  }

  lemma {:induction false} DrainKeepsFirstSeen(s: Stream)
    ensures s.payload <= Drain(s).payload
    ensures |Drain(s).pending| <= |s.pending|
    ensures Baseline(Drain(s)) == Baseline(s)
    decreases |s.pending|
  {
    if !Blocked(s) {
      DrainFirstKeepsFirstSeen(s);
      DrainKeepsFirstSeen(DrainFirst(s));
    }
  }

  lemma DeliverKeepsFirstSeen(s: Stream, seqNum: uint32, data: Segment)
    requires |s.pending| <= MAX_PENDING
    ensures s.payload <= Deliver(s, seqNum, data).payload
    ensures |Deliver(s, seqNum, data).pending| <= MAX_PENDING
    ensures Baseline(Deliver(s, seqNum, data)) == Baseline(s)
  {
    hide SeqAfter, Add32, Drain;
    if seqNum == s.expected {
      AdvanceKeepsBaseline(s.expected, |s.payload|, |data|);
      DrainKeepsFirstSeen(Append(s, data));
    }
  }

  /** Whatever arrives, bytes once delivered are never changed or removed, the pending map stays
      within its cap, and on non-SYN packets the payload never shifts against the sequence space. */
  lemma FirstSeenWins(c: Conn, p: Packet)
    requires |c.stream.pending| <= MAX_PENDING
    ensures c.stream.payload <= Step(c, p).stream.payload
    ensures |Step(c, p).stream.pending| <= MAX_PENDING
    ensures !p.syn && c.stream.payload != [] ==> Baseline(Step(c, p).stream) == Baseline(c.stream)
  {
    if p.CarriesData() {
      DeliverKeepsFirstSeen(Rebase(c.stream, c.synReceived, p.seqNum), p.seqNum, p.payload.bytes);
    }
  }

  /** The same over whole runs from a new connection. */
  lemma {:induction false} FirstSeenWinsOverRuns(ps: seq<Packet>, n: nat)
    requires n <= |ps|
    ensures Run(FRESH, ps[..n]).stream.payload <= Run(FRESH, ps).stream.payload
    ensures |Run(FRESH, ps).stream.pending| <= MAX_PENDING
    decreases |ps|
  {
    if ps != [] {
      var last := |ps| - 1;
      FirstSeenWinsOverRuns(ps[..last], if n <= last then n else last);
      FirstSeenWins(Run(FRESH, ps[..last]), ps[last]);
      if n <= last {
        assert ps[..last][..n] == ps[..n];
      } else {
        assert ps[..n] == ps;
      }
    }
  }
}
