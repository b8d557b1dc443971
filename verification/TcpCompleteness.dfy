/** When is every segment order reassembled in full? */
module TcpCompleteness {
  import opened SerialNumbers
  import opened Bytes
  import opened TcpConnection
  import opened TcpSoundness

  // ---------------------------------------------------------------- a segmented stream

  function Concat(segs: seq<Segment>): seq<byte> {
    if segs == [] then [] else Concat(segs[..|segs| - 1]) + segs[|segs| - 1]
  }

  /** The stream offset at which segment `i` starts. */
  function Start(segs: seq<Segment>, i: nat): nat
    requires i <= |segs|
  {
    |Concat(segs[..i])|
  }

  function SeqOf(base: uint32, segs: seq<Segment>, i: nat): uint32
    requires i <= |segs|
  {
    Add32(base, Start(segs, i))
  }

  lemma StartStep(segs: seq<Segment>, i: nat)
    requires i < |segs|
    ensures Concat(segs[..i + 1]) == Concat(segs[..i]) + segs[i]
    ensures Start(segs, i + 1) == Start(segs, i) + |segs[i]|
  {
    assert segs[..i + 1][..i] == segs[..i];
  }

  lemma {:induction false} StartsIncrease(segs: seq<Segment>, i: nat, j: nat)
    requires i <= j <= |segs|
    ensures j - i <= Start(segs, j) - Start(segs, i) <= (j - i) * MAX_SEGMENT
  {
    if i < j {
      StartsIncrease(segs, i, j - 1);
      StartStep(segs, j - 1);
    }
  }

  /** Within 257 segments of each other, sequence numbers compare like positions in the stream. */
  lemma SeqOfOrder(base: uint32, segs: seq<Segment>, i: nat, j: nat)
    requires i <= |segs| && j <= |segs| && -257 <= i - j <= 257
    ensures SeqAfter(SeqOf(base, segs, i), SeqOf(base, segs, j)) <==> i > j
    ensures SeqOf(base, segs, i) == SeqOf(base, segs, j) <==> i == j
  {
    if i <= j {
      StartsIncrease(segs, i, j);
    } else {
      StartsIncrease(segs, j, i);
    }
    SeqAfterIsOffsetOrder(base, Start(segs, i), Start(segs, j));
  }

  // ---------------------------------------------------------------- arrivals

  /** Packet `p` carries segment `i` whole; its RST and FIN flags and timing are free. */
  predicate Carries(base: uint32, segs: seq<Segment>, p: Packet, i: nat) {
    && i < |segs|
    && !p.syn
    && p.payload == Captured(segs[i])
    && p.seqNum == SeqOf(base, segs, i)
  }

  /** Every packet carries the segment `order` names; a name past the last segment stands for a
      packet without captured data. */
  ghost predicate Arrivals(base: uint32, segs: seq<Segment>, ps: seq<Packet>, order: seq<nat>) {
    && |ps| == |order|
    && forall j | 0 <= j < |ps| ::
         Carries(base, segs, ps[j], order[j]) || (order[j] >= |segs| && !ps[j].syn && !ps[j].CarriesData())
  }

  /** Every segment arrives at least once. */
  ghost predicate Delivery(base: uint32, segs: seq<Segment>, ps: seq<Packet>, order: seq<nat>) {
    && Arrivals(base, segs, ps, order)
    && forall i: nat | i < |segs| :: i in order
  }

  predicate Complete(segs: seq<Segment>, c: Conn) {
    c.stream.payload == Concat(segs) && c.stream.pending == map[]
  }

  /** A connection on which the SYN numbering `base` was seen and nothing else. */
  predicate Opened(base: uint32, c: Conn) {
    c.stream == Stream(base, map[], []) && c.synReceived
  }

  // ---------------------------------------------------------------- the two limits

  /** Segments 1 and the last start on different sides of the 2^32 wrap. */
  predicate Straddles(base: uint32, segs: seq<Segment>) {
    && |segs| >= 3
    && base + Start(segs, 1) < MODULUS <= base + Start(segs, |segs| - 1)
  }

  /** Every segment but the first fits the pending map, and all of them order by raw value. */
  predicate WithinLimits(base: uint32, segs: seq<Segment>) {
    |segs| <= MAX_PENDING + 1 && !Straddles(base, segs)
  }

  lemma RawOrder(base: uint32, segs: seq<Segment>, i: nat, j: nat)
    requires WithinLimits(base, segs)
    requires 1 <= i < j < |segs|
    ensures SeqOf(base, segs, i) < SeqOf(base, segs, j)
  {
    StartsIncrease(segs, 1, i);
    StartsIncrease(segs, i, j);
    StartsIncrease(segs, j, |segs| - 1);
    StartsIncrease(segs, 0, |segs| - 1);
    assert Start(segs, |segs| - 1) - Start(segs, 0) <= 256 * MAX_SEGMENT;
    hide Start, Add32;
    RawLess(base, Start(segs, 1), Start(segs, i), Start(segs, j), Start(segs, |segs| - 1));
  }

  lemma RawLess(base: uint32, low: nat, x: nat, y: nat, high: nat)
    requires low <= x < y <= high < HALF
    requires base + high < MODULUS || MODULUS <= base + low
    ensures Add32(base, x) < Add32(base, y)
  {
  }

  // ---------------------------------------------------------------- what the buffers hold

  function KeysOf(base: uint32, segs: seq<Segment>, indices: set<nat>): set<uint32>
    requires forall i | i in indices :: i < |segs|
  {
    set i | i in indices :: SeqOf(base, segs, i)
  }

  ghost predicate PendingIs(base: uint32, segs: seq<Segment>, m: nat, early: set<nat>, pending: map<uint32, Segment>) {
    && (forall i | i in early :: m <= i < |segs| && i - m <= 257)
    && pending.Keys == KeysOf(base, segs, early)
    && (forall i | i in early :: pending[SeqOf(base, segs, i)] == segs[i])
  }

  /** The first `m` segments are delivered, of the rest exactly those in `early` are pending. */
  ghost predicate Holding(base: uint32, segs: seq<Segment>, m: nat, early: set<nat>, s: Stream) {
    && m <= |segs|
    && s.payload == Concat(segs[..m])
    && s.expected == SeqOf(base, segs, m)
    && PendingIs(base, segs, m, early, s.pending)
  }

  lemma {:induction false} ImageSize(base: uint32, segs: seq<Segment>, indices: set<nat>)
    requires forall i | i in indices :: i < |segs|
    ensures |KeysOf(base, segs, indices)| <= |indices|
  {
    if indices != {} {
      var i :| i in indices;
      ImageSize(base, segs, indices - {i});
      assert KeysOf(base, segs, indices) == KeysOf(base, segs, indices - {i}) + {SeqOf(base, segs, i)};
    }
  }

  lemma KeysOfAdd(base: uint32, segs: seq<Segment>, indices: set<nat>, i: nat)
    requires i < |segs| && forall j | j in indices :: j < |segs|
    ensures KeysOf(base, segs, indices + {i}) == KeysOf(base, segs, indices) + {SeqOf(base, segs, i)}
  {
    hide SeqOf;
  }

  lemma {:induction false} RangeSize(s: set<nat>, lo: nat, hi: nat)
    requires lo <= hi
    requires forall i | i in s :: lo <= i < hi
    ensures |s| <= hi - lo
  {
    if lo == hi {
      assert s == {};
    } else {
      RangeSize(s - {hi - 1}, lo, hi - 1);
    }
  }

  lemma RoomForNewSegment(base: uint32, segs: seq<Segment>, m: nat, early: set<nat>, s: Stream, i: nat)
    requires Holding(base, segs, m, early, s)
    requires m < i < |segs| && i - m <= 257
    requires i !in early
    ensures |s.pending| <= |early|
    ensures SeqOf(base, segs, i) !in s.pending
  {
    hide SeqOf;
    ImageSize(base, segs, early);
    assert |s.pending| == |s.pending.Keys|;
    forall j | j in early
      ensures SeqOf(base, segs, j) != SeqOf(base, segs, i)
    {
      SeqOfOrder(base, segs, i, j);
    }
  }

  lemma AddPending(base: uint32, segs: seq<Segment>, m: nat, early: set<nat>, s: Stream, i: nat)
    requires Holding(base, segs, m, early, s)
    requires m < i < |segs| && i - m <= 257
    requires SeqOf(base, segs, i) !in s.pending
    ensures Holding(base, segs, m, early + {i}, s.(pending := s.pending[SeqOf(base, segs, i) := segs[i]]))
  {
    hide SeqOf, Concat;
    KeysOfAdd(base, segs, early, i);
  }

  /** An early segment not yet pending is stored as long as fewer than 256 others are. */
  lemma StoreHolds(base: uint32, segs: seq<Segment>, m: nat, early: set<nat>, s: Stream, i: nat)
    requires Holding(base, segs, m, early, s)
    requires m < i < |segs| && i - m <= 257
    requires i in early || |early| < MAX_PENDING
    ensures Holding(base, segs, m, early + {i}, Store(s, SeqOf(base, segs, i), segs[i]))
  {
    hide SeqOf, Concat;
    if i in early {
      assert early + {i} == early;
    } else {
      RoomForNewSegment(base, segs, m, early, s, i);
      AddPending(base, segs, m, early, s, i);
    }
  }

  /** The drain loop delivers the whole contiguous run that starts at segment `m` and stops at
      the first missing one. */
  lemma {:induction false} DrainCompletes(base: uint32, segs: seq<Segment>, m: nat, early: set<nat>, s: Stream)
    returns (m': nat, early': set<nat>)
    requires WithinLimits(base, segs) && m >= 1
    requires Holding(base, segs, m, early, s)
    ensures Holding(base, segs, m', early', Drain(s))
    ensures m <= m' && m' !in early'
    ensures early' <= early && forall i | m <= i < m' :: i in early
    ensures forall i | i in early :: i < m' || i in early'
    decreases |segs| - m
  {
    hide SeqOf, SeqAfter, DrainFirst, WithinLimits, Concat, Holding;
    if s.pending == map[] {
      NothingPending(base, segs, m, early, s);
      return m, early;
    }
    var i := FirstPending(base, segs, m, early, s);
    if i > m {
      return m, early;
    }
    DrainFirstTakesNext(base, segs, m, early, s);
    var rest := early - {m};
    m', early' := DrainCompletes(base, segs, m + 1, rest, DrainFirst(s));
    assert forall j | j in early :: j == m || j in rest;
    forall j | m <= j < m'
      ensures j in early
    {
      assert j == m || j in rest;
    }
  }

  lemma NothingPending(base: uint32, segs: seq<Segment>, m: nat, early: set<nat>, s: Stream)
    requires Holding(base, segs, m, early, s) && s.pending == map[]
    ensures early == {}
  {
    hide SeqOf, Concat;
  }

  /** The first key belongs to the lowest early segment; it is due, or lies beyond a gap at `m`. */
  lemma FirstPending(base: uint32, segs: seq<Segment>, m: nat, early: set<nat>, s: Stream) returns (i: nat)
    requires WithinLimits(base, segs) && m >= 1
    requires Holding(base, segs, m, early, s) && s.pending != map[]
    ensures forall j | j in early :: m <= j < |segs|
    ensures i in early && FirstKey(s.pending.Keys) == SeqOf(base, segs, i)
    ensures i > m ==> m !in early && Blocked(s)
  {
    hide SeqOf, SeqAfter, Concat, WithinLimits;
    var key := FirstKey(s.pending.Keys);
    i :| i in early && key == SeqOf(base, segs, i);
    SeqOfOrder(base, segs, i, m);
    if i > m {
      assert m in early ==> SeqOf(base, segs, m) in s.pending;
      if m in early {
        RawOrder(base, segs, m, i);
        assert false;
      }
    }
  }

  lemma DrainFirstIsNext(base: uint32, segs: seq<Segment>, m: nat, s: Stream)
    requires m < |segs|
    requires s.pending != map[] && FirstKey(s.pending.Keys) == SeqOf(base, segs, m) == s.expected
    requires s.pending[s.expected] == segs[m]
    ensures !Blocked(s)
    ensures DrainFirst(s) == Stream(SeqOf(base, segs, m + 1), Without(s.pending, s.expected), s.payload + segs[m])
  {
    StartStep(segs, m);
    AddOffsets(base, Start(segs, m), |segs[m]|);
    SeqOfOrder(base, segs, m, m);
    SeqOfOrder(base, segs, m + 1, m);
    assert Sub32(s.expected, s.expected) == 0;
    hide SeqOf, SeqAfter, Add32, Sub32, Start, Concat;
    assert segs[m][0..] == segs[m];
  }

  lemma RemovePending(base: uint32, segs: seq<Segment>, m: nat, early: set<nat>, pending: map<uint32, Segment>)
    requires PendingIs(base, segs, m, early, pending) && m in early
    ensures SeqOf(base, segs, m) in pending
    ensures PendingIs(base, segs, m + 1, early - {m}, Without(pending, SeqOf(base, segs, m)))
  {
    hide SeqOf, Concat;
    var key := SeqOf(base, segs, m);
    forall j | j in early - {m}
      ensures SeqOf(base, segs, j) != key
    {
      SeqOfOrder(base, segs, j, m);
    }
    KeysOfAdd(base, segs, early - {m}, m);
    assert early - {m} + {m} == early;
    assert KeysOf(base, segs, early - {m}) == KeysOf(base, segs, early) - {key};
  }

  lemma DrainFirstTakesNext(base: uint32, segs: seq<Segment>, m: nat, early: set<nat>, s: Stream)
    requires Holding(base, segs, m, early, s)
    requires m in early && s.pending != map[] && FirstKey(s.pending.Keys) == SeqOf(base, segs, m)
    ensures !Blocked(s)
    ensures Holding(base, segs, m + 1, early - {m}, DrainFirst(s))
  {
    assert m < |segs| && s.pending[SeqOf(base, segs, m)] == segs[m];
    hide SeqOf, Concat, Start, DrainFirst, Blocked, PendingIs;
    StartStep(segs, m);
    RemovePending(base, segs, m, early, s.pending);
    DrainFirstIsNext(base, segs, m, s);
  }

  // ---------------------------------------------------------------- within the limits

  lemma {:induction false} ConcatPrefix(segs: seq<Segment>, m: nat)
    requires m <= |segs|
    ensures Start(segs, m) <= |Concat(segs)|
    ensures Concat(segs)[..Start(segs, m)] == Concat(segs[..m])
  {
    if m == |segs| {
      assert segs[..m] == segs;
    } else {
      var front := segs[..|segs| - 1];
      ConcatPrefix(front, m);
      assert front[..m] == segs[..m];
    }
  }

  lemma SecondPart(whole: seq<byte>, a: seq<byte>, b: seq<byte>)
    requires |a| + |b| <= |whole| && whole[..|a| + |b|] == a + b
    ensures whole[|a|..|a| + |b|] == b
  {
    assert whole[|a|..|a| + |b|] == whole[..|a| + |b|][|a|..];
  }

  lemma SliceFromParts(whole: seq<byte>, base: uint32, o: nat, data: seq<byte>)
    requires o + |data| <= |whole| && whole[o..o + |data|] == data
    ensures SliceAt(whole, base, o, Add32(base, o), data)
  {
  }

  lemma SegmentIsSlice(base: uint32, segs: seq<Segment>, i: nat)
    requires i < |segs|
    ensures SliceAt(Concat(segs), base, Start(segs, i), SeqOf(base, segs, i), segs[i])
  {
    hide Concat, Add32, SliceAt;
    var whole, front := Concat(segs), Concat(segs[..i]);
    ConcatPrefix(segs, i + 1);
    StartStep(segs, i);
    assert whole[..|front| + |segs[i]|] == front + segs[i];
    SecondPart(whole, front, segs[i]);
    SliceFromParts(whole, base, |front|, segs[i]);
  }

  lemma SegmentsNeverConflict(base: uint32, segs: seq<Segment>, m: nat, early: set<nat>, s: Stream, i: nat)
    requires WithinLimits(base, segs)
    requires Holding(base, segs, m, early, s) && i < |segs|
    ensures !Conflicts(s, SeqOf(base, segs, i), segs[i])
  {
    if s.pending == map[] {
      StartsIncrease(segs, 0, |segs|);
      assert segs[..|segs|] == segs;
      ConcatPrefix(segs, m);
      SegmentIsSlice(base, segs, i);
      hide Conflicts, SliceAt;
      assert Aligned(Concat(segs), base, 0, s);
      SlicesNeverConflict(Concat(segs), base, 0, s, SeqOf(base, segs, i), segs[i], Start(segs, i));
    }
  }

  /** The segments that have arrived are the first `m` and the early ones; segment `m` has not. */
  ghost predicate Reached(base: uint32, segs: seq<Segment>, order: seq<nat>, m: nat, early: set<nat>, c: Conn) {
    && c.synReceived
    && Holding(base, segs, m, early, c.stream)
    && m !in early
    && forall i: nat | i < |segs| :: i in order <==> i < m || i in early
  }

  lemma DeliverSegment(base: uint32, segs: seq<Segment>, m: nat, early: set<nat>, s: Stream, i: nat)
    returns (m': nat, early': set<nat>)
    requires WithinLimits(base, segs) && i < |segs|
    requires Holding(base, segs, m, early, s) && m !in early
    ensures Holding(base, segs, m', early', Deliver(s, SeqOf(base, segs, i), segs[i])) && m' !in early'
    ensures forall j: nat | j < |segs| :: (j < m' || j in early') <==> (j < m || j in early || j == i)
  {
    hide SeqOf, SeqAfter, Drain, Store;
    SeqOfOrder(base, segs, i, m);
    if i == m {
      AppendNext(base, segs, m, early, s);
      m', early' := DrainCompletes(base, segs, m + 1, early, Append(s, segs[m]));
    } else if i > m {
      assert forall j | j in early + {i} :: m + 1 <= j < |segs|;
      RangeSize(early + {i}, m + 1, |segs|);
      StoreHolds(base, segs, m, early, s, i);
      m', early' := m, early + {i};
    } else {
      m', early' := m, early;
    }
  }

  lemma AppendNext(base: uint32, segs: seq<Segment>, m: nat, early: set<nat>, s: Stream)
    requires m < |segs| && Holding(base, segs, m, early, s) && m !in early
    ensures Holding(base, segs, m + 1, early, Append(s, segs[m]))
  {
    StartStep(segs, m);
    AddOffsets(base, Start(segs, m), |segs[m]|);
  }

  lemma StepReached(base: uint32, segs: seq<Segment>, order: seq<nat>, m: nat, early: set<nat>, c: Conn,
                    p: Packet, i: nat)
    returns (m': nat, early': set<nat>)
    requires WithinLimits(base, segs)
    requires Reached(base, segs, order, m, early, c)
    requires Carries(base, segs, p, i) || (i >= |segs| && !p.syn && !p.CarriesData())
    ensures Reached(base, segs, order + [i], m', early', Step(c, p))
  {
    hide WithinLimits, Holding, SeqOf, Deliver, Conflicts;
    m', early' := m, early;
    if i < |segs| {
      SegmentsNeverConflict(base, segs, m, early, c.stream, i);
      m', early' := DeliverSegment(base, segs, m, early, c.stream, i);
      assert Step(c, p).stream == Deliver(c.stream, SeqOf(base, segs, i), segs[i]);
    }
  }

  lemma OpenedReaches(base: uint32, segs: seq<Segment>, c: Conn)
    requires Opened(base, c)
    ensures Reached(base, segs, [], 0, {}, c)
  {
    assert KeysOf(base, segs, {}) == {};
    assert SeqOf(base, segs, 0) == base;
  }

  lemma {:induction false} RunReaches(base: uint32, segs: seq<Segment>, ps: seq<Packet>, order: seq<nat>, c: Conn)
    returns (m: nat, early: set<nat>)
    requires WithinLimits(base, segs) && Opened(base, c)
    requires Arrivals(base, segs, ps, order)
    ensures Reached(base, segs, order, m, early, Run(c, ps))
  {
    hide WithinLimits, Step, Reached, Carries, Opened;
    if ps == [] {
      OpenedReaches(base, segs, c);
      m, early := 0, {};
    } else {
      var n := |ps| - 1;
      RunStep(c, ps[..n], ps[n]);
      hide Run;
      assert ps[..n] + [ps[n]] == ps && order[..n] + [order[n]] == order;
      m, early := RunReaches(base, segs, ps[..n], order[..n], c);
      m, early := StepReached(base, segs, order[..n], m, early, Run(c, ps[..n]), ps[n], order[n]);
    }
  }

  lemma DeliveryCompletes(base: uint32, segs: seq<Segment>, ps: seq<Packet>, order: seq<nat>, c: Conn)
    requires WithinLimits(base, segs) && Opened(base, c)
    requires Delivery(base, segs, ps, order)
    ensures Complete(segs, Run(c, ps))
  {
    var m, early := RunReaches(base, segs, ps, order, c);
    assert m == |segs| && early == {};
    assert segs[..m] == segs;
  }

  // ---------------------------------------------------------------- beyond the limits

  lemma {:induction false} LeftoverSize(pending: map<uint32, Segment>, key: uint32)
    requires key in pending
    ensures |Leftover(pending)| == |pending[key]| + |Leftover(Without(pending, key))|
    decreases |pending|
  {
    var first := FirstKey(pending.Keys);
    if first != key {
      LeftoverSize(Without(pending, first), key);
      assert Without(Without(pending, first), key) == Without(Without(pending, key), first);
      var rest := Without(pending, key);
      assert rest.Keys == pending.Keys - {key};
      assert FirstKey(rest.Keys) == first;
    }
  }

  /** All bytes held, delivered or pending. */
  function BytesHeld(s: Stream): nat {
    |s.payload| + |Leftover(s.pending)|
  }

  lemma DrainFirstGainsNothing(s: Stream)
    requires !Blocked(s)
    ensures BytesHeld(DrainFirst(s)) <= BytesHeld(s)
  {
    hide SeqAfter, Sub32, Add32, Leftover;
    var key := FirstKey(s.pending.Keys);
    LeftoverSize(s.pending, key);
    if SeqAfter(Add32(key, |s.pending[key]|), s.expected) {
      DrainOffsetInRange(s.expected, key, s.pending[key]);
    }
  }

  lemma {:induction false} DrainGainsNothing(s: Stream)
    ensures BytesHeld(Drain(s)) <= BytesHeld(s)
    decreases |s.pending|
  {
    if !Blocked(s) {
      DrainFirstGainsNothing(s);
      hide DrainFirst, BytesHeld;
      DrainGainsNothing(DrainFirst(s));
    }
  }

  lemma DeliverGainsAtMost(s: Stream, seqNum: uint32, data: Segment)
    ensures BytesHeld(Deliver(s, seqNum, data)) <= BytesHeld(s) + |data|
  {
    if seqNum == s.expected {
      DrainGainsNothing(Append(s, data));
    } else if |s.pending| < MAX_PENDING && seqNum !in s.pending {
      var t := s.pending[seqNum := data];
      LeftoverSize(t, seqNum);
      assert Without(t, seqNum) == s.pending;
    }
  }

  /** A packet adds at most its own bytes to what is held. */
  lemma StepGainsAtMost(c: Conn, p: Packet)
    ensures BytesHeld(Step(c, p).stream) <= BytesHeld(c.stream) + p.payload.Length()
  {
    if p.CarriesData() {
      hide Deliver, Leftover;
      DeliverGainsAtMost(Rebase(c.stream, c.synReceived, p.seqNum), p.seqNum, p.payload.bytes);
    }
  }

  function PacketOf(base: uint32, segs: seq<Segment>, i: nat): Packet
    requires i < |segs|
  {
    Packet(false, false, false, SeqOf(base, segs, i), Captured(segs[i]), 0.0)
  }

  /** Segments 1 to `j` in order. */
  function Others(base: uint32, segs: seq<Segment>, j: nat): seq<Packet>
    requires j < |segs|
  {
    if j == 0 then [] else Others(base, segs, j - 1) + [PacketOf(base, segs, j)]
  }

  /** Segments 1, 2, ... first, segment 0 at the very end. */
  function FirstSegmentLast(base: uint32, segs: seq<Segment>): seq<Packet>
    requires segs != []
  {
    Others(base, segs, |segs| - 1) + [PacketOf(base, segs, 0)]
  }

  lemma ArrivalsExtend(base: uint32, segs: seq<Segment>, ps: seq<Packet>, order: seq<nat>, i: nat)
    requires i < |segs| && Arrivals(base, segs, ps, order)
    ensures Arrivals(base, segs, ps + [PacketOf(base, segs, i)], order + [i])
    ensures i in order + [i] && forall j | j in order :: j in order + [i]
  {
    hide SeqOf;
  }

  lemma {:induction false} OthersArrive(base: uint32, segs: seq<Segment>, j: nat) returns (order: seq<nat>)
    requires j < |segs|
    ensures Arrivals(base, segs, Others(base, segs, j), order)
    ensures forall i: nat | 1 <= i <= j :: i in order
  {
    order := [];
    if j > 0 {
      var front := OthersArrive(base, segs, j - 1);
      hide Arrivals, PacketOf;
      ArrivalsExtend(base, segs, Others(base, segs, j - 1), front, j);
      order := front + [j];
    }
  }

  lemma FirstSegmentLastDelivers(base: uint32, segs: seq<Segment>) returns (order: seq<nat>)
    requires segs != []
    ensures Delivery(base, segs, FirstSegmentLast(base, segs), order)
  {
    hide Arrivals, PacketOf, Others;
    var front := OthersArrive(base, segs, |segs| - 1);
    ArrivalsExtend(base, segs, Others(base, segs, |segs| - 1), front, 0);
    order := front + [0];
  }

  lemma RunStep(c: Conn, ps: seq<Packet>, p: Packet)
    ensures Run(c, ps + [p]) == Step(Run(c, ps), p)
  {
    assert (ps + [p])[..|ps|] == ps;
  }

  lemma OtherSegmentsPend(base: uint32, segs: seq<Segment>, early: set<nat>, c: Conn, p: Packet, i: nat)
    requires c.synReceived && Holding(base, segs, 0, early, c.stream)
    requires Carries(base, segs, p, i) && 1 <= i <= 257
    requires i in early || |early| < MAX_PENDING
    ensures Holding(base, segs, 0, early + {i}, Step(c, p).stream)
  {
    hide SeqOf, SeqAfter, Store;
    SeqOfOrder(base, segs, i, 0);
    StoreHolds(base, segs, 0, early, c.stream, i);
  }

  function UpTo(j: nat): (s: set<nat>)
    ensures forall i: nat :: i in s <==> 1 <= i <= j
  {
    if j == 0 then {} else UpTo(j - 1) + {j}
  }

  /** Nothing of segments 1 to `j` is delivered while segment 0 is missing. */
  ghost predicate AllPending(base: uint32, segs: seq<Segment>, j: nat, c: Conn) {
    && c.synReceived
    && |c.stream.pending| == j
    && Holding(base, segs, 0, UpTo(j), c.stream)
  }

  lemma OpenedHoldsNothing(base: uint32, segs: seq<Segment>, c: Conn)
    requires Opened(base, c)
    ensures AllPending(base, segs, 0, c)
  {
    assert KeysOf(base, segs, {}) == {};
    assert SeqOf(base, segs, 0) == base;
  }

  lemma {:induction false} PendingBuildsUp(base: uint32, segs: seq<Segment>, c: Conn, j: nat)
    requires Opened(base, c)
    requires j < |segs| && j <= MAX_PENDING
    ensures AllPending(base, segs, j, Run(c, Others(base, segs, j)))
  {
    if j == 0 {
      OpenedHoldsNothing(base, segs, c);
    } else {
      PendingBuildsUp(base, segs, c, j - 1);
      RunStep(c, Others(base, segs, j - 1), PacketOf(base, segs, j));
      hide AllPending, Run, Step, PacketOf, SeqOf, Opened;
      OneMorePends(base, segs, Run(c, Others(base, segs, j - 1)), j);
    }
  }

  lemma UpToStep(j: nat)
    requires j > 0
    ensures UpTo(j) == UpTo(j - 1) + {j} && j !in UpTo(j - 1)
    ensures |UpTo(j - 1)| <= j - 1
  {
    RangeSize(UpTo(j - 1), 1, j);
  }

  lemma OneMorePends(base: uint32, segs: seq<Segment>, c: Conn, j: nat)
    requires 0 < j < |segs| && j <= MAX_PENDING && AllPending(base, segs, j - 1, c)
    ensures AllPending(base, segs, j, Step(c, PacketOf(base, segs, j)))
  {
    hide SeqOf, Step, Holding, UpTo;
    UpToStep(j);
    OtherSegmentsPend(base, segs, UpTo(j - 1), c, PacketOf(base, segs, j), j);
    NewSegmentPends(base, segs, UpTo(j - 1), c, PacketOf(base, segs, j), j);
  }

  lemma NewSegmentPends(base: uint32, segs: seq<Segment>, early: set<nat>, c: Conn, p: Packet, i: nat)
    requires c.synReceived && Holding(base, segs, 0, early, c.stream)
    requires Carries(base, segs, p, i) && 1 <= i <= 257 && i !in early
    ensures Step(c, p).synReceived
    ensures |Step(c, p).stream.pending| == |c.stream.pending| + if |c.stream.pending| < MAX_PENDING then 1 else 0
    ensures |c.stream.pending| >= MAX_PENDING ==> Step(c, p).stream == c.stream
  {
    hide SeqOf, SeqAfter;
    SeqOfOrder(base, segs, i, 0);
    RoomForNewSegment(base, segs, 0, early, c.stream, i);
  }

  /** With more than 257 segments, number 257 finds the map full and its bytes are lost. */
  lemma SegmentLost(base: uint32, segs: seq<Segment>, c: Conn)
    requires Opened(base, c) && MAX_PENDING + 1 < |segs|
    ensures Run(c, Others(base, segs, MAX_PENDING + 1)).stream == Run(c, Others(base, segs, MAX_PENDING)).stream
  {
    var p := PacketOf(base, segs, MAX_PENDING + 1);
    RunStep(c, Others(base, segs, MAX_PENDING), p);
    PendingBuildsUp(base, segs, c, MAX_PENDING);
    hide Holding, Run, Step, SeqOf;
    NewSegmentPends(base, segs, UpTo(MAX_PENDING), Run(c, Others(base, segs, MAX_PENDING)), p, MAX_PENDING + 1);
  }

  lemma OneMoreSegment(base: uint32, segs: seq<Segment>, c: Conn, j: nat)
    requires 0 < j < |segs|
    ensures BytesHeld(Run(c, Others(base, segs, j)).stream)
            <= BytesHeld(Run(c, Others(base, segs, j - 1)).stream) + |segs[j]|
  {
    var p := PacketOf(base, segs, j);
    RunStep(c, Others(base, segs, j - 1), p);
    hide Run, Step, SeqOf, BytesHeld;
    StepGainsAtMost(Run(c, Others(base, segs, j - 1)), p);
  }

  lemma OpenedHoldsNoBytes(base: uint32, segs: seq<Segment>, c: Conn)
    requires Opened(base, c) && segs != []
    ensures BytesHeld(Run(c, Others(base, segs, 0)).stream) == 0
  {
    assert Run(c, []) == c;
  }

  lemma {:induction false} BytesStayShort(base: uint32, segs: seq<Segment>, c: Conn, j: nat)
    requires Opened(base, c)
    requires MAX_PENDING + 1 < |segs| && j < |segs|
    ensures BytesHeld(Run(c, Others(base, segs, j)).stream) + (if j > MAX_PENDING then 1 else 0)
            <= Start(segs, j + 1) - Start(segs, 1)
  {
    hide SeqOf, Run, BytesHeld, Start, Others, Opened;
    if j == 0 {
      OpenedHoldsNoBytes(base, segs, c);
    } else {
      BytesStayShort(base, segs, c, j - 1);
      StartStep(segs, j);
      if j == MAX_PENDING + 1 {
        SegmentLost(base, segs, c);
      } else {
        OneMoreSegment(base, segs, c, j);
      }
    }
  }

  lemma LastPacketGains(base: uint32, segs: seq<Segment>, c: Conn)
    requires segs != []
    ensures BytesHeld(Run(c, FirstSegmentLast(base, segs)).stream)
            <= BytesHeld(Run(c, Others(base, segs, |segs| - 1)).stream) + |segs[0]|
  {
    var p := PacketOf(base, segs, 0);
    RunStep(c, Others(base, segs, |segs| - 1), p);
    hide Run, Step, SeqOf, BytesHeld;
    StepGainsAtMost(Run(c, Others(base, segs, |segs| - 1)), p);
  }

  lemma TooManySegmentsFail(base: uint32, segs: seq<Segment>, c: Conn)
    requires Opened(base, c) && |segs| > MAX_PENDING + 1
    ensures !Complete(segs, Run(c, FirstSegmentLast(base, segs)))
  {
    hide Run, Concat, Others, Start, Opened, Leftover, FirstSegmentLast;
    BytesStayShort(base, segs, c, |segs| - 1);
    LastPacketGains(base, segs, c);
    FirstStart(segs);
  }

  lemma FirstStart(segs: seq<Segment>)
    requires segs != []
    ensures Start(segs, 1) == |segs[0]|
    ensures Start(segs, |segs|) == |Concat(segs)|
  {
    StartStep(segs, 0);
    assert Concat(segs[..0]) == [];
    assert segs[..|segs|] == segs;
  }

  lemma HoldsNothingDelivered(base: uint32, segs: seq<Segment>, early: set<nat>, s: Stream)
    requires Holding(base, segs, 0, early, s)
    ensures s.payload == [] && s.expected == SeqOf(base, segs, 0)
  {
    hide SeqOf;
  }

  lemma DueSegmentDelivered(base: uint32, segs: seq<Segment>, c: Conn, p: Packet)
    requires c.synReceived && c.stream.payload == [] && c.stream.expected == SeqOf(base, segs, 0)
    requires Carries(base, segs, p, 0)
    requires Blocked(Append(c.stream, segs[0]))
    ensures Step(c, p).stream == Append(c.stream, segs[0])
  {
    hide SeqOf, Append, Blocked, Start;
  }

  /** The wrapped keys come first in raw order and hide the segment that is due: only segment 0 is delivered. */
  lemma StraddlingFails(base: uint32, segs: seq<Segment>, c: Conn)
    requires Opened(base, c) && |segs| <= MAX_PENDING + 1 && Straddles(base, segs)
    ensures Run(c, FirstSegmentLast(base, segs)).stream.payload == segs[0]
    ensures !Complete(segs, Run(c, FirstSegmentLast(base, segs)))
  {
    assert |segs| >= 3;
    hide Run, Step, Holding, SeqOf, Start, Concat, Straddles, Blocked;
    var n := |segs|;
    var p := PacketOf(base, segs, 0);
    PendingBuildsUp(base, segs, c, n - 1);
    var d := Run(c, Others(base, segs, n - 1));
    RunStep(c, Others(base, segs, n - 1), p);
    AppendNext(base, segs, 0, UpTo(n - 1), d.stream);
    WrappedKeyBlocks(base, segs, UpTo(n - 1), Append(d.stream, segs[0]));
    HoldsNothingDelivered(base, segs, UpTo(n - 1), d.stream);
    DueSegmentDelivered(base, segs, d, p);
    StartsIncrease(segs, 1, n);
    FirstStart(segs);
  }

  lemma LastKeyWrapped(base: uint32, segs: seq<Segment>)
    requires |segs| <= MAX_PENDING + 1 && Straddles(base, segs)
    ensures SeqOf(base, segs, |segs| - 1) < SeqOf(base, segs, 1)
  {
    hide Concat;
    StartsIncrease(segs, 0, |segs| - 1);
    StartsIncrease(segs, 0, 1);
  }

  lemma WrappedKeyBlocks(base: uint32, segs: seq<Segment>, early: set<nat>, s: Stream)
    requires |segs| <= MAX_PENDING + 1 && Straddles(base, segs)
    requires Holding(base, segs, 1, early, s) && |segs| - 1 in early
    ensures Blocked(s)
  {
    var n := |segs|;
    hide Concat, SeqAfter;
    LastKeyWrapped(base, segs);
    hide SeqOf, Start, Straddles;
    assert SeqOf(base, segs, n - 1) in s.pending;
    var key := FirstKey(s.pending.Keys);
    assert key in KeysOf(base, segs, early);
    var i :| i in early && key == SeqOf(base, segs, i);
    SeqOfOrder(base, segs, i, 1);
  }

  // ---------------------------------------------------------------- the exact condition

  /** Reassembly completeness, exactly. After the SYN, every order and repetition of a stream's
      segments (at least once each, captured whole, no sweep in between) ends with the whole stream
      delivered and nothing pending, if and only if there are at most 257 segments and segments 1
      to last start on one side of the 2^32 wrap. Outside these limits, sending segment 0 last fails. */
  lemma CompletenessExactly(base: uint32, segs: seq<Segment>, c: Conn)
    requires Opened(base, c)
    ensures (forall ps, order | Delivery(base, segs, ps, order) :: Complete(segs, Run(c, ps)))
            <==> WithinLimits(base, segs)
  {
    if WithinLimits(base, segs) {
      forall ps, order | Delivery(base, segs, ps, order)
        ensures Complete(segs, Run(c, ps))
      {
        DeliveryCompletes(base, segs, ps, order, c);
      }
    } else {
      var order := FirstSegmentLastDelivers(base, segs);
      if |segs| > MAX_PENDING + 1 {
        TooManySegmentsFail(base, segs, c);
      } else {
        StraddlingFails(base, segs, c);
      }
    }
  }

  /** Three 8-byte segments across the wrap, the first sent last: only 8 of 24 bytes are delivered. */
  lemma StallAtTheWrap(a: Segment, b: Segment, d: Segment, c: Conn)
    requires |a| == |b| == |d| == 8
    requires Opened(0xFFFF_FFF0, c)
    ensures Run(c, FirstSegmentLast(0xFFFF_FFF0, [a, b, d])).stream.payload == a
    ensures Concat([a, b, d]) == a + b + d
  {
    var segs := [a, b, d];
    StartStep(segs, 0);
    StartStep(segs, 1);
    assert Concat(segs[..0]) == [];
    StraddlingFails(0xFFFF_FFF0, segs, c);
  }
}
