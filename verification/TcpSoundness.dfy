/** What the reassembled payload can be when packets carry slices of one stream. */
module TcpSoundness {
  import opened SerialNumbers
  import opened Bytes
  import opened TcpConnection
  import opened TcpFirstSeen

  // ---------------------------------------------------------------- slices of one stream

  /** `data` is the part of `stream` starting at offset `o`, correctly numbered from `base`. */
  predicate SliceAt(stream: seq<byte>, base: uint32, o: int, seqNum: uint32, data: seq<byte>) {
    && 0 <= o
    && o + |data| <= |stream|
    && seqNum == Add32(base, o)
    && data == stream[o..o + |data|]
  }

  ghost predicate FromStream(stream: seq<byte>, base: uint32, pending: map<uint32, Segment>) {
    forall k | k in pending :: exists o :: SliceAt(stream, base, o, k, pending[k])
  }

  /** The payload is the stream from `start` on, and `expected` is the number of the byte after it. */
  ghost predicate Aligned(stream: seq<byte>, base: uint32, start: nat, s: Stream) {
    && start + |s.payload| <= |stream|
    && s.payload == stream[start..start + |s.payload|]
    && s.expected == Add32(base, start + |s.payload|)
    && FromStream(stream, base, s.pending)
  }

  lemma AppendSlice(stream: seq<byte>, start: nat, mid: nat, end: nat)
    requires start <= mid <= end <= |stream|
    ensures stream[start..mid] + stream[mid..end] == stream[start..end]
  {
  }

  /** Offsets decide what the first pending segment contributes. */
  lemma PendingSlice(stream: seq<byte>, base: uint32, e: nat, key: uint32, segment: Segment, o: nat)
    requires |stream| < HALF && e <= |stream|
    requires SliceAt(stream, base, o, key, segment)
    ensures SeqAfter(key, Add32(base, e)) <==> o > e
    ensures SeqAfter(Add32(key, |segment|), Add32(base, e)) <==> o + |segment| > e
    ensures o <= e ==> Sub32(Add32(base, e), key) == e - o
  {
    SeqAfterIsOffsetOrder(base, o, e);
    AddOffsets(base, o, |segment|);
    SeqAfterIsOffsetOrder(base, o + |segment|, e);
    if o <= e {
      SubOffsets(base, e, o);
    }
  }

  lemma DrainFirstOfSlice(stream: seq<byte>, base: uint32, e: nat, s: Stream, o: nat)
    requires |stream| < HALF && e <= |stream| && s.expected == Add32(base, e) && !Blocked(s)
    requires SliceAt(stream, base, o, FirstKey(s.pending.Keys), s.pending[FirstKey(s.pending.Keys)])
    ensures var key := FirstKey(s.pending.Keys);
            var end := o + |s.pending[key]|;
            DrainFirst(s) == if end > e
                             then Stream(Add32(base, end), Without(s.pending, key), s.payload + stream[e..end])
                             else s.(pending := Without(s.pending, key))
  {
    var key := FirstKey(s.pending.Keys);
    var segment := s.pending[key];
    PendingSlice(stream, base, e, key, segment, o);
    hide Add32, Sub32, SeqAfter;
    if o + |segment| > e {
      assert segment[e - o..] == stream[e..o + |segment|];
      AddOffsets(base, e, |segment| - (e - o));
    }
  }

  lemma WithoutIsFromStream(stream: seq<byte>, base: uint32, pending: map<uint32, Segment>, key: uint32)
    requires FromStream(stream, base, pending) && key in pending
    ensures FromStream(stream, base, Without(pending, key))
  {
    hide SliceAt;
  }

  lemma AlignedAppend(stream: seq<byte>, base: uint32, start: nat, s: Stream, end: nat,
                      pending: map<uint32, Segment>)
    requires Aligned(stream, base, start, s) && start + |s.payload| <= end <= |stream|
    requires FromStream(stream, base, pending)
    ensures Aligned(stream, base, start,
                    Stream(Add32(base, end), pending, s.payload + stream[start + |s.payload|..end]))
  {
    hide Add32, FromStream;
    AppendSlice(stream, start, start + |s.payload|, end);
    assert start + |s.payload + stream[start + |s.payload|..end]| == end;
  }

  lemma AlignedWithout(stream: seq<byte>, base: uint32, start: nat, s: Stream, pending: map<uint32, Segment>)
    requires Aligned(stream, base, start, s) && FromStream(stream, base, pending)
    ensures Aligned(stream, base, start, s.(pending := pending))
  {
    hide Add32, FromStream;
  }

  lemma DrainFirstKeepsAlignment(stream: seq<byte>, base: uint32, start: nat, s: Stream, o: nat)
    requires |stream| < HALF
    requires Aligned(stream, base, start, s) && !Blocked(s) && s.pending != map[]
    requires SliceAt(stream, base, o, FirstKey(s.pending.Keys), s.pending[FirstKey(s.pending.Keys)])
    ensures Aligned(stream, base, start, DrainFirst(s))
  {
    var key := FirstKey(s.pending.Keys);
    var e := start + |s.payload|;
    var end := o + |s.pending[key]|;
    assert s.expected == Add32(base, e) && e <= |stream| && end <= |stream|;
    hide Add32, SeqAfter, Blocked, DrainFirst, SliceAt, FirstKey;
    WithoutIsFromStream(stream, base, s.pending, key);
    hide FromStream, Aligned, Without;
    DrainFirstOfSlice(stream, base, e, s, o);
    if end > e {
      AlignedAppend(stream, base, start, s, end, Without(s.pending, key));
    } else {
      AlignedWithout(stream, base, start, s, Without(s.pending, key));
    }
  }

  lemma {:induction false} DrainKeepsAlignment(stream: seq<byte>, base: uint32, start: nat, s: Stream)
    requires |stream| < HALF
    requires Aligned(stream, base, start, s)
    ensures Aligned(stream, base, start, Drain(s))
    decreases |s.pending|
  {
    if !Blocked(s) {
      var key := FirstKey(s.pending.Keys);
      var o :| SliceAt(stream, base, o, key, s.pending[key]);
      assert o >= 0;
      hide Add32, SeqAfter, SliceAt, DrainFirst, Aligned;
      DrainFirstKeepsAlignment(stream, base, start, s, o);
      DrainFirstKeepsFirstSeen(s);
      DrainKeepsAlignment(stream, base, start, DrainFirst(s));
    }
  }

  lemma AppendKeepsAlignment(stream: seq<byte>, base: uint32, start: nat, s: Stream, data: Segment)
    requires Aligned(stream, base, start, s)
    requires SliceAt(stream, base, start + |s.payload|, s.expected, data)
    ensures Aligned(stream, base, start, Append(s, data))
  {
    hide Add32, FromStream;
    var e := start + |s.payload|;
    AppendSlice(stream, start, e, e + |data|);
    AddOffsets(base, e, |data|);
  }

  lemma StoreKeepsAlignment(stream: seq<byte>, base: uint32, start: nat, s: Stream,
                            seqNum: uint32, data: Segment, o: nat)
    requires Aligned(stream, base, start, s) && SliceAt(stream, base, o, seqNum, data)
    ensures Aligned(stream, base, start, Store(s, seqNum, data))
  {
    hide Add32, SliceAt;
  }

  lemma DeliverKeepsAlignment(stream: seq<byte>, base: uint32, start: nat, s: Stream,
                              seqNum: uint32, data: Segment, o: nat)
    requires |stream| < HALF
    requires Aligned(stream, base, start, s) && SliceAt(stream, base, o, seqNum, data)
    ensures Aligned(stream, base, start, Deliver(s, seqNum, data))
  {
    var e := start + |s.payload|;
    assert s.expected == Add32(base, e) && seqNum == Add32(base, o) && e <= |stream| && o <= |stream|;
    hide Add32, SeqAfter, Drain, Aligned, SliceAt, Append, Store;
    SeqAfterIsOffsetOrder(base, o, e);
    if seqNum == s.expected {
      AppendKeepsAlignment(stream, base, start, s, data);
      DrainKeepsAlignment(stream, base, start, Append(s, data));
    } else if SeqAfter(seqNum, s.expected) {
      StoreKeepsAlignment(stream, base, start, s, seqNum, data, o);
    }
  }

  lemma {:induction false} AgreementMeansNoConflict(payload: seq<byte>, rel: int, data: seq<byte>)
    requires forall i | 0 <= i < |data| && 0 <= rel + i < |payload| :: payload[rel + i] == data[i]
    ensures ConflictBytes(payload, rel, data) == 0
  {
    if data != [] {
      AgreementMeansNoConflict(payload, rel, data[..|data| - 1]);
    }
  }

  lemma RelativePositionIsDistance(base: uint32, start: nat, size: nat, o: int, s: Stream, seqNum: uint32)
    requires |s.payload| == size && s.expected == Add32(base, start + size) && seqNum == Add32(base, o)
    requires -HALF <= o - start < HALF
    ensures RelativePosition(s, seqNum) == o - start
  {
    AddOffsets(base, start + size, 0 - size);
    SignedDistance(base, o, start);
  }

  lemma SignedDistance(base: uint32, x: int, y: int)
    requires -HALF <= x - y < HALF
    ensures ToInt32(Sub32(Add32(base, x), Add32(base, y))) == x - y
  {
  }

  lemma SlicesNeverConflict(stream: seq<byte>, base: uint32, start: nat, s: Stream,
                            seqNum: uint32, data: Segment, o: nat)
    requires |stream| < HALF
    requires Aligned(stream, base, start, s) && SliceAt(stream, base, o, seqNum, data)
    ensures !Conflicts(s, seqNum, data)
  {
    RelativePositionIsDistance(base, start, |s.payload|, o, s, seqNum);
    hide RelativePosition;
    AgreementMeansNoConflict(s.payload, o - start, data);
  }

  // ---------------------------------------------------------------- whole runs

  /** A connection with nothing seen yet, or one aligned at `start` (0 after a SYN). */
  ghost predicate Sound(stream: seq<byte>, base: uint32, start: nat, c: Conn) {
    || (!c.synReceived && c.stream.payload == [] && c.stream.pending == map[])
    || (Aligned(stream, base, start, c.stream) && if c.synReceived then start == 0 else c.stream.payload != [])
  }

  /** Data packets are slices of the stream (`o` is where); a SYN announces its first byte and
      comes before any byte was delivered. */
  ghost predicate Admissible(stream: seq<byte>, base: uint32, c: Conn, p: Packet, o: nat) {
    && (p.syn ==> Add32(p.seqNum, 1) == base && c.stream.payload == [])
    && (p.CarriesData() ==> SliceAt(stream, base, o, p.seqNum, p.payload.bytes))
  }

  lemma StepKeepsSound(stream: seq<byte>, base: uint32, start: nat, c: Conn, p: Packet, o: nat)
    returns (start': nat)
    requires |stream| < HALF
    requires Sound(stream, base, start, c) && Admissible(stream, base, c, p, o)
    ensures Sound(stream, base, start', Step(c, p)) && !RaisesEvasion(c, p)
    ensures c.stream.payload != [] ==> start' == start
    ensures c.stream.payload == [] && !c.synReceived && p.CarriesData() ==> start' == o
    ensures Step(c, p).synReceived <==> c.synReceived || p.syn
    ensures !Step(c, p).synReceived && p.CarriesData() ==> Step(c, p).stream.payload != []
    ensures !p.CarriesData() ==> Step(c, p).stream.payload == c.stream.payload
  {
    start' := start;
    if p.syn {
      start' := 0;
    } else if p.CarriesData() {
      var r := Rebase(c.stream, c.synReceived, p.seqNum);
      if c.stream.payload == [] && !c.synReceived {
        start' := o;
      }
      assert Aligned(stream, base, start', r);
      SlicesNeverConflict(stream, base, start', r, p.seqNum, p.payload.bytes, o);
      DeliverKeepsAlignment(stream, base, start', r, p.seqNum, p.payload.bytes, o);
      DeliverGrows(r, p.seqNum, p.payload.bytes);
    }
  }

  lemma DeliverGrows(s: Stream, seqNum: uint32, data: Segment)
    ensures s.payload <= Deliver(s, seqNum, data).payload
    ensures seqNum == s.expected ==> Deliver(s, seqNum, data).payload != []
  {
    if seqNum == s.expected {
      DrainKeepsFirstSeen(Append(s, data));
    }
  }

  ghost predicate AdmissibleRun(stream: seq<byte>, base: uint32, ps: seq<Packet>, offsets: seq<nat>) {
    && |offsets| == |ps|
    && forall i | 0 <= i < |ps| :: Admissible(stream, base, Run(FRESH, ps[..i]), ps[i], offsets[i])
  }

  /** The offset of the first data packet, where mid-stream capture begins. */
  function FirstOffset(ps: seq<Packet>, offsets: seq<nat>): nat
    requires |ps| == |offsets|
  {
    if ps == [] then 0
    else if ps[0].CarriesData() then offsets[0]
    else FirstOffset(ps[1..], offsets[1..])
  }

  predicate AnyData(ps: seq<Packet>) {
    exists i | 0 <= i < |ps| :: ps[i].CarriesData()
  }

  lemma {:induction false} FirstOffsetOfExtension(ps: seq<Packet>, offsets: seq<nat>)
    requires |ps| == |offsets| > 0
    ensures var n := |ps| - 1;
            FirstOffset(ps, offsets) ==
            if AnyData(ps[..n]) then FirstOffset(ps[..n], offsets[..n])
            else if ps[n].CarriesData() then offsets[n] else 0
  {
    var n := |ps| - 1;
    if n > 0 && !ps[0].CarriesData() {
      FirstOffsetOfExtension(ps[1..], offsets[1..]);
      assert ps[1..][..n - 1] == ps[..n][1..];
      assert offsets[1..][..n - 1] == offsets[..n][1..];
      assert AnyData(ps[..n]) <==> AnyData(ps[..n][1..]) by {
        if AnyData(ps[..n]) {
          var i :| 0 <= i < n && ps[..n][i].CarriesData();
          assert ps[..n][1..][i - 1].CarriesData();
        }
        if AnyData(ps[..n][1..]) {
          var i :| 0 <= i < n - 1 && ps[..n][1..][i].CarriesData();
          assert ps[..n][i + 1].CarriesData();
        }
      }
    } else if n > 0 {
      assert ps[..n][0].CarriesData();
    }
  }

  lemma AnyDataOfExtension(ps: seq<Packet>)
    requires ps != []
    ensures AnyData(ps) <==> AnyData(ps[..|ps| - 1]) || ps[|ps| - 1].CarriesData()
  {
    var n := |ps| - 1;
    if AnyData(ps[..n]) {
      var i :| 0 <= i < n && ps[..n][i].CarriesData();
      assert ps[i].CarriesData();
    }
    if AnyData(ps) && !ps[n].CarriesData() {
      var i :| 0 <= i < |ps| && ps[i].CarriesData();
      assert ps[..n][i].CarriesData();
    }
  }

  lemma AdmissiblePrefix(stream: seq<byte>, base: uint32, ps: seq<Packet>, offsets: seq<nat>)
    requires AdmissibleRun(stream, base, ps, offsets) && ps != []
    ensures var n := |ps| - 1;
            && AdmissibleRun(stream, base, ps[..n], offsets[..n])
            && Admissible(stream, base, Run(FRESH, ps[..n]), ps[n], offsets[n])
  {
    hide Admissible, Run;
    var n := |ps| - 1;
    forall i | 0 <= i < n
      ensures Admissible(stream, base, Run(FRESH, ps[..n][..i]), ps[..n][i], offsets[..n][i])
    {
      assert ps[..n][..i] == ps[..i];
    }
  }

  ghost predicate SoundRun(stream: seq<byte>, base: uint32, ps: seq<Packet>, offsets: seq<nat>, start: nat)
    requires |ps| == |offsets|
  {
    var c := Run(FRESH, ps);
    && Sound(stream, base, start, c)
    && (!c.synReceived ==> (AnyData(ps) <==> c.stream.payload != []))
    && (!c.synReceived && AnyData(ps) ==> start == FirstOffset(ps, offsets))
  }

  lemma {:induction false} RunKeepsSound(stream: seq<byte>, base: uint32, ps: seq<Packet>, offsets: seq<nat>)
    returns (start: nat)
    requires |stream| < HALF
    requires AdmissibleRun(stream, base, ps, offsets)
    ensures SoundRun(stream, base, ps, offsets, start)
    ensures forall i | 0 <= i < |ps| :: !RaisesEvasion(Run(FRESH, ps[..i]), ps[i])
  {
    start := 0;
    if ps != [] {
      hide Sound, Admissible, AdmissibleRun, RaisesEvasion, Step, FirstOffset, AnyData;
      var n := |ps| - 1;
      AdmissiblePrefix(stream, base, ps, offsets);
      start := RunKeepsSound(stream, base, ps[..n], offsets[..n]);
      FirstOffsetOfExtension(ps, offsets);
      AnyDataOfExtension(ps);
      start := StepKeepsSound(stream, base, start, Run(FRESH, ps[..n]), ps[n], offsets[n]);
      forall i | 0 <= i < |ps|
        ensures !RaisesEvasion(Run(FRESH, ps[..i]), ps[i])
      {
        if i < n {
          assert ps[..n][i] == ps[i];
          assert ps[..n][..i] == ps[..i];
        }
      }
    }
  }

  /** Reassembly soundness, also across the 2^32 wrap. Feed a new connection overlapping slices of
      one stream shorter than 2^31 bytes, in any order and with any repetition, a SYN only before
      delivery begins. Then at the end of the run, hence at every step of a longer one, the payload
      is a prefix of the stream (from the first slice captured when no SYN was seen), the expected
      number is its end, and no packet was reported as an evasion attempt. */
  lemma ReassemblyIsSound(stream: seq<byte>, base: uint32, ps: seq<Packet>, offsets: seq<nat>)
    requires |stream| < HALF
    requires AdmissibleRun(stream, base, ps, offsets)
    ensures var c := Run(FRESH, ps);
            var start := if c.synReceived then 0 else FirstOffset(ps, offsets);
            c.synReceived || AnyData(ps) ==>
              && start <= |stream|
              && c.stream.payload <= stream[start..]
              && c.stream.expected == Add32(base, start + |c.stream.payload|)
    ensures !Run(FRESH, ps).synReceived && !AnyData(ps) ==> Run(FRESH, ps).stream.payload == []
    ensures forall i | 0 <= i < |ps| :: !RaisesEvasion(Run(FRESH, ps[..i]), ps[i])
  {
    hide Run, RaisesEvasion, AdmissibleRun, FirstOffset, AnyData, Add32, FromStream;
    var start := RunKeepsSound(stream, base, ps, offsets);
  }

  // ---------------------------------------------------------------- repeated SYN

  /** A SYN repeated on an aligned connection keeps it aligned exactly when nothing was delivered yet. */
  lemma SynKeepsAlignmentOnlyBeforeData(stream: seq<byte>, base: uint32, c: Conn, p: Packet)
    requires |stream| < HALF
    requires Aligned(stream, base, 0, c.stream)
    requires p.syn && Add32(p.seqNum, 1) == base
    ensures Aligned(stream, base, 0, Step(c, p).stream) <==> c.stream.payload == []
  {
    SeqAfterIsOffsetOrder(base, 0, |c.stream.payload|);
  }

  lemma RelativePositionBehind(s: Stream, seqNum: uint32)
    requires seqNum == s.expected && |s.payload| < HALF
    ensures RelativePosition(s, seqNum) == |s.payload|
  {
  }

  /** Afterwards the retransmitted first segment is delivered a second time, behind what is there. */
  lemma RepeatedSynDuplicatesData(stream: seq<byte>, base: uint32, c: Conn, syn: Packet, again: Packet)
    requires |stream| < HALF
    requires Aligned(stream, base, 0, c.stream) && c.stream.payload != [] && c.stream.pending == map[]
    requires syn.syn && Add32(syn.seqNum, 1) == base
    requires again.CarriesData() && SliceAt(stream, base, 0, again.seqNum, again.payload.bytes)
    ensures Step(Step(c, syn), again).stream.payload == c.stream.payload + again.payload.bytes
    ensures c.stream.payload == stream ==> !(Step(Step(c, syn), again).stream.payload <= stream)
  {
    var d := Step(c, syn);
    RelativePositionBehind(d.stream, again.seqNum);
    hide RelativePosition, SeqAfter, Add32;
    NothingBeyondTheEnd(c.stream.payload, |c.stream.payload|, again.payload.bytes);
    assert Blocked(Append(d.stream, again.payload.bytes));
  }

  lemma {:induction false} NothingBeyondTheEnd(payload: seq<byte>, rel: int, data: seq<byte>)
    requires rel >= |payload|
    ensures OverlapBytes(payload, rel, data) == 0
  {
    if data != [] {
      NothingBeyondTheEnd(payload, rel, data[..|data| - 1]);
    }
  }

  // ---------------------------------------------------------------- what a repeated SYN can lead to

  /** The same buffers behind a payload that was there before. */
  function Shifted(front: seq<byte>, s: Stream): Stream {
    s.(payload := front + s.payload)
  }

  lemma DrainFirstShifted(front: seq<byte>, s: Stream)
    requires !Blocked(s)
    ensures !Blocked(Shifted(front, s)) && DrainFirst(Shifted(front, s)) == Shifted(front, DrainFirst(s))
  {
    hide Add32, Sub32, SeqAfter, Without;
    var key := FirstKey(s.pending.Keys);
    if SeqAfter(Add32(key, |s.pending[key]|), s.expected) {
      DrainOffsetInRange(s.expected, key, s.pending[key]);
      var more := s.pending[key][Sub32(s.expected, key)..];
      assert front + (s.payload + more) == front + s.payload + more;
    }
  }

  lemma {:induction false} DrainShifted(front: seq<byte>, s: Stream)
    ensures Drain(Shifted(front, s)) == Shifted(front, Drain(s))
    decreases |s.pending|
  {
    if !Blocked(s) {
      DrainFirstShifted(front, s);
      DrainFirstKeepsFirstSeen(s);
      hide DrainFirst;
      DrainShifted(front, DrainFirst(s));
    }
  }

  /** One byte of the stream, sent again. */
  function Again(stream: seq<byte>, base: uint32, i: nat): Packet
    requires i < |stream|
  {
    Packet(false, false, false, Add32(base, i), Captured([stream[i]]), 0.0)
  }

  function Resent(stream: seq<byte>, base: uint32, k: nat): seq<Packet>
    requires k <= |stream|
  {
    if k == 0 then [] else Resent(stream, base, k - 1) + [Again(stream, base, k - 1)]
  }

  lemma OneByteNeverConflicts(s: Stream, seqNum: uint32, b: byte)
    ensures !Conflicts(s, seqNum, [b])
  {
    var rel := RelativePosition(s, seqNum);
    assert [b][..0] == [];
    assert OverlapBytes(s.payload, rel, [b][..0]) == 0;
    assert OverlapBytes(s.payload, rel, [b]) <= 1;
  }

  lemma ByteIsSlice(stream: seq<byte>, base: uint32, i: nat)
    requires i < |stream|
    ensures SliceAt(stream, base, i, Add32(base, i), [stream[i]])
  {
    assert stream[i..i + 1] == [stream[i]];
  }

  lemma ByteDelivered(stream: seq<byte>, base: uint32, front: seq<byte>, s: Stream, i: nat) returns (t: Stream)
    requires |stream| < HALF && i < |stream| && Aligned(stream, base, 0, s) && |s.payload| >= i
    ensures Deliver(Shifted(front, s), Add32(base, i), [stream[i]]) == Shifted(front, t)
    ensures Aligned(stream, base, 0, t) && |t.payload| >= i + 1
  {
    var data: Segment := [stream[i]];
    ByteIsSlice(stream, base, i);
    DeliverKeepsAlignment(stream, base, 0, s, Add32(base, i), data, i);
    SeqAfterIsOffsetOrder(base, i, |s.payload|);
    t := Deliver(s, Add32(base, i), data);
    hide Add32, SeqAfter, Drain, FromStream;
    DrainShifted(front, Append(s, data));
    DrainKeepsFirstSeen(Append(s, data));
    assert front + (s.payload + data) == front + s.payload + data;
  }

  lemma {:induction false} ResentDelivers(stream: seq<byte>, base: uint32, front: seq<byte>, c: Conn, s: Stream, k: nat)
    returns (t: Stream)
    requires |stream| < HALF && k <= |stream| && Aligned(stream, base, 0, s)
    requires c.synReceived && c.stream == Shifted(front, s)
    ensures var d := Run(c, Resent(stream, base, k)); d.synReceived && d.stream == Shifted(front, t)
    ensures Aligned(stream, base, 0, t) && |t.payload| >= k
  {
    hide Aligned, Deliver, Conflicts;
    if k == 0 {
      t := s;
    } else {
      var before, p := Resent(stream, base, k - 1), Again(stream, base, k - 1);
      var u := ResentDelivers(stream, base, front, c, s, k - 1);
      assert (before + [p])[..|before|] == before;
      OneByteNeverConflicts(Run(c, before).stream, p.seqNum, stream[k - 1]);
      t := ByteDelivered(stream, base, front, u, k - 1);
      hide Add32;
      assert Run(c, before + [p]) == Step(Run(c, before), p);
    }
  }

  /** Packets that carry slices of the stream, none of them a SYN. */
  ghost predicate SliceRun(stream: seq<byte>, base: uint32, ps: seq<Packet>, offsets: seq<nat>) {
    && |offsets| == |ps|
    && forall i | 0 <= i < |ps| ::
         !ps[i].syn && (ps[i].CarriesData() ==> SliceAt(stream, base, offsets[i], ps[i].seqNum, ps[i].payload.bytes))
  }

  lemma {:induction false} ResentIsSliceRun(stream: seq<byte>, base: uint32, k: nat) returns (offsets: seq<nat>)
    requires k <= |stream|
    ensures SliceRun(stream, base, Resent(stream, base, k), offsets)
  {
    hide Add32, SliceAt;
    if k == 0 {
      offsets := [];
    } else {
      var front := ResentIsSliceRun(stream, base, k - 1);
      ByteIsSlice(stream, base, k - 1);
      offsets := front + [k - 1];
    }
  }

  lemma {:induction false} SlicesKeepAligned(stream: seq<byte>, base: uint32, c: Conn, ps: seq<Packet>,
                                             offsets: seq<nat>)
    requires |stream| < HALF && c.synReceived && Aligned(stream, base, 0, c.stream)
    requires SliceRun(stream, base, ps, offsets)
    ensures Run(c, ps).synReceived && Aligned(stream, base, 0, Run(c, ps).stream)
  {
    hide Aligned, Deliver, Conflicts, SliceAt;
    if ps != [] {
      var n := |ps| - 1;
      SlicesKeepAligned(stream, base, c, ps[..n], offsets[..n]);
      var d, p := Run(c, ps[..n]), ps[n];
      if p.CarriesData() {
        SlicesNeverConflict(stream, base, 0, d.stream, p.seqNum, p.payload.bytes, offsets[n]);
        DeliverKeepsAlignment(stream, base, 0, d.stream, p.seqNum, p.payload.bytes, offsets[n]);
      }
    }
  }

  /** After a SYN repeated on an aligned connection the payload stays a prefix of the stream, whatever
      slices follow, exactly when the SYN found nothing delivered. */
  lemma RepeatedSynHarmlessExactly(stream: seq<byte>, base: uint32, c: Conn, syn: Packet)
    requires |stream| < HALF && Aligned(stream, base, 0, c.stream)
    requires syn.syn && Add32(syn.seqNum, 1) == base
    ensures (forall ps, offsets | SliceRun(stream, base, ps, offsets) :: Run(Step(c, syn), ps).stream.payload <= stream)
            <==> c.stream.payload == []
  {
    var d, restart := Step(c, syn), Stream(base, c.stream.pending, []);
    assert Aligned(stream, base, 0, restart);
    assert d.stream == Shifted(c.stream.payload, restart);
    hide Add32, FromStream, SliceRun, Step;
    if c.stream.payload == [] {
      assert d.stream == restart;
      forall ps, offsets | SliceRun(stream, base, ps, offsets)
        ensures Run(d, ps).stream.payload <= stream
      {
        SlicesKeepAligned(stream, base, d, ps, offsets);
      }
    } else {
      var offsets := ResentIsSliceRun(stream, base, |stream|);
      var t := ResentDelivers(stream, base, c.stream.payload, d, restart, |stream|);
      assert |Run(d, Resent(stream, base, |stream|)).stream.payload| > |stream|;
    }
  }
}
