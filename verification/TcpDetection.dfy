/** When an overlap is reported, and what one segment does, told by positions in the stream. */
module TcpDetection {
  import opened SerialNumbers
  import opened Bytes
  import opened TcpConnection
  import opened TcpSoundness

  // ---------------------------------------------------------------- counting positions

  /** Index `i` of data placed at `at` falls on one of the positions from `from` up to `to`. */
  predicate Lands(at: int, i: int, from: int, to: int) {
    from <= at + i < to
  }

  /** The indices of `data`, placed at `at`, that fall on the positions from `from` up to `to`. */
  function Covering(data: seq<byte>, at: int, from: int, to: int): set<int> {
    set i | 0 <= i < |data| && Lands(at, i, from, to)
  }

  /** Those where the stream holds something else. */
  function Differing(stream: seq<byte>, data: seq<byte>, at: int, from: nat, to: nat): set<int>
    requires to <= |stream|
  {
    set i | 0 <= i < |data| && Lands(at, i, from, to) && stream[at + i] != data[i]
  }

  lemma {:induction false} OverlapCounts(payload: seq<byte>, rel: int, data: seq<byte>)
    ensures OverlapBytes(payload, rel, data) == |Covering(data, rel, 0, |payload|)|
  {
    if data == [] {
      assert Covering(data, rel, 0, |payload|) == {};
    } else {
      var n := |data| - 1;
      OverlapCounts(payload, rel, data[..n]);
      var before := Covering(data[..n], rel, 0, |payload|);
      assert Covering(data, rel, 0, |payload|) == before + if Lands(rel, n, 0, |payload|) then {n} else {};
      assert n !in before;
    }
  }

  lemma {:induction false} ConflictCounts(payload: seq<byte>, rel: int, data: seq<byte>)
    ensures ConflictBytes(payload, rel, data) == |Differing(payload, data, rel, 0, |payload|)|
  {
    if data == [] {
      assert Differing(payload, data, rel, 0, |payload|) == {};
    } else {
      var n := |data| - 1;
      ConflictCounts(payload, rel, data[..n]);
      LastDiffers(payload, rel, data);
    }
  }

  predicate DiffersAt(payload: seq<byte>, rel: int, data: seq<byte>, i: int) {
    0 <= i < |data| && 0 <= rel + i < |payload| && payload[rel + i] != data[i]
  }

  lemma DiffersMember(payload: seq<byte>, rel: int, data: seq<byte>, i: int)
    ensures i in Differing(payload, data, rel, 0, |payload|) <==> DiffersAt(payload, rel, data, i)
  {
  }

  lemma LastDiffers(payload: seq<byte>, rel: int, data: seq<byte>)
    requires data != []
    ensures var n := |data| - 1;
            |Differing(payload, data, rel, 0, |payload|)|
            == |Differing(payload, data[..n], rel, 0, |payload|)|
               + if DiffersAt(payload, rel, data, n) then 1 else 0
  {
    hide Differing;
    var n := |data| - 1;
    var before := Differing(payload, data[..n], rel, 0, |payload|);
    var last := if DiffersAt(payload, rel, data, n) then {n} else {};
    DiffersMember(payload, rel, data[..n], n);
    var all := Differing(payload, data, rel, 0, |payload|);
    forall i
      ensures i in all <==> i in before + last
    {
      DiffersMember(payload, rel, data, i);
      DiffersMember(payload, rel, data[..n], i);
    }
    assert all == before + last;
  }

  /** Positions in the payload and positions in the stream it is a piece of. */
  lemma PositionsMoved(stream: seq<byte>, start: nat, size: nat, rel: int, data: seq<byte>)
    requires start + size <= |stream|
    ensures Covering(data, rel, 0, size) == Covering(data, start + rel, start, start + size)
    ensures Differing(stream[start..start + size], data, rel, 0, size)
            == Differing(stream, data, start + rel, start, start + size)
  {
    var payload := stream[start..start + size];
    assert forall i :: Lands(rel, i, 0, size) <==> Lands(start + rel, i, start, start + size);
    assert forall i | Lands(rel, i, 0, size) :: payload[rel + i] == stream[start + rel + i];
  }

  // ---------------------------------------------------------------- detection

  /** A captured segment with bytes in it; FIN and RST make no difference. */
  predicate HasBytes(p: Packet) {
    !p.syn && p.payload.Captured? && p.payload.bytes != []
  }

  /** The buffers hold the stream from `start` on and nothing early. */
  predicate Contiguous(stream: seq<byte>, base: uint32, start: nat, s: Stream) {
    && s.payload != [] && s.pending == map[]
    && start + |s.payload| <= |stream| && s.payload == stream[start..start + |s.payload|]
    && s.expected == Add32(base, start + |s.payload|)
  }

  /** Any data at all, numbered as offset `o` of the stream, is reported exactly when at least eight of its
      bytes fall on delivered ones and at least four of these differ from the stream; then the buffers stay
      as they are. */
  lemma ReportedExactly(stream: seq<byte>, base: uint32, start: nat, c: Conn, p: Packet, o: int)
    requires |stream| < HALF && Contiguous(stream, base, start, c.stream)
    requires HasBytes(p) && p.seqNum == Add32(base, o) && -HALF <= o - start < HALF
    ensures var end := start + |c.stream.payload|; var data := p.payload.bytes;
            RaisesEvasion(c, p) <==>
            |Covering(data, o, start, end)| >= 8 && |Differing(stream, data, o, start, end)| >= 4
    ensures RaisesEvasion(c, p) ==> Step(c, p).stream == c.stream
  {
    var s, data := c.stream, p.payload.bytes;
    RelativePositionIsDistance(base, start, |s.payload|, o, s, p.seqNum);
    hide RelativePosition, Add32, Covering, Differing, OverlapBytes, ConflictBytes, Deliver;
    OverlapCounts(s.payload, o - start, data);
    ConflictCounts(s.payload, o - start, data);
    PositionsMoved(stream, start, |s.payload|, o - start, data);
  }

  /** With segments pending, or with nothing delivered, there is no report. */
  lemma NeverReported(c: Conn, p: Packet)
    requires c.stream.pending != map[] || c.stream.payload == [] || !HasBytes(p)
    ensures !RaisesEvasion(c, p)
  {
  }

  function FirstInts(n: nat): (all: set<int>)
    ensures |all| == n && forall i :: i in all <==> 0 <= i < n
  {
    if n == 0 then {} else FirstInts(n - 1) + {n - 1}
  }

  lemma AllDiffer(stream: seq<byte>, data: seq<byte>, n: nat)
    requires n == |stream| == |data| && forall i | 0 <= i < n :: stream[i] != data[i]
    ensures |Covering(data, 0, 0, n)| == n && |Differing(stream, data, 0, 0, n)| == n
  {
    assert Covering(data, 0, 0, n) == FirstInts(n);
    assert Differing(stream, data, 0, 0, n) == FirstInts(n);
  }

  /** A delivered segment of eight bytes or more sent again with every byte changed is always reported. */
  lemma RewriteIsReported(stream: Segment, base: uint32, c: Conn, p: Packet)
    requires |stream| >= 8 && c.stream == Stream(Add32(base, |stream|), map[], stream)
    requires HasBytes(p) && p.seqNum == base && |p.payload.bytes| == |stream|
    requires forall i | 0 <= i < |stream| :: stream[i] != p.payload.bytes[i]
    ensures RaisesEvasion(c, p)
  {
    assert Add32(base, 0) == base;
    assert stream[0..|stream|] == stream;
    ReportedExactly(stream, base, 0, c, p, 0);
    AllDiffer(stream, p.payload.bytes, |stream|);
  }

  // ---------------------------------------------------------------- one segment that is not reported

  /** Packets without bytes leave the buffers alone, but for a SYN, which numbers the byte that is due. */
  lemma OthersDeliverNothing(c: Conn, p: Packet)
    requires !HasBytes(p)
    ensures Step(c, p).stream == if p.syn then c.stream.(expected := (p.seqNum + 1) % 0x1_0000_0000) else c.stream
  {
  }

  /** Without a SYN the first segment is delivered whatever its number, and fixes what is due next. */
  lemma FirstSegmentFixesBaseline(c: Conn, p: Packet)
    requires !c.synReceived && c.stream.payload == [] && c.stream.pending == map[] && HasBytes(p)
    ensures Step(c, p).stream
            == Stream((p.seqNum + |p.payload.bytes|) % 0x1_0000_0000, map[], p.payload.bytes)
  {
    hide SeqAfter;
    assert [] + p.payload.bytes == p.payload.bytes;
  }

  /** A segment that starts before the byte that is due is dropped whole, even if it ends after it. */
  lemma LateSegmentDropped(base: uint32, due: int, c: Conn, p: Packet, o: int)
    requires c.stream.payload != [] || c.stream.pending != map[] || c.synReceived
    requires HasBytes(p) && c.stream.expected == Add32(base, due) && p.seqNum == Add32(base, o)
    requires due - HALF < o < due
    ensures Step(c, p).stream == c.stream
  {
    SeqAfterIsOffsetOrder(base, o, due);
    hide Add32, SeqAfter, Conflicts;
  }

  /** One that starts after it is kept for later unless 256 are or one with its number is: the first wins. */
  lemma EarlySegmentKept(base: uint32, due: int, c: Conn, p: Packet, o: int)
    requires c.stream.payload != [] || c.stream.pending != map[] || c.synReceived
    requires HasBytes(p) && c.stream.expected == Add32(base, due) && p.seqNum == Add32(base, o)
    requires due < o < due + HALF && !RaisesEvasion(c, p)
    ensures Step(c, p).stream.payload == c.stream.payload && Step(c, p).stream.expected == c.stream.expected
    ensures Step(c, p).stream.pending ==
            if |c.stream.pending| < 256 && p.seqNum !in c.stream.pending
            then c.stream.pending[p.seqNum := p.payload.bytes] else c.stream.pending
  {
    SeqAfterIsOffsetOrder(base, o, due);
    hide Add32, SeqAfter, Conflicts;
  }

  /** One that starts with it is delivered whole, and then what was kept is looked at. */
  lemma DueSegmentDelivered(base: uint32, due: int, c: Conn, p: Packet)
    requires c.stream.payload != [] || c.stream.pending != map[] || c.synReceived
    requires HasBytes(p) && c.stream.expected == Add32(base, due) && p.seqNum == Add32(base, due)
    requires !RaisesEvasion(c, p)
    ensures Step(c, p).stream
            == Drain(Stream(Add32(base, due + |p.payload.bytes|), c.stream.pending, c.stream.payload + p.payload.bytes))
  {
    AddOffsets(base, due, |p.payload.bytes|);
    hide Add32, SeqAfter, Conflicts, Drain;
  }

  lemma LowestKey(keys: set<uint32>, k: uint32)
    requires k in keys && forall j | j in keys :: k <= j
    ensures FirstKey(keys) == k
  {
  }

  lemma NewPartFits(base: uint32, due: int, o: int, size: nat)
    requires o <= due < o + size && -HALF < o - due
    ensures Sub32(Add32(base, due), Add32(base, o)) == due - o
    ensures Add32(Add32(base, due), size - (due - o)) == Add32(base, o + size)
  {
    SubOffsets(base, due, o);
    AddOffsets(base, due, size - (due - o));
  }

  /** Kept segments are taken out from the lowest number on, as long as they do not start after the byte that
      is due; of each the part from that byte on is delivered, if it goes that far. */
  lemma KeptSegmentsTakenOut(base: uint32, due: int, s: Stream, k: uint32, o: int)
    requires s.expected == Add32(base, due) && k == Add32(base, o)
    requires k in s.pending && forall j | j in s.pending :: k <= j
    requires -HALF < o - due < HALF && -HALF < o + |s.pending[k]| - due < HALF
    ensures var segment, end := s.pending[k], o + |s.pending[k]|;
            Drain(s) ==
              if o > due then s
              else if end > due then
                Drain(Stream(Add32(base, end), s.pending - {k}, s.payload + segment[due - o..]))
              else Drain(s.(pending := s.pending - {k}))
  {
    hide Add32, Sub32, SeqAfter, Drain, DrainFirst, Blocked;
    var segment := s.pending[k];
    LowestKey(s.pending.Keys, k);
    SeqAfterIsOffsetOrder(base, o, due);
    AddOffsets(base, o, |segment|);
    SeqAfterIsOffsetOrder(base, o + |segment|, due);
    if o <= due < o + |segment| {
      NewPartFits(base, due, o, |segment|);
    }
    LowestTakenOut(s, k);
    DrainUnfolds(s);
  }

  lemma LowestTakenOut(s: Stream, k: uint32)
    requires s.pending != map[] && FirstKey(s.pending.Keys) == k
    ensures Blocked(s) <==> SeqAfter(k, s.expected)
    ensures var segment, offset := s.pending[k], Sub32(s.expected, k);
            !Blocked(s) ==>
              if SeqAfter(Add32(k, |segment|), s.expected) then
                offset < |segment| && DrainFirst(s) ==
                  Stream(Add32(s.expected, |segment| - offset), s.pending - {k}, s.payload + segment[offset..])
              else DrainFirst(s) == s.(pending := s.pending - {k})
  {
    hide Add32, Sub32, SeqAfter;
    if SeqAfter(Add32(k, |s.pending[k]|), s.expected) && !Blocked(s) {
      DrainOffsetInRange(s.expected, k, s.pending[k]);
    }
  }

  lemma DrainUnfolds(s: Stream)
    ensures Drain(s) == if Blocked(s) then s else Drain(DrainFirst(s))
    ensures s.pending == map[] ==> Drain(s) == s
  {
  }

  // ---------------------------------------------------------------- kept segments are never replaced

  lemma DrainFirstKeepsPending(s: Stream)
    requires !Blocked(s)
    ensures forall k | k in DrainFirst(s).pending :: k in s.pending && DrainFirst(s).pending[k] == s.pending[k]
    ensures |DrainFirst(s).pending| < |s.pending|
  {
    hide Add32, SeqAfter, Sub32;
    var key := FirstKey(s.pending.Keys);
    if SeqAfter(Add32(key, |s.pending[key]|), s.expected) {
      DrainOffsetInRange(s.expected, key, s.pending[key]);
    }
  }

  lemma {:induction false} DrainKeepsPending(s: Stream)
    ensures forall k | k in Drain(s).pending :: k in s.pending && Drain(s).pending[k] == s.pending[k]
    decreases |s.pending|
  {
    if !Blocked(s) {
      DrainFirstKeepsPending(s);
      hide DrainFirst;
      DrainKeepsPending(DrainFirst(s));
    }
  }

  /** Whatever arrives, a segment kept for later stays as it first came until it is taken out. */
  lemma PendingFirstSeenWins(c: Conn, p: Packet, k: uint32)
    requires k in c.stream.pending && k in Step(c, p).stream.pending
    ensures Step(c, p).stream.pending[k] == c.stream.pending[k]
  {
    if HasBytes(p) {
      var r := Rebase(c.stream, c.synReceived, p.seqNum);
      DrainKeepsPending(Append(r, p.payload.bytes));
      hide Drain, Conflicts, SeqAfter, Add32;
    }
  }
}
