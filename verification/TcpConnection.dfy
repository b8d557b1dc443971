/** One direction of a TCP connection: reassembly state and the effect of one packet on it. */
module TcpConnection {
  import opened SerialNumbers
  import opened Bytes

  /** The 16-bit IP total length less the two minimal 20-byte headers. */
  const MAX_SEGMENT: nat := 65495
  const MAX_PENDING: nat := 256

  type Segment = s: seq<byte> | 0 < |s| <= MAX_SEGMENT witness [0]

  /** A capture may cut a packet short; the IP header still reports the true length. */
  datatype RawPayload = Captured(bytes: seq<byte>) | Truncated(length: nat) {
    function Length(): nat {
      match this
      case Captured(bytes) => |bytes|
      case Truncated(length) => length
    }
  }

  type Payload = p: RawPayload | p.Length() <= MAX_SEGMENT witness Truncated(0)

  datatype Packet = Packet(syn: bool, rst: bool, fin: bool, seqNum: uint32, payload: Payload, time: real) {
    predicate CarriesData() {
      !syn && payload.Captured? && payload.bytes != []
    }
  }

  /** The reassembly buffers: in-order payload, next expected number, segments received early. */
  datatype Stream = Stream(expected: uint32, pending: map<uint32, Segment>, payload: seq<byte>)

  datatype Stats = Stats(lastTime: real, interArrivalSum: real, count: nat, lengthSum: nat, lengthSqSum: nat)

  datatype Conn = Conn(stream: Stream, synReceived: bool, finReceived: bool, stats: Stats)

  const FRESH: Conn := Conn(Stream(0, map[], []), false, false, Stats(0.0, 0.0, 0, 0, 0))

  // ---------------------------------------------------------------- statistics

  function Square32(n: nat): uint32 {
    (n * n) % MODULUS
  }

  function CountPacket(s: Stats, length: nat, now: real): Stats {
    Stats(now,
          if s.count > 0 then s.interArrivalSum + (now - s.lastTime) else s.interArrivalSum,
          s.count + 1,
          s.lengthSum + length,
          s.lengthSqSum + Square32(length))
  }

  // ---------------------------------------------------------------- overlap check

  /** How many bytes of `data`, placed `rel` bytes into the payload, fall on bytes already there. */
  function OverlapBytes(payload: seq<byte>, rel: int, data: seq<byte>): nat {
    if data == [] then 0
    else
      var i := |data| - 1;
      OverlapBytes(payload, rel, data[..i]) + (if 0 <= rel + i < |payload| then 1 else 0)
  }

  /** How many of those differ from what is already there. */
  function ConflictBytes(payload: seq<byte>, rel: int, data: seq<byte>): nat {
    if data == [] then 0
    else
      var i := |data| - 1;
      ConflictBytes(payload, rel, data[..i])
      + (if 0 <= rel + i < |payload| && payload[rel + i] != data[i] then 1 else 0)
  }

  /** Where `seqNum` falls relative to the first payload byte, as a signed distance. */
  function RelativePosition(s: Stream, seqNum: uint32): int {
    ToInt32(Sub32(seqNum, Add32(s.expected, -|s.payload|)))
  }

  predicate Conflicts(s: Stream, seqNum: uint32, data: Segment) {
    && s.payload != []
    && s.pending == map[]
    && OverlapBytes(s.payload, RelativePosition(s, seqNum), data) >= 8
    && ConflictBytes(s.payload, RelativePosition(s, seqNum), data) >= 4
  }

  // ---------------------------------------------------------------- delivery

  predicate IsMin(k: uint32, keys: set<uint32>) {
    k in keys && forall j | j in keys :: k <= j
  }

  lemma {:induction false} MinExists(keys: set<uint32>)
    requires keys != {}
    ensures exists k :: IsMin(k, keys)
  {
    var k :| k in keys;
    if keys - {k} == {} {
      assert keys == {k};
      assert IsMin(k, keys);
    } else {
      MinExists(keys - {k});
      var j :| IsMin(j, keys - {k});
      assert keys == (keys - {k}) + {k};
      assert IsMin(if j < k then j else k, keys);
    }
  }

  /** The first key of an ordered map: entries are visited by raw 32-bit value. */
  function FirstKey(keys: set<uint32>): (k: uint32)
    requires keys != {}
    ensures IsMin(k, keys)
  {
    MinExists(keys);
    var k :| IsMin(k, keys);
    k
  }

  /** A pending segment that starts at or before `expected` and ends after it holds the next byte. */
  lemma DrainOffsetInRange(expected: uint32, key: uint32, segment: Segment)
    requires !SeqAfter(key, expected)
    requires SeqAfter(Add32(key, |segment|), expected)
    ensures Sub32(expected, key) < |segment|
  {
  }

  function Without(pending: map<uint32, Segment>, key: uint32): (rest: map<uint32, Segment>)
    requires key in pending
    ensures |rest| < |pending|
  {
    var rest := pending - {key};
    assert rest.Keys == pending.Keys - {key};
    assert |rest| == |rest.Keys|;
    rest
  }

  predicate Blocked(s: Stream) {
    s.pending == map[] || SeqAfter(FirstKey(s.pending.Keys), s.expected)
  }

  /** Takes the first pending segment out, appending the part of it that is new. */
  function DrainFirst(s: Stream): Stream
    requires !Blocked(s)
  {
    var key := FirstKey(s.pending.Keys);
    var segment := s.pending[key];
    var rest := Without(s.pending, key);
    if SeqAfter(Add32(key, |segment|), s.expected) then
      DrainOffsetInRange(s.expected, key, segment);
      var offset := Sub32(s.expected, key);
      Stream(Add32(s.expected, |segment| - offset), rest, s.payload + segment[offset..])
    else
      s.(pending := rest)
  }

  /** Moves pending segments into the payload, lowest raw key first, until one lies beyond a gap. */
  function Drain(s: Stream): Stream
    decreases |s.pending|
  {
    if Blocked(s) then s else Drain(DrainFirst(s))
  }

  function Store(s: Stream, seqNum: uint32, data: Segment): Stream {
    if |s.pending| < MAX_PENDING && seqNum !in s.pending
    then s.(pending := s.pending[seqNum := data])
    else s
  }

  function Append(s: Stream, data: Segment): Stream {
    s.(payload := s.payload + data, expected := Add32(s.expected, |data|))
  }

  function Deliver(s: Stream, seqNum: uint32, data: Segment): Stream {
    if seqNum == s.expected then Drain(Append(s, data))
    else if SeqAfter(seqNum, s.expected) then Store(s, seqNum, data)
    else s
  }

  /** Without a SYN, the first data packet fixes the baseline. */
  function Rebase(s: Stream, synReceived: bool, seqNum: uint32): Stream {
    if !synReceived && s.payload == [] && s.pending == map[]
    then s.(expected := seqNum)
    else s
  }

  function Accept(s: Stream, synReceived: bool, seqNum: uint32, data: Segment): Stream {
    var r := Rebase(s, synReceived, seqNum);
    if Conflicts(r, seqNum, data) then r else Deliver(r, seqNum, data)
  }

  /** The effect of one packet on the reassembly buffers. */
  function StreamStep(c: Conn, p: Packet): Stream {
    if p.syn then c.stream.(expected := Add32(p.seqNum, 1))
    else if p.CarriesData() then Accept(c.stream, c.synReceived, p.seqNum, p.payload.bytes)
    else c.stream
  }

  function Step(c: Conn, p: Packet): Conn {
    Conn(StreamStep(c, p),
         c.synReceived || p.syn,
         c.finReceived || (!p.syn && (p.rst || p.fin)),
         CountPacket(c.stats, p.payload.Length(), p.time))
  }

  /** Whether the packet is reported as an overlapping-segment evasion attempt. */
  predicate RaisesEvasion(c: Conn, p: Packet) {
    p.CarriesData() && Conflicts(Rebase(c.stream, c.synReceived, p.seqNum), p.seqNum, p.payload.bytes)
  }

  function Run(c: Conn, ps: seq<Packet>): Conn {
    if ps == [] then c else Step(Run(c, ps[..|ps| - 1]), ps[|ps| - 1])
  }

  // ---------------------------------------------------------------- the mutable state

  class ConnectionState {
    var expectedSeq: uint32
    var outOfOrderSegments: map<uint32, Segment>
    var payload: seq<byte>
    var synReceived: bool
    var finReceived: bool
    var lastPacketTime: real
    var interArrivalSum: real
    var packetCount: nat
    var lengthSum: nat
    var lengthSqSum: nat

    function Buffers(): Stream
      reads this
    {
      Stream(expectedSeq, outOfOrderSegments, payload)
    }

    function View(): Conn
      reads this
    {
      Conn(Buffers(), synReceived, finReceived,
           Stats(lastPacketTime, interArrivalSum, packetCount, lengthSum, lengthSqSum))
    }

    constructor ()
      ensures View() == FRESH
    {
      expectedSeq, outOfOrderSegments, payload := 0, map[], [];
      synReceived, finReceived := false, false;
      lastPacketTime, interArrivalSum := 0.0, 0.0;
      packetCount, lengthSum, lengthSqSum := 0, 0, 0;
    }

    constructor Resume(c: Conn)
      ensures View() == c
    {
      expectedSeq, outOfOrderSegments, payload := c.stream.expected, c.stream.pending, c.stream.payload;
      synReceived, finReceived := c.synReceived, c.finReceived;
      lastPacketTime, interArrivalSum := c.stats.lastTime, c.stats.interArrivalSum;
      packetCount, lengthSum, lengthSqSum := c.stats.count, c.stats.lengthSum, c.stats.lengthSqSum;
    }

    /** Counts overlapping and differing bytes of a segment against the payload. */
    method CompareOverlap(rel: int, data: seq<byte>) returns (compared: nat, conflicting: nat)
      ensures compared == OverlapBytes(payload, rel, data)
      ensures conflicting == ConflictBytes(payload, rel, data)
    {
      compared, conflicting := 0, 0;
      for i := 0 to |data|
        invariant compared == OverlapBytes(payload, rel, data[..i])
        invariant conflicting == ConflictBytes(payload, rel, data[..i])
      {
        assert data[..i + 1][..i] == data[..i];
        var pos := rel + i;
        if 0 <= pos < |payload| {
          compared := compared + 1;
          if payload[pos] != data[i] {
            conflicting := conflicting + 1;
          }
        }
      }
      assert data[..|data|] == data;
    }

    method DrainPending()
      modifies `expectedSeq, `outOfOrderSegments, `payload
      ensures Buffers() == Drain(old(Buffers()))
    {
      while outOfOrderSegments != map[]
        invariant Drain(Buffers()) == Drain(old(Buffers()))
        decreases |outOfOrderSegments|
      {
        var key := FirstKey(outOfOrderSegments.Keys);
        if SeqAfter(key, expectedSeq) {
          break;
        }
        ghost var before := Buffers();
        var segment := outOfOrderSegments[key];
        if SeqAfter(Add32(key, |segment|), expectedSeq) {
          DrainOffsetInRange(expectedSeq, key, segment);
          var offset := Sub32(expectedSeq, key);
          payload := payload + segment[offset..];
          expectedSeq := Add32(expectedSeq, |segment| - offset);
        }
        outOfOrderSegments := Without(outOfOrderSegments, key);
        assert Buffers() == DrainFirst(before);
      }
    }

    method AcceptData(seqNum: uint32, data: Segment) returns (evasion: bool)
      modifies `expectedSeq, `outOfOrderSegments, `payload
      ensures Buffers() == Accept(old(Buffers()), synReceived, seqNum, data)
      ensures evasion == Conflicts(Rebase(old(Buffers()), synReceived, seqNum), seqNum, data)
    {
      if !synReceived && payload == [] && outOfOrderSegments == map[] {
        expectedSeq := seqNum;
      }
      evasion := false;
      if payload != [] && outOfOrderSegments == map[] {
        var streamStart := Add32(expectedSeq, -|payload|);
        var rel := ToInt32(Sub32(seqNum, streamStart));
        var compared, conflicting := CompareOverlap(rel, data);
        if compared >= 8 && conflicting >= 4 {
          evasion := true;
          return;
        }
      }
      if seqNum == expectedSeq {
        payload := payload + data;
        expectedSeq := Add32(expectedSeq, |data|);
        DrainPending();
      } else if SeqAfter(seqNum, expectedSeq) {
        if |outOfOrderSegments| < MAX_PENDING && seqNum !in outOfOrderSegments {
          outOfOrderSegments := outOfOrderSegments[seqNum := data];
        }
      }
    }

    method Record(length: nat, now: real)
      modifies `interArrivalSum, `lastPacketTime, `packetCount, `lengthSum, `lengthSqSum
      ensures View().stats == CountPacket(old(View().stats), length, now)
    {
      if packetCount > 0 {
        interArrivalSum := interArrivalSum + (now - lastPacketTime);
      }
      lastPacketTime := now;
      packetCount := packetCount + 1;
      lengthSum := lengthSum + length;
      lengthSqSum := lengthSqSum + Square32(length);
    }

    method OnPacket(p: Packet) returns (evasion: bool)
      modifies this
      ensures View() == Step(old(View()), p)
      ensures evasion == RaisesEvasion(old(View()), p)
    {
      Record(p.payload.Length(), p.time);
      evasion := false;
      if p.syn {
        synReceived := true;
        expectedSeq := Add32(p.seqNum, 1);
        return;
      }
      if p.rst {
        finReceived := true;
      }
      if p.payload.Captured? && p.payload.bytes != [] {
        evasion := AcceptData(p.seqNum, p.payload.bytes);
      }
      if p.fin {
        finReceived := true;
      }
    }

    /** Appends whatever is still pending, by raw key, ignoring gaps; used when a flow is emitted. */
    method MergeRemaining()
      modifies `outOfOrderSegments, `payload
      ensures payload == old(payload) + Leftover(old(outOfOrderSegments))
      ensures outOfOrderSegments == map[]
    {
      hide Leftover, FirstKey, Without;
      NothingLeftOver();
      while outOfOrderSegments != map[]
        invariant payload + Leftover(outOfOrderSegments) == old(payload) + Leftover(old(outOfOrderSegments))
        decreases |outOfOrderSegments|
      {
        var key := FirstKey(outOfOrderSegments.Keys);
        LeftoverFirst(payload, outOfOrderSegments);
        payload := payload + outOfOrderSegments[key];
        outOfOrderSegments := Without(outOfOrderSegments, key);
      }
    }
  }

  lemma LeftoverFirst(payload: seq<byte>, pending: map<uint32, Segment>)
    requires pending != map[]
    ensures var key := FirstKey(pending.Keys);
            && |Without(pending, key)| < |pending|
            && payload + Leftover(pending) == payload + pending[key] + Leftover(Without(pending, key))
  {
    var key := FirstKey(pending.Keys);
    assert Leftover(pending) == pending[key] + Leftover(Without(pending, key));
  }

  lemma NothingLeftOver()
    ensures Leftover(map[]) == []
  {
  }

  /** Pending segments concatenated in raw key order. */
  function Leftover(pending: map<uint32, Segment>): seq<byte>
    decreases |pending|
  {
    if pending == map[] then []
    else
      var key := FirstKey(pending.Keys);
      pending[key] + Leftover(Without(pending, key))
  }
}
