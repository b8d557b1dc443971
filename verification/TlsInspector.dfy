/** Parsing a TLS ClientHello out of a reassembled payload. */
module TlsInspector {
  import opened Sequences

  type octet = x: int | 0 <= x < 0x100
  type uint16 = x: int | 0 <= x < 0x1_0000

  function U16(p: seq<octet>, pos: nat): uint16
    requires pos + 1 < |p|
  {
    p[pos] as int * 0x100 + p[pos + 1] as int
  }

  /** (v & 0x0f0f) == 0x0a0a: the low half of both bytes is 0xA. */
  predicate IsGrease(v: uint16) {
    v % 0x10 == 0xA && v / 0x100 % 0x10 == 0xA
  }

  function Keep(v: uint16): seq<uint16> {
    if IsGrease(v) then [] else [v]
  }

  // ---------------------------------------------------------------- the parser

  /** What the extension loop has collected. */
  datatype Fields = Fields(extensions: seq<uint16>, curves: seq<uint16>, formats: seq<octet>, sni: seq<octet>)

  const NO_FIELDS: Fields := Fields([], [], [], [])

  datatype Parsed =
    | NotHello
    | WithoutExtensions
    | Hello(version: uint16, ciphers: seq<uint16>, fields: Fields)

  /** The values of the loop over `length` bytes of cipher suites at `pos`. */
  function Ciphers(p: seq<octet>, pos: nat, length: nat, i: nat): seq<uint16>
    requires pos + length <= |p|
    decreases length - i
  {
    if i + 1 < length then Keep(U16(p, pos + i)) + Ciphers(p, pos, length, i + 2) else []
  }

  function Groups(body: seq<octet>, listLength: nat, i: nat): seq<uint16>
    decreases listLength - i
  {
    if i + 1 < listLength && i + 3 < |body| then Keep(U16(body, i + 2)) + Groups(body, listLength, i + 2) else []
  }

  function Formats(body: seq<octet>): seq<octet>
    requires |body| >= 1
  {
    body[1..1 + if body[0] <= |body| - 1 then body[0] else |body| - 1]
  }

  function Collect(f: Fields, kind: uint16, body: seq<octet>): Fields {
    var g := f.(extensions := f.extensions + Keep(kind));
    if kind == 0 && |body| >= 5 then
      if 5 + U16(body, 3) <= |body| then g.(sni := body[5..5 + U16(body, 3)]) else g
    else if kind == 10 && |body| >= 2 then g.(curves := g.curves + Groups(body, U16(body, 0), 0))
    else if kind == 11 && |body| >= 1 then g.(formats := g.formats + Formats(body))
    else g
  }

  /** The extension loop over the extension block. */
  function Extensions(block: seq<octet>, f: Fields): Fields
    decreases |block|
  {
    if |block| < 4 || 4 + U16(block, 2) > |block| then f
    else
      var length: nat := U16(block, 2);
      Extensions(block[4 + length..], Collect(f, U16(block, 0), block[4..4 + length]))
  }

  /** Where the session id's length byte sits: record header, handshake header, version, random. */
  const SESSION_ID: nat := 43

  function Parse(p: seq<octet>): Parsed {
    if |p| < 9 || p[0] != 0x16 || p[5] != 0x01 || |p| <= SESSION_ID then NotHello
    else
      var suites := SESSION_ID + 1 + p[SESSION_ID];
      if suites + 2 > |p| then NotHello
      else
        var suitesLength: nat := U16(p, suites);
        var compression := suites + 2 + suitesLength;
        if compression >= |p| then NotHello
        else
          var block := compression + 1 + p[compression];
          if block + 2 > |p| then WithoutExtensions
          else
            var end := block + 2 + U16(p, block);
            Hello(U16(p, 9), Ciphers(p, suites + 2, suitesLength, 0),
                  Extensions(p[block + 2..if end > |p| then |p| else end], NO_FIELDS))
  }

  method CollectGroups(p: seq<octet>, pos: nat, length: nat) returns (curves: seq<uint16>)
    requires pos + length <= |p| && length >= 2
    ensures curves == Groups(p[pos..pos + length], U16(p[pos..pos + length], 0), 0)
  {
    hide Groups, U16, IsGrease;
    ghost var body := p[pos..pos + length];
    U16OfSlice(p, pos, pos + length, 0);
    var listLength: nat := U16(p, pos);
    curves := [];
    var i: nat := 0;
    while i + 1 < listLength && pos + 2 + i + 1 < pos + length
      invariant curves + Groups(body, listLength, i) == Groups(body, listLength, 0)
      decreases listLength - i
    {
      var c := U16(p, pos + 2 + i);
      U16OfSlice(p, pos, pos + length, i + 2);
      GroupsStep(body, listLength, i);
      Associate(curves, Keep(c), Groups(body, listLength, i + 2));
      if !IsGrease(c) {
        curves := curves + [c];
      }
      i := i + 2;
    }
    GroupsEnd(body, listLength, i);
  }

  lemma U16OfSlice(p: seq<octet>, from: nat, to: nat, i: nat)
    requires from + i + 1 < to <= |p|
    ensures U16(p[from..to], i) == U16(p, from + i)
  {
  }

  lemma GroupsStep(body: seq<octet>, listLength: nat, i: nat)
    requires i + 1 < listLength && i + 3 < |body|
    ensures Groups(body, listLength, i) == Keep(U16(body, i + 2)) + Groups(body, listLength, i + 2)
  {
  }

  lemma GroupsEnd(body: seq<octet>, listLength: nat, i: nat)
    requires i + 1 >= listLength || i + 3 >= |body|
    ensures Groups(body, listLength, i) == []
  {
  }

  method CollectFormats(p: seq<octet>, pos: nat, length: nat) returns (formats: seq<octet>)
    requires pos + length <= |p| && length >= 1
    ensures formats == Formats(p[pos..pos + length])
  {
    var listLength: nat := p[pos];
    formats := [];
    var i: nat := 0;
    while i < listLength && pos + 1 + i < pos + length
      invariant i <= listLength && 1 + i <= length
      invariant formats == p[pos + 1..pos + 1 + i]
      decreases listLength - i
    {
      formats := formats + [p[pos + 1 + i]];
      i := i + 1;
    }
    SliceOfSlice(p, pos, pos + length, 1, 1 + i);
  }

  method CollectExtension(p: seq<octet>, pos: nat, kind: uint16, length: nat, f: Fields) returns (g: Fields)
    requires pos + length <= |p|
    ensures g == Collect(f, kind, p[pos..pos + length])
  {
    hide Groups, Formats;
    ghost var body := p[pos..pos + length];
    g := f;
    if !IsGrease(kind) {
      g := g.(extensions := g.extensions + [kind]);
    }
    assert g == f.(extensions := f.extensions + Keep(kind));
    if kind == 0x0000 && length >= 5 {
      var sp := pos + 2 + 1;
      if sp + 2 <= pos + length {
        var nameLength: nat := U16(p, sp);
        sp := sp + 2;
        if sp + nameLength <= pos + length {
          g := g.(sni := p[sp..sp + nameLength]);
          SliceOfSlice(p, pos, pos + length, 5, 5 + nameLength);
        }
      }
    } else if kind == 0x000a {
      if length >= 2 {
        var curves := CollectGroups(p, pos, length);
        g := g.(curves := g.curves + curves);
      }
    } else if kind == 0x000b {
      if length >= 1 {
        var formats := CollectFormats(p, pos, length);
        g := g.(formats := g.formats + formats);
      }
    }
  }

  lemma ExtensionsStep(p: seq<octet>, pos: nat, end: nat, f: Fields)
    requires pos + 4 <= end <= |p|
    ensures var length: nat := U16(p, pos + 2);
            Extensions(p[pos..end], f) ==
            if pos + 4 + length > end then f
            else Extensions(p[pos + 4 + length..end], Collect(f, U16(p, pos), p[pos + 4..pos + 4 + length]))
  {
    hide Collect;
    var block := p[pos..end];
    var length: nat := U16(p, pos + 2);
    if pos + 4 + length <= end {
      SliceOfSlice(p, pos, end, 4 + length, |block|);
      SliceOfSlice(p, pos, end, 4, 4 + length);
    }
  }

  method ParseTlsClientHello(p: seq<octet>) returns (r: Parsed)
    ensures r == Parse(p)
  {
    hide Extensions, Ciphers;
    if |p| < 6 || p[0] != 0x16 {
      return NotHello;
    }
    var pos: nat := 5;
    if pos + 4 > |p| {
      return NotHello;
    }
    if p[pos] != 0x01 {
      return NotHello;
    }
    pos := pos + 4;
    if pos + 2 > |p| {
      return NotHello;
    }
    var version := U16(p, pos);
    pos := pos + 2;
    pos := pos + 32;
    if pos >= |p| {
      return NotHello;
    }
    pos := pos + 1 + p[pos];
    if pos + 2 > |p| {
      return NotHello;
    }
    var suitesLength: nat := U16(p, pos);
    pos := pos + 2;
    if pos + suitesLength > |p| {
      return NotHello;
    }
    var ciphers := ReadCiphers(p, pos, suitesLength);
    pos := pos + suitesLength;
    if pos >= |p| {
      return NotHello;
    }
    pos := pos + 1 + p[pos];
    if pos + 2 > |p| {
      return WithoutExtensions;
    }
    var total: nat := U16(p, pos);
    pos := pos + 2;
    var end := pos + total;
    if end > |p| {
      end := |p|;
    }
    var fields := ReadExtensions(p, pos, end);
    return Hello(version, ciphers, fields);
  }

  method ReadCiphers(p: seq<octet>, pos: nat, length: nat) returns (ciphers: seq<uint16>)
    requires pos + length <= |p|
    ensures ciphers == Ciphers(p, pos, length, 0)
  {
    ciphers := [];
    var i: nat := 0;
    while i + 1 < length
      invariant ciphers + Ciphers(p, pos, length, i) == Ciphers(p, pos, length, 0)
      decreases length - i
    {
      var c := U16(p, pos + i);
      Associate(ciphers, Keep(c), Ciphers(p, pos, length, i + 2));
      if !IsGrease(c) {
        ciphers := ciphers + [c];
      }
      i := i + 2;
    }
  }

  method ReadExtensions(p: seq<octet>, start: nat, end: nat) returns (f: Fields)
    requires start <= end <= |p|
    ensures f == Extensions(p[start..end], NO_FIELDS)
  {
    hide Extensions, Collect;
    f := NO_FIELDS;
    var pos := start;
    while pos + 4 <= end
      invariant start <= pos <= end
      invariant Extensions(p[pos..end], f) == Extensions(p[start..end], NO_FIELDS)
      decreases end - pos
    {
      ExtensionsStep(p, pos, end, f);
      var kind := U16(p, pos);
      var length: nat := U16(p, pos + 2);
      pos := pos + 4;
      if pos + length > end {
        return;
      }
      f := CollectExtension(p, pos, kind, length, f);
      pos := pos + length;
    }
    ExtensionsEnd(p[pos..end], f);
  }

  lemma ExtensionsEnd(block: seq<octet>, f: Fields)
    requires |block| < 4
    ensures Extensions(block, f) == f
  {
  }

  // ---------------------------------------------------------------- the wire format

  function Enc16(v: uint16): seq<octet> {
    [v / 0x100, v % 0x100]
  }

  function Enc16s(vs: seq<uint16>): seq<octet> {
    if vs == [] then [] else Enc16(vs[0]) + Enc16s(vs[1..])
  }

  /** Server name with one host entry (section 3 of RFC 6066), supported groups and point formats
      (sections 5.1.1 and 5.1.2 of RFC 8422), and any other extension as it is. */
  datatype Extension =
    | ServerName(host: seq<octet>)
    | SupportedGroups(groups: seq<uint16>)
    | PointFormats(formats: seq<octet>)
    | Other(kind: uint16, body: seq<octet>)

  predicate Fits(e: Extension) {
    match e
    case ServerName(host) => |host| + 5 < 0x1_0000
    case SupportedGroups(groups) => 2 * |groups| + 2 < 0x1_0000
    case PointFormats(formats) => |formats| < 0x100
    case Other(kind, body) => kind != 0 && kind != 10 && kind != 11 && |body| < 0x1_0000
  }

  function Kind(e: Extension): uint16 {
    match e
    case ServerName(_) => 0
    case SupportedGroups(_) => 10
    case PointFormats(_) => 11
    case Other(kind, _) => kind
  }

  lemma {:induction false} Enc16sSize(vs: seq<uint16>)
    ensures |Enc16s(vs)| == 2 * |vs|
  {
    if vs != [] {
      Enc16sSize(vs[1..]);
    }
  }

  function Body(e: Extension): (body: seq<octet>)
    requires Fits(e)
    ensures |body| < 0x1_0000
  {
    match e
    case ServerName(host) => Enc16(|host| + 3) + [0] + Enc16(|host|) + host
    case SupportedGroups(groups) =>
      Enc16sSize(groups);
      Enc16(2 * |groups|) + Enc16s(groups)
    case PointFormats(formats) => [|formats|] + formats
    case Other(_, body) => body
  }

  predicate AllFit(es: seq<Extension>) {
    forall i | 0 <= i < |es| :: Fits(es[i])
  }

  function Block(es: seq<Extension>): seq<octet>
    requires AllFit(es)
  {
    if es == [] then [] else Enc16(Kind(es[0])) + Enc16(|Body(es[0])|) + Body(es[0]) + Block(es[1..])
  }

  /** A ClientHello message (section 4.1.2 of RFC 8446) in one record. The record's version and length
      and the handshake length are not looked at by the parser and may be anything. */
  datatype ClientHello = ClientHello(
    recordHeader: seq<octet>, handshakeLength: seq<octet>, version: uint16, random: seq<octet>, sessionId: seq<octet>,
    suites: seq<uint16>, compression: seq<octet>, extensions: seq<Extension>)

  predicate WellFormed(h: ClientHello) {
    && |h.recordHeader| == 4 && |h.handshakeLength| == 3 && |h.random| == 32
    && |h.sessionId| < 0x100 && 2 * |h.suites| < 0x1_0000 && |h.compression| < 0x100
    && AllFit(h.extensions) && |Block(h.extensions)| < 0x1_0000
  }

  function Head(h: ClientHello): seq<octet> {
    [0x16] + h.recordHeader + [0x01] + h.handshakeLength + Enc16(h.version) + h.random
  }

  /** The message up to the compression methods. */
  function Front(h: ClientHello): seq<octet>
    requires WellFormed(h)
  {
    Head(h) + ([|h.sessionId|] + h.sessionId) + (Enc16(2 * |h.suites|) + Enc16s(h.suites))
    + ([|h.compression|] + h.compression)
  }

  function Wire(h: ClientHello): seq<octet>
    requires WellFormed(h)
  {
    Front(h) + (Enc16(|Block(h.extensions)|) + Block(h.extensions))
  }

  // ---------------------------------------------------------------- what it should parse to

  /** A list without the values the parser takes for GREASE. */
  function Visible(vs: seq<uint16>): seq<uint16> {
    if vs == [] then [] else Keep(vs[0]) + Visible(vs[1..])
  }

  function Kinds(es: seq<Extension>): seq<uint16> {
    if es == [] then [] else [Kind(es[0])] + Kinds(es[1..])
  }

  function AllGroups(es: seq<Extension>): seq<uint16> {
    if es == [] then []
    else (if es[0].SupportedGroups? then es[0].groups else []) + AllGroups(es[1..])
  }

  function AllFormats(es: seq<Extension>): seq<octet> {
    if es == [] then [] else (if es[0].PointFormats? then es[0].formats else []) + AllFormats(es[1..])
  }

  /** The last host name given; normally there is at most one. */
  function HostName(es: seq<Extension>, default: seq<octet>): seq<octet> {
    if es == [] then default else HostName(es[1..], if es[0].ServerName? then es[0].host else default)
  }

  // ---------------------------------------------------------------- lists and bodies

  lemma Enc16Reads(p: seq<octet>, pos: nat, v: uint16)
    requires pos + 2 <= |p| && p[pos..pos + 2] == Enc16(v)
    ensures U16(p, pos) == v
  {
    assert p[pos] == p[pos..pos + 2][0] && p[pos + 1] == p[pos..pos + 2][1];
  }

  lemma {:induction false} Enc16sAt(vs: seq<uint16>, k: nat)
    requires k < |vs|
    ensures |Enc16s(vs)| == 2 * |vs|
    ensures Enc16s(vs)[2 * k..2 * k + 2] == Enc16(vs[k])
  {
    Enc16sSize(vs);
    if k > 0 {
      Enc16sAt(vs[1..], k - 1);
      SliceOfTail(Enc16(vs[0]), Enc16s(vs[1..]), 2 * (k - 1), 2 * k);
    } else {
      assert Enc16s(vs)[0..2] == Enc16(vs[0]);
    }
  }

  lemma SliceOfTail<T>(a: seq<T>, b: seq<T>, from: nat, to: nat)
    requires from <= to <= |b|
    ensures (a + b)[|a| + from..|a| + to] == b[from..to]
  {
  }

  lemma VisibleFrom(vs: seq<uint16>, k: nat)
    requires k < |vs|
    ensures Visible(vs[k..]) == Keep(vs[k]) + Visible(vs[k + 1..])
  {
    assert vs[k..][1..] == vs[k + 1..];
  }

  lemma CiphersStep(p: seq<octet>, pos: nat, length: nat, i: nat)
    requires pos + length <= |p| && i + 1 < length
    ensures Ciphers(p, pos, length, i) == Keep(U16(p, pos + i)) + Ciphers(p, pos, length, i + 2)
  {
  }

  lemma BytesAt(vs: seq<uint16>, k: nat)
    requires k < |vs|
    ensures |Enc16s(vs)| == 2 * |vs|
    ensures Enc16s(vs)[2 * k] == vs[k] / 0x100 && Enc16s(vs)[2 * k + 1] == vs[k] % 0x100
  {
    Enc16sAt(vs, k);
    hide Enc16s;
    assert Enc16s(vs)[2 * k..2 * k + 2][0] == Enc16(vs[k])[0];
    assert Enc16s(vs)[2 * k..2 * k + 2][1] == Enc16(vs[k])[1];
  }

  lemma U16Is(p: seq<octet>, pos: nat, v: uint16)
    requires pos + 1 < |p| && p[pos] == v / 0x100 && p[pos + 1] == v % 0x100
    ensures U16(p, pos) == v
  {
  }

  lemma ReadAt(p: seq<octet>, pos: nat, end: nat, whole: seq<octet>, at: nat, v: uint16)
    requires pos <= end <= |p| && p[pos..end] == whole && at + 1 < end - pos
    requires whole[at] == v / 0x100 && whole[at + 1] == v % 0x100
    ensures U16(p, pos + at) == v
  {
    hide U16;
    assert p[pos + at] == whole[at] && p[pos + at + 1] == whole[at + 1];
    U16Is(p, pos + at, v);
  }

  /** The values `vs` stand at `pos` in `p`. */
  predicate Stand(p: seq<octet>, pos: nat, vs: seq<uint16>)
    requires pos + 2 * |vs| <= |p|
  {
    forall k | 0 <= k < |vs| :: vs[k] == U16(p, pos + 2 * k)
  }

  lemma EncodedStand(p: seq<octet>, pos: nat, vs: seq<uint16>)
    requires pos + 2 * |vs| <= |p| && p[pos..pos + 2 * |vs|] == Enc16s(vs)
    ensures Stand(p, pos, vs)
  {
    hide U16, Enc16s;
    forall k | 0 <= k < |vs|
      ensures vs[k] == U16(p, pos + 2 * k)
    {
      BytesAt(vs, k);
      ReadAt(p, pos, pos + 2 * |vs|, Enc16s(vs), 2 * k, vs[k]);
    }
  }

  lemma {:induction false} CiphersOfStanding(p: seq<octet>, pos: nat, vs: seq<uint16>, k: nat)
    requires k <= |vs| && pos + 2 * |vs| <= |p| && Stand(p, pos, vs)
    ensures Ciphers(p, pos, 2 * |vs|, 2 * k) == Visible(vs[k..])
    decreases |vs| - k
  {
    hide Ciphers, Visible, Keep, U16;
    if k < |vs| {
      CiphersStep(p, pos, 2 * |vs|, 2 * k);
      CiphersOfStanding(p, pos, vs, k + 1);
      VisibleFrom(vs, k);
    } else {
      CiphersEnd(p, pos, 2 * |vs|);
      VisibleOfNone(vs);
    }
  }

  lemma {:induction false} GroupsOfStanding(body: seq<octet>, vs: seq<uint16>, k: nat)
    requires k <= |vs| && |body| == 2 + 2 * |vs| && Stand(body, 2, vs)
    ensures Groups(body, 2 * |vs|, 2 * k) == Visible(vs[k..])
    decreases |vs| - k
  {
    hide Groups, Visible, Keep, U16;
    if k < |vs| {
      assert vs[k] == U16(body, 2 + 2 * k);
      GroupsStep(body, 2 * |vs|, 2 * k);
      GroupsOfStanding(body, vs, k + 1);
      VisibleFrom(vs, k);
    } else {
      GroupsEnd(body, 2 * |vs|, 2 * |vs|);
      VisibleOfNone(vs);
    }
  }

  lemma CiphersEnd(p: seq<octet>, pos: nat, length: nat)
    requires pos + length <= |p|
    ensures Ciphers(p, pos, length, length) == []
  {
  }

  lemma VisibleOfNone(vs: seq<uint16>)
    ensures Visible(vs[|vs|..]) == []
  {
  }

  lemma CiphersRead(p: seq<octet>, pos: nat, vs: seq<uint16>)
    requires pos + 2 * |vs| <= |p| && p[pos..pos + 2 * |vs|] == Enc16s(vs)
    ensures Ciphers(p, pos, 2 * |vs|, 0) == Visible(vs)
  {
    hide Ciphers, Visible, Stand, Enc16s;
    EncodedStand(p, pos, vs);
    CiphersOfStanding(p, pos, vs, 0);
    assert vs[0..] == vs;
  }

  lemma GroupsRead(body: seq<octet>, vs: seq<uint16>)
    requires |body| == 2 + 2 * |vs| && body[2..] == Enc16s(vs)
    ensures Groups(body, 2 * |vs|, 0) == Visible(vs)
  {
    hide Groups, Visible, Stand, Enc16s;
    assert body[2..2 + 2 * |vs|] == body[2..];
    EncodedStand(body, 2, vs);
    GroupsOfStanding(body, vs, 0);
    assert vs[0..] == vs;
  }

  /** The fields after one serialised extension. */
  function Expected(f: Fields, e: Extension): Fields {
    Fields(f.extensions + Keep(Kind(e)),
           f.curves + (if e.SupportedGroups? then Visible(e.groups) else []),
           f.formats + (if e.PointFormats? then e.formats else []),
           if e.ServerName? then e.host else f.sni)
  }

  lemma ServerNameCollected(f: Fields, host: seq<octet>)
    requires |host| + 5 < 0x1_0000
    ensures Collect(f, 0, Body(ServerName(host))) == Expected(f, ServerName(host))
  {
    var body := Body(ServerName(host));
    assert body[3..5] == Enc16(|host|);
    Enc16Reads(body, 3, |host|);
    assert body[5..5 + |host|] == host;
  }

  lemma GroupsCollected(f: Fields, groups: seq<uint16>)
    requires 2 * |groups| + 2 < 0x1_0000
    ensures Collect(f, 10, Body(SupportedGroups(groups))) == Expected(f, SupportedGroups(groups))
  {
    var body := Body(SupportedGroups(groups));
    Enc16sSize(groups);
    assert body[0..2] == Enc16(2 * |groups|);
    Enc16Reads(body, 0, 2 * |groups|);
    assert body[2..] == Enc16s(groups);
    GroupsRead(body, groups);
  }

  lemma FormatsCollected(f: Fields, formats: seq<octet>)
    requires |formats| < 0x100
    ensures Collect(f, 11, Body(PointFormats(formats))) == Expected(f, PointFormats(formats))
  {
    var body := Body(PointFormats(formats));
    assert body[1..1 + |formats|] == formats;
  }

  lemma Collected(f: Fields, e: Extension)
    requires Fits(e)
    ensures Collect(f, Kind(e), Body(e)) == Expected(f, e)
  {
    match e
    case ServerName(host) => ServerNameCollected(f, host);
    case SupportedGroups(groups) => GroupsCollected(f, groups);
    case PointFormats(formats) => FormatsCollected(f, formats);
    case Other(_, _) =>
  }

  // ---------------------------------------------------------------- blocks of extensions

  lemma {:induction false} VisibleConcat(a: seq<uint16>, b: seq<uint16>)
    ensures Visible(a + b) == Visible(a) + Visible(b)
  {
    if a == [] {
      assert a + b == b;
    } else {
      assert (a + b)[1..] == a[1..] + b;
      VisibleConcat(a[1..], b);
      Associate(Keep(a[0]), Visible(a[1..]), Visible(b));
    }
  }

  function AllExpected(f: Fields, es: seq<Extension>): Fields {
    Fields(f.extensions + Visible(Kinds(es)), f.curves + Visible(AllGroups(es)), f.formats + AllFormats(es),
           HostName(es, f.sni))
  }

  lemma ExpectedStep(f: Fields, es: seq<Extension>)
    requires es != []
    ensures AllExpected(f, es) == AllExpected(Expected(f, es[0]), es[1..])
  {
    var e := es[0];
    VisibleConcat(if e.SupportedGroups? then e.groups else [], AllGroups(es[1..]));
    assert Visible(Kinds(es)) == Keep(Kind(e)) + Visible(Kinds(es[1..]));
    Associate(f.extensions, Keep(Kind(e)), Visible(Kinds(es[1..])));
    Associate(f.curves, if e.SupportedGroups? then Visible(e.groups) else [], Visible(AllGroups(es[1..])));
    Associate(f.formats, if e.PointFormats? then e.formats else [], AllFormats(es[1..]));
  }

  lemma ExtensionRead(kind: uint16, body: seq<octet>, rest: seq<octet>, f: Fields)
    requires |body| < 0x1_0000
    ensures Extensions(Enc16(kind) + Enc16(|body|) + body + rest, f) == Extensions(rest, Collect(f, kind, body))
  {
    hide Collect;
    var block := Enc16(kind) + Enc16(|body|) + body + rest;
    assert block[0..2] == Enc16(kind) && block[2..4] == Enc16(|body|);
    Enc16Reads(block, 0, kind);
    Enc16Reads(block, 2, |body|);
    assert block[4..4 + |body|] == body && block[4 + |body|..] == rest;
  }

  lemma {:induction false} BlockRead(es: seq<Extension>, f: Fields)
    requires AllFit(es)
    ensures Extensions(Block(es), f) == AllExpected(f, es)
  {
    if es == [] {
      assert f.extensions + [] == f.extensions && f.curves + [] == f.curves && f.formats + [] == f.formats;
    } else {
      ExpectedStep(f, es);
      Collected(f, es[0]);
      hide Extensions, Collect, Expected, AllExpected, Body, Kind;
      ExtensionRead(Kind(es[0]), Body(es[0]), Block(es[1..]), f);
      BlockRead(es[1..], Expected(f, es[0]));
    }
  }

  // ---------------------------------------------------------------- the whole message

  lemma Peel(p: seq<octet>, pos: nat, a: seq<octet>, rest: seq<octet>)
    requires pos <= |p| && p[pos..] == a + rest
    ensures pos + |a| <= |p|
    ensures p[pos..pos + |a|] == a
    ensures p[pos + |a|..] == rest
  {
    SliceOfSlice(p, pos, |p|, 0, |a|);
    SliceOfSlice(p, pos, |p|, |a|, |p| - pos);
    assert (a + rest)[..|a|] == a && (a + rest)[|a|..] == rest;
    assert p[pos..|p|] == p[pos..];
  }

  /** A length byte followed by that many bytes. */
  lemma PeelShort(p: seq<octet>, pos: nat, a: seq<octet>, rest: seq<octet>)
    requires |a| < 0x100 && pos <= |p| && p[pos..] == [|a|] + a + rest
    ensures pos + 1 + |a| <= |p|
    ensures p[pos] == |a|
    ensures p[pos + 1 + |a|..] == rest
  {
    assert p[pos] == p[pos..][0];
    Peel(p, pos, [|a|] + a, rest);
  }

  /** A two-byte length followed by that many bytes. */
  lemma PeelLong(p: seq<octet>, pos: nat, a: seq<octet>, rest: seq<octet>)
    requires |a| < 0x1_0000 && pos <= |p| && p[pos..] == Enc16(|a|) + a + rest
    ensures pos + 2 + |a| <= |p|
    ensures U16(p, pos) == |a|
    ensures p[pos + 2..pos + 2 + |a|] == a
    ensures p[pos + 2 + |a|..] == rest
  {
    Associate(Enc16(|a|), a, rest);
    Peel(p, pos, Enc16(|a|), a + rest);
    Enc16Reads(p, pos, |a|);
    Peel(p, pos + 2, a, rest);
  }

  /** The message after the compression methods, and after each earlier part. */
  function AfterSuites(h: ClientHello, rest: seq<octet>): seq<octet>
    requires WellFormed(h)
  {
    [|h.compression|] + h.compression + rest
  }

  function AfterSession(h: ClientHello, rest: seq<octet>): seq<octet>
    requires WellFormed(h)
  {
    Enc16sSize(h.suites);
    Enc16(|Enc16s(h.suites)|) + Enc16s(h.suites) + AfterSuites(h, rest)
  }

  function AfterHead(h: ClientHello, rest: seq<octet>): seq<octet>
    requires WellFormed(h)
  {
    [|h.sessionId|] + h.sessionId + AfterSession(h, rest)
  }

  lemma FrontSplits(h: ClientHello, rest: seq<octet>)
    requires WellFormed(h)
    ensures Front(h) + rest == Head(h) + AfterHead(h, rest)
  {
    hide Head, Enc16, Enc16s;
    Enc16sSize(h.suites);
    var a, b := [|h.sessionId|] + h.sessionId, Enc16(2 * |h.suites|) + Enc16s(h.suites);
    var c := [|h.compression|] + h.compression;
    Associate(Head(h) + a + b, c, rest);
    Associate(Head(h) + a, b, c + rest);
    Associate(Head(h), a, b + (c + rest));
  }

  lemma HeadReads(h: ClientHello, rest: seq<octet>)
    requires WellFormed(h)
    ensures var p := Head(h) + rest;
            && |Head(h)| == SESSION_ID && p[0] == 0x16 && p[5] == 0x01 && U16(p, 9) == h.version
            && p[SESSION_ID..] == rest
  {
    var p := Head(h) + rest;
    assert p[9..11] == Enc16(h.version);
    Enc16Reads(p, 9, h.version);
    assert p[5] == 0x01;
  }

  /** Where the compression methods end. */
  function FrontSize(h: ClientHello): nat {
    SESSION_ID + 1 + |h.sessionId| + 2 + 2 * |h.suites| + 1 + |h.compression|
  }

  lemma FrontPeels(h: ClientHello, rest: seq<octet>)
    requires WellFormed(h)
    ensures var p := Front(h) + rest;
            && |p| >= SESSION_ID && p[SESSION_ID..] == AfterHead(h, rest)
            && p[0] == 0x16 && p[5] == 0x01 && U16(p, 9) == h.version
  {
    hide Front, Head, Enc16, Enc16s, U16, AfterHead;
    FrontSplits(h, rest);
    HeadReads(h, AfterHead(h, rest));
  }

  lemma SuitesPeel(h: ClientHello, rest: seq<octet>, p: seq<octet>, pos: nat)
    requires WellFormed(h) && pos <= |p| && p[pos..] == AfterSession(h, rest)
    ensures pos + 2 + 2 * |h.suites| + 1 + |h.compression| <= |p|
    ensures U16(p, pos) == 2 * |h.suites|
    ensures p[pos + 2..pos + 2 + 2 * |h.suites|] == Enc16s(h.suites)
    ensures p[pos + 2 + 2 * |h.suites|] == |h.compression|
    ensures p[pos + 2 + 2 * |h.suites| + 1 + |h.compression|..] == rest
  {
    hide Enc16, Enc16s, U16;
    Enc16sSize(h.suites);
    PeelLong(p, pos, Enc16s(h.suites), AfterSuites(h, rest));
    PeelShort(p, pos + 2 + 2 * |h.suites|, h.compression, rest);
  }

  lemma FrontReads(h: ClientHello, rest: seq<octet>)
    requires WellFormed(h)
    ensures var p := Front(h) + rest; var suites := SESSION_ID + 1 + |h.sessionId|;
            && |p| >= FrontSize(h) && p[0] == 0x16 && p[5] == 0x01 && U16(p, 9) == h.version
            && p[SESSION_ID] == |h.sessionId| && U16(p, suites) == 2 * |h.suites|
            && p[suites + 2..suites + 2 + 2 * |h.suites|] == Enc16s(h.suites)
            && p[suites + 2 + 2 * |h.suites|] == |h.compression|
            && p[FrontSize(h)..] == rest
  {
    hide Front, Enc16, Enc16s, U16, AfterSession;
    var p := Front(h) + rest;
    FrontPeels(h, rest);
    PeelShort(p, SESSION_ID, h.sessionId, AfterSession(h, rest));
    SuitesPeel(h, rest, p, SESSION_ID + 1 + |h.sessionId|);
  }

  lemma SuitesRead(h: ClientHello, rest: seq<octet>)
    requires WellFormed(h)
    ensures SESSION_ID + 1 + |h.sessionId| + 2 + 2 * |h.suites| <= |Front(h) + rest|
    ensures Ciphers(Front(h) + rest, SESSION_ID + 1 + |h.sessionId| + 2, 2 * |h.suites|, 0) == Visible(h.suites)
  {
    hide Front, Ciphers, Enc16s, U16, Visible;
    FrontReads(h, rest);
    CiphersRead(Front(h) + rest, SESSION_ID + 1 + |h.sessionId| + 2, h.suites);
  }

  /** Parsing undoes the wire format: every well-formed hello, whatever follows it in the payload,
      gives back its version, its host name and its lists without the values taken for GREASE. */
  lemma ParseInverts(h: ClientHello, trailing: seq<octet>)
    requires WellFormed(h)
    ensures Parse(Wire(h) + trailing) == Hello(h.version, Visible(h.suites), AllExpected(NO_FIELDS, h.extensions))
  {
    hide Front, Ciphers, Visible, Extensions, AllExpected, Enc16, Enc16s, U16, Block;
    var block := Block(h.extensions);
    var rest := Enc16(|block|) + block + trailing;
    var p := Wire(h) + trailing;
    assert p == Front(h) + rest by {
      Associate(Front(h), Enc16(|block|) + block, trailing);
    }
    FrontReads(h, rest);
    SuitesRead(h, rest);
    PeelLong(p, FrontSize(h), block, trailing);
    BlockRead(h.extensions, NO_FIELDS);
  }

  /** A hello from before extensions existed is recognised, and reported as having none exactly when at
      most one byte follows it in the payload: two are taken for the length of an extension block. */
  lemma OldHelloIsRecognised(h: ClientHello, trailing: seq<octet>)
    requires WellFormed(h)
    ensures Parse(Front(h) + trailing) == WithoutExtensions <==> |trailing| < 2
    ensures !Parse(Front(h) + trailing).NotHello?
  {
    hide Front, Enc16, Enc16s, U16, Extensions, Ciphers;
    FrontReads(h, trailing);
    FrontMeasured(h);
  }

  lemma FrontMeasured(h: ClientHello)
    requires WellFormed(h)
    ensures |Front(h)| == FrontSize(h)
  {
    Enc16sSize(h.suites);
  }

  // ---------------------------------------------------------------- GREASE

  /** The reserved values of section 2 of RFC 8701: 0x0A0A, 0x1A1A, ..., 0xFAFA. */
  predicate Reserved(v: uint16) {
    exists k: nat | k < 16 :: v == 0x0A0A + 0x1010 * k
  }

  function WithoutReserved(vs: seq<uint16>): seq<uint16> {
    if vs == [] then [] else (if Reserved(vs[0]) then [] else [vs[0]]) + WithoutReserved(vs[1..])
  }

  lemma ReservedShape(v: uint16)
    ensures Reserved(v) <==> IsGrease(v) && v / 0x1000 == v % 0x100 / 0x10
  {
    hide IsGrease;
    if Reserved(v) {
      var k: nat :| k < 16 && v == 0x0A0A + 0x1010 * k;
      ReservedBytes(v, k);
      SplitBytes(v, k);
    }
    if IsGrease(v) && v / 0x1000 == v % 0x100 / 0x10 {
      MaskedBytes(v);
      assert v == 0x0A0A + 0x1010 * (v / 0x1000);
    }
  }

  lemma ReservedBytes(v: uint16, k: nat)
    requires k < 16 && v == 0x0A0A + 0x1010 * k
    ensures v / 0x100 == 0x10 * k + 0xA && v % 0x100 == 0x10 * k + 0xA
  {
    assert v == 0x100 * (0x10 * k + 0xA) + (0x10 * k + 0xA);
  }

  lemma SplitBytes(v: uint16, k: nat)
    requires k < 16 && v / 0x100 == 0x10 * k + 0xA && v % 0x100 == 0x10 * k + 0xA
    ensures IsGrease(v) && v / 0x1000 == k && v % 0x100 / 0x10 == k
  {
    assert v % 0x10 == v % 0x100 % 0x10;
    assert v / 0x1000 == v / 0x100 / 0x10;
  }

  lemma MaskedBytes(v: uint16)
    requires IsGrease(v) && v / 0x1000 == v % 0x100 / 0x10
    ensures v / 0x1000 < 16 && v == 0x0A0A + 0x1010 * (v / 0x1000)
  {
    var high, low := v / 0x100, v % 0x100;
    assert high / 0x10 == v / 0x1000 && low % 0x10 == v % 0x10;
  }

  lemma {:induction false} ShorterWithoutMore(vs: seq<uint16>)
    ensures |Visible(vs)| <= |WithoutReserved(vs)|
  {
    if vs != [] {
      ReservedShape(vs[0]);
      ShorterWithoutMore(vs[1..]);
    }
  }

  /** The list a fingerprint should be made from, exactly when no value only looks like GREASE:
      the mask accepts, say, 0x0A1A, which is not reserved, and then the value is lost. */
  lemma {:induction false} OnlyReservedDropped(vs: seq<uint16>)
    ensures Visible(vs) == WithoutReserved(vs) <==>
            forall i | 0 <= i < |vs| :: IsGrease(vs[i]) ==> Reserved(vs[i])
    ensures IsGrease(0x0A1A) && !Reserved(0x0A1A)
  {
    ReservedShape(0x0A1A);
    if vs != [] {
      var v, rest := vs[0], vs[1..];
      assert vs == [v] + rest;
      ReservedShape(v);
      OnlyReservedDropped(rest);
      ShorterWithoutMore(rest);
      if IsGrease(v) && !Reserved(v) {
        assert |Visible(vs)| < |WithoutReserved(vs)|;
      } else if Visible(vs) == WithoutReserved(vs) {
        assert Visible(vs)[|Keep(v)|..] == Visible(rest);
        assert WithoutReserved(vs)[|Keep(v)|..] == WithoutReserved(rest);
      }
    }
  }
}
