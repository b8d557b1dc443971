/** The layout of the bytes that count as a ClientHello, complete or not, and what is read off them. */
module TlsLayout {
  import opened TlsInspector

  /** Two bytes in network order. */
  function Number(high: octet, low: octet): uint16 {
    0x100 * high + low
  }

  /** The numbers that a list of bytes makes, two by two; an odd one at the end is left over. */
  function Numbers(bytes: seq<octet>): seq<uint16> {
    if |bytes| < 2 then [] else [Number(bytes[0], bytes[1])] + Numbers(bytes[2..])
  }

  function Least(a: nat, b: nat): nat {
    if a < b then a else b
  }

  // ---------------------------------------------------------------- the mask

  /** The values left out are those whose two bytes both end in the hexadecimal digit A. */
  lemma MaskedExactly(high: octet, low: octet)
    ensures Visible([Number(high, low)]) == if high % 0x10 == 0xA && low % 0x10 == 0xA then [] else [Number(high, low)]
  {
    assert [Number(high, low)][1..] == [];
    assert Number(high, low) % 0x10 == low % 0x10;
  }

  // ---------------------------------------------------------------- the lists

  lemma {:induction false} CiphersAreNumbers(p: seq<octet>, pos: nat, length: nat, i: nat)
    requires pos + length <= |p| && i <= length
    ensures Ciphers(p, pos, length, i) == Visible(Numbers(p[pos + i..pos + length]))
    decreases length - i
  {
    var bytes := p[pos + i..pos + length];
    if i + 1 < length {
      CiphersAreNumbers(p, pos, length, i + 2);
      CiphersStep(p, pos, length, i);
      FirstNumber(p, pos + i, pos + length);
      hide Numbers, Ciphers;
      VisibleOneMore(U16(p, pos + i), Numbers(p[pos + i + 2..pos + length]));
    }
  }

  lemma FirstNumber(p: seq<octet>, from: nat, to: nat)
    requires from + 2 <= to <= |p|
    ensures Numbers(p[from..to]) == [U16(p, from)] + Numbers(p[from + 2..to])
  {
    var bytes := p[from..to];
    assert bytes[2..] == p[from + 2..to];
    assert bytes[0] == p[from] && bytes[1] == p[from + 1];
  }

  lemma VisibleOneMore(v: uint16, vs: seq<uint16>)
    ensures Visible([v] + vs) == Keep(v) + Visible(vs)
  {
    assert ([v] + vs)[1..] == vs;
  }

  lemma {:induction false} GroupsAreNumbers(body: seq<octet>, listLength: nat, i: nat)
    requires |body| >= 2 && i <= Least(listLength, |body| - 2)
    ensures Groups(body, listLength, i) == Visible(Numbers(body[2 + i..2 + Least(listLength, |body| - 2)]))
    decreases listLength - i
  {
    var end := 2 + Least(listLength, |body| - 2);
    if i + 1 < listLength && i + 3 < |body| {
      GroupsAreNumbers(body, listLength, i + 2);
      FirstNumber(body, 2 + i, end);
      GroupsStep(body, listLength, i);
      hide Numbers, Groups;
      VisibleOneMore(U16(body, 2 + i), Numbers(body[2 + i + 2..end]));
    } else {
      GroupsEnd(body, listLength, i);
    }
  }

  // ---------------------------------------------------------------- the bodies of extensions

  /** A group list is as long as it says or as its extension allows. */
  lemma GroupsCollectedExactly(f: Fields, high: octet, low: octet, list: seq<octet>)
    ensures var size := Least(Number(high, low), |list|);
            Collect(f, 10, [high, low] + list) ==
            f.(extensions := f.extensions + [10], curves := f.curves + Visible(Numbers(list[..size])))
  {
    var body := [high, low] + list;
    var size := Least(Number(high, low), |list|);
    assert body[2..2 + size] == list[..size];
    GroupsAreNumbers(body, Number(high, low), 0);
    hide Groups, Visible, Numbers;
  }

  lemma FormatsCollectedExactly(f: Fields, length: octet, list: seq<octet>)
    ensures Collect(f, 11, [length] + list) ==
            f.(extensions := f.extensions + [11], formats := f.formats + list[..Least(length, |list|)])
  {
    var body := [length] + list;
    assert body[1..1 + Least(length, |list|)] == list[..Least(length, |list|)];
  }

  /** The list length and the type of a server name are skipped; a name longer than its extension is
      ignored. */
  lemma NameCollectedExactly(f: Fields, a: octet, b: octet, c: octet, high: octet, low: octet, name: seq<octet>)
    ensures var size := Number(high, low);
            Collect(f, 0, [a, b, c, high, low] + name) ==
            if size <= |name| then f.(extensions := f.extensions + [0], sni := name[..size])
            else f.(extensions := f.extensions + [0])
  {
    var body := [a, b, c, high, low] + name;
    var size := Number(high, low);
    assert size <= |name| ==> body[5..5 + size] == name[..size];
  }

  /** Bodies too short for their lengths, and all other kinds, leave just their kind, unless it is masked. */
  lemma OthersCollectedExactly(f: Fields, kind: uint16, body: seq<octet>)
    requires kind == 0 ==> |body| < 5
    requires kind == 10 ==> |body| < 2
    requires kind == 11 ==> body == []
    ensures Collect(f, kind, body) == f.(extensions := f.extensions + Visible([kind]))
  {
    assert [kind][1..] == [];
    assert Keep(kind) + Visible([]) == Keep(kind);
  }

  // ---------------------------------------------------------------- the extension block

  /** What is left of a block when no whole extension fits any more. */
  predicate NoMore(rest: seq<octet>) {
    |rest| < 4 || |rest| - 4 < Number(rest[2], rest[3])
  }

  lemma BlockEnds(rest: seq<octet>, f: Fields)
    requires NoMore(rest)
    ensures Extensions(rest, f) == f
  {
  }

  lemma BlockGoesOn(k: octet, l: octet, high: octet, low: octet, body: seq<octet>, rest: seq<octet>, f: Fields)
    requires |body| == Number(high, low)
    ensures Extensions([k, l, high, low] + body + rest, f) == Extensions(rest, Collect(f, Number(k, l), body))
  {
    hide Collect;
    var block := [k, l, high, low] + body + rest;
    assert block[4..4 + |body|] == body && block[4 + |body|..] == rest;
  }

  // ---------------------------------------------------------------- the message

  /** A handshake record holding a ClientHello up to its cipher suites, and something behind them. */
  datatype Layout = Layout(recordHeader: seq<octet>, handshakeLength: seq<octet>, high: octet, low: octet,
                           random: seq<octet>, session: seq<octet>, suites: seq<octet>, rest: seq<octet>)

  predicate Fitting(l: Layout) {
    && |l.recordHeader| == 4 && |l.handshakeLength| == 3 && |l.random| == 32
    && |l.session| < 0x100 && |l.suites| < 0x1_0000 && l.rest != []
  }

  function Start(l: Layout): seq<octet> {
    [0x16] + l.recordHeader + [0x01] + l.handshakeLength + [l.high, l.low] + l.random
  }

  function Bytes(l: Layout): seq<octet>
    requires Fitting(l)
  {
    Start(l) + [|l.session|] + l.session + [|l.suites| / 0x100, |l.suites| % 0x100] + l.suites + l.rest
  }

  lemma StartReads(l: Layout, rest: seq<octet>)
    requires Fitting(l)
    ensures var p := Start(l) + rest;
            && |Start(l)| == 43 && p[0] == 0x16 && p[5] == 0x01 && U16(p, 9) == Number(l.high, l.low)
            && p[43..] == rest
  {
  }

  lemma RestReads(p: seq<octet>, at: nat, rest: seq<octet>)
    requires at <= |p| && p[at..] == rest && rest != []
    ensures |p| == at + |rest| && p[at] == rest[0]
    ensures var skipped := 1 + rest[0] as int;
            |rest| >= skipped + 2 ==> U16(p, at + skipped) == Number(rest[skipped], rest[skipped + 1])
  {
    var skipped := 1 + rest[0] as int;
    if |rest| >= skipped + 2 {
      assert p[at..][skipped] == p[at + skipped] && p[at..][skipped + 1] == p[at + skipped + 1];
    }
  }

  lemma BlockReads(p: seq<octet>, at: nat, rest: seq<octet>, from: nat, length: nat)
    requires at <= |p| && p[at..] == rest && from <= |rest|
    ensures var end := at + from + length;
            p[at + from..if end > |p| then |p| else end] == rest[from..][..Least(length, |rest[from..]|)]
  {
    var block := rest[from..];
    assert block == p[at + from..];
    var size := Least(length, |block|);
    assert block[..size] == p[at + from..at + from + size];
  }

  lemma HelloAt(p: seq<octet>, suites: nat, size: nat, from: nat, length: uint16, list: seq<octet>,
                version: uint16, ciphers: seq<uint16>)
    requires |p| > 43 && p[0] == 0x16 && p[5] == 0x01 && suites == 44 + p[43] as int && suites + 2 + size < |p|
    requires U16(p, suites) == size && from == suites + 3 + size + p[suites + 2 + size] as int && from + 2 <= |p|
    requires U16(p, 9) == version && U16(p, from) == length && Ciphers(p, suites + 2, size, 0) == ciphers
    requires var end := from + 2 + length; p[from + 2..if end > |p| then |p| else end] == list
    ensures Parse(p) == Hello(version, ciphers, Extensions(list, NO_FIELDS))
  {
    hide Parse, Ciphers, Extensions, U16;
    ParsedAt(p, suites, size);
  }

  lemma BytesRead(l: Layout)
    requires Fitting(l)
    ensures var p, suites := Bytes(l), 44 + |l.session|;
            && |p| == suites + 2 + |l.suites| + |l.rest|
            && p[0] == 0x16 && p[5] == 0x01 && U16(p, 9) == Number(l.high, l.low) && p[43] == |l.session|
            && U16(p, suites) == |l.suites| && p[suites + 2..suites + 2 + |l.suites|] == l.suites
            && p[suites + 2 + |l.suites|..] == l.rest
  {
    var p := Bytes(l);
    var afterSession := Enc16(|l.suites|) + l.suites + l.rest;
    var afterStart := [|l.session|] + l.session + afterSession;
    RegroupBytes(l, afterSession, afterStart);
    StartReads(l, afterStart);
    hide Start, Bytes;
    PeelShort(p, 43, l.session, afterSession);
    PeelLong(p, 44 + |l.session|, l.suites, l.rest);
    assert |p| == 43 + |afterStart|;
  }

  lemma RegroupBytes(l: Layout, afterSession: seq<octet>, afterStart: seq<octet>)
    requires Fitting(l) && afterSession == Enc16(|l.suites|) + l.suites + l.rest
    requires afterStart == [|l.session|] + l.session + afterSession
    ensures Bytes(l) == Start(l) + afterStart
  {
    hide Start;
    assert Bytes(l) == Start(l) + ([|l.session|] + l.session + (Enc16(|l.suites|) + l.suites + l.rest));
  }

  /** What is parsed, by positions. */
  lemma ParsedAt(p: seq<octet>, suites: nat, size: nat)
    requires |p| > 43 && p[0] == 0x16 && p[5] == 0x01 && suites == 44 + p[43] as int && suites + 2 + size < |p|
    requires U16(p, suites) == size
    ensures var at := suites + 2 + size;
            var block := at + 1 + p[at];
            Parse(p) ==
              if block + 2 > |p| then WithoutExtensions
              else
                var end := block + 2 + U16(p, block);
                Hello(U16(p, 9), Ciphers(p, suites + 2, size, 0),
                      Extensions(p[block + 2..if end > |p| then |p| else end], NO_FIELDS))
  {
    hide Ciphers, Extensions;
  }

  lemma SuitesRead(l: Layout)
    requires Fitting(l)
    ensures 46 + |l.session| + |l.suites| <= |Bytes(l)|
    ensures Ciphers(Bytes(l), 46 + |l.session|, |l.suites|, 0) == Visible(Numbers(l.suites))
  {
    BytesRead(l);
    hide Bytes, Start, Numbers, Visible, Ciphers;
    CiphersAreNumbers(Bytes(l), 46 + |l.session|, |l.suites|, 0);
  }

  lemma PositionsRead(l: Layout)
    requires Fitting(l)
    ensures var p, at := Bytes(l), 46 + |l.session| + |l.suites|;
            && |p| == at + |l.rest| && p[0] == 0x16 && p[5] == 0x01 && p[43] == |l.session| && p[at] == l.rest[0]
            && U16(p, 9) == Number(l.high, l.low) && U16(p, 44 + |l.session|) == |l.suites|
  {
    BytesRead(l);
    hide Bytes, Start, U16;
    RestReads(Bytes(l), 46 + |l.session| + |l.suites|, l.rest);
  }

  lemma BlockRest(l: Layout, skipped: nat)
    requires Fitting(l) && skipped == 1 + l.rest[0] as int && |l.rest| >= skipped + 2
    ensures var p, from := Bytes(l), 46 + |l.session| + |l.suites| + skipped;
            var length := Number(l.rest[skipped], l.rest[skipped + 1]);
            var end := from + 2 + length;
            && |p| >= from + 2 && U16(p, from) == length
            && p[from + 2..if end > |p| then |p| else end]
               == l.rest[skipped + 2..][..Least(length, |l.rest[skipped + 2..]|)]
  {
    BytesRead(l);
    hide Bytes, Start, U16, Least, Number;
    var at := 46 + |l.session| + |l.suites|;
    RestReads(Bytes(l), at, l.rest);
    BlockReads(Bytes(l), at, l.rest, skipped + 2, Number(l.rest[skipped], l.rest[skipped + 1]));
  }

  lemma ShortRest(l: Layout)
    requires Fitting(l) && |l.rest| < 1 + l.rest[0] as int + 2
    ensures Parse(Bytes(l)) == WithoutExtensions
  {
    PositionsRead(l);
    hide Bytes, Start, Ciphers, Extensions, Parse, U16;
    ParsedAt(Bytes(l), 44 + |l.session|, |l.suites|);
  }

  lemma LongRest(l: Layout, skipped: nat)
    requires Fitting(l) && skipped == 1 + l.rest[0] as int && |l.rest| >= skipped + 2
    ensures var block := l.rest[skipped + 2..];
            var size := Least(Number(l.rest[skipped], l.rest[skipped + 1]), |block|);
            Parse(Bytes(l)) ==
              Hello(Number(l.high, l.low), Visible(Numbers(l.suites)), Extensions(block[..size], NO_FIELDS))
  {
    PositionsRead(l);
    SuitesRead(l);
    BlockRest(l, skipped);
    hide Bytes, Start, Ciphers, Extensions, Numbers, Visible, Parse, U16, Least, Number, Fitting;
    var length, block := Number(l.rest[skipped], l.rest[skipped + 1]), l.rest[skipped + 2..];
    HelloAt(Bytes(l), 44 + |l.session|, |l.suites|, 46 + |l.session| + |l.suites| + skipped, length,
            block[..Least(length, |block|)], Number(l.high, l.low), Visible(Numbers(l.suites)));
  }

  /** What such a message is parsed to: its version, its cipher suites, and the extensions that the rest of the
      payload holds behind the compression methods, if it goes that far. */
  lemma ParsedExactly(l: Layout)
    requires Fitting(l)
    ensures var skipped := 1 + l.rest[0] as int;
            Parse(Bytes(l)) ==
              if |l.rest| < skipped + 2 then WithoutExtensions
              else
                var block := l.rest[skipped + 2..];
                var size := Least(Number(l.rest[skipped], l.rest[skipped + 1]), |block|);
                Hello(Number(l.high, l.low), Visible(Numbers(l.suites)), Extensions(block[..size], NO_FIELDS))
  {
    hide Bytes, Parse, Extensions, Visible, Numbers, Least, Number;
    if |l.rest| < 1 + l.rest[0] as int + 2 {
      ShortRest(l);
    } else {
      LongRest(l, 1 + l.rest[0] as int);
    }
  }

  /** The layout that the bytes of a payload have. */
  function LayoutOf(p: seq<octet>): Layout
    requires !Parse(p).NotHello?
  {
    var suites := 44 + p[43] as int;
    var size: nat := U16(p, suites);
    Layout(p[1..5], p[6..9], p[9], p[10], p[11..43], p[44..suites], p[suites + 2..suites + 2 + size],
           p[suites + 2 + size..])
  }

  lemma StartIs(p: seq<octet>)
    requires |p| > 43 && p[0] == 0x16 && p[5] == 0x01
    ensures p[..43] == [0x16] + p[1..5] + [0x01] + p[6..9] + [p[9], p[10]] + p[11..43]
  {
  }

  lemma FivePieces(l: Layout, session: seq<octet>, length: seq<octet>)
    requires Fitting(l) && session == [|l.session|] + l.session
    requires length == [|l.suites| / 0x100, |l.suites| % 0x100]
    ensures Bytes(l) == Start(l) + session + length + l.suites + l.rest
  {
    hide Start;
    assert Start(l) + [|l.session|] + l.session == Start(l) + session;
  }

  lemma LayoutFits(p: seq<octet>)
    requires !Parse(p).NotHello?
    ensures Fitting(LayoutOf(p)) && Bytes(LayoutOf(p)) == p
  {
    StartIs(p);
    var l := LayoutOf(p);
    var suites := 44 + p[43] as int;
    var size: nat := U16(p, suites);
    assert Start(l) == p[..43];
    assert [|l.session|] + l.session == p[43..suites];
    assert [size / 0x100, size % 0x100] == p[suites..suites + 2];
    hide Start, Ciphers, Extensions, U16;
    var end := suites + 2 + size;
    assert p[..43] + p[43..suites] == p[..suites];
    assert p[..suites] + p[suites..suites + 2] == p[..suites + 2];
    assert p[..suites + 2] + p[suites + 2..end] == p[..end];
    assert p[..end] + p[end..] == p;
    FivePieces(l, p[43..suites], p[suites..suites + 2]);
  }

  /** The payloads taken for a ClientHello are exactly those that have the layout. */
  lemma RecognisedExactly(p: seq<octet>)
    ensures !Parse(p).NotHello? <==> exists l :: Fitting(l) && Bytes(l) == p
  {
    hide Bytes, Start, Fitting;
    if !Parse(p).NotHello? {
      LayoutFits(p);
    } else if l :| Fitting(l) && Bytes(l) == p {
      ParsedExactly(l);
      assert false;
    }
  }
}
