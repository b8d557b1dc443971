/** The client fingerprint made from a parsed ClientHello. */
module Ja3 {
  import opened Sequences
  import opened Strings
  import opened Decimal
  import opened Bytes
  import Md5
  import opened TlsInspector

  function Join(vs: seq<nat>): string {
    if vs == [] then "" else if |vs| == 1 then Print(vs[0]) else Print(vs[0]) + ("-" + Join(vs[1..]))
  }

  function FingerprintText(version: nat, ciphers: seq<nat>, extensions: seq<nat>, curves: seq<nat>,
                           formats: seq<nat>): string
  {
    Print(version) + ("," + (Join(ciphers) + ("," + (Join(extensions)
                                                     + ("," + (Join(curves) + ("," + Join(formats))))))))
  }

  method JoinValues(vs: seq<nat>) returns (s: string)
    ensures s == Join(vs)
  {
    hide Join, Print;
    s := "";
    var i := 0;
    assert vs[..0] == [];
    JoinNothing();
    while i < |vs|
      invariant 0 <= i <= |vs|
      invariant s == Join(vs[..i])
    {
      JoinMore(vs[..i], vs[i]);
      assert vs[..i + 1] == vs[..i] + [vs[i]];
      if i != 0 {
        s := s + "-";
      }
      s := s + Print(vs[i]);
      i := i + 1;
    }
    assert vs[..i] == vs;
  }

  lemma JoinNothing()
    ensures Join([]) == ""
  {
  }

  lemma {:induction false} JoinMore(vs: seq<nat>, v: nat)
    ensures Join(vs + [v]) == if vs == [] then Print(v) else Join(vs) + "-" + Print(v)
  {
    hide Print;
    if |vs| == 1 {
      assert (vs + [v])[1..] == [v];
      Associate(Print(vs[0]), "-", Print(v));
    } else if |vs| > 1 {
      assert (vs + [v])[1..] == vs[1..] + [v];
      JoinMore(vs[1..], v);
      Associate("-", Join(vs[1..]) + "-", Print(v));
      Associate("-", Join(vs[1..]), "-");
      Associate(Print(vs[0]), "-" + Join(vs[1..]), "-");
      Associate(Print(vs[0]), "-" + Join(vs[1..]) + "-", Print(v));
    }
  }

  // ---------------------------------------------------------------- telling fingerprints apart

  lemma SplitsOnce(a: string, b: string, c: char, x: string, y: string)
    requires Free(a, c) && Free(b, c) && a + ([c] + x) == b + ([c] + y)
    ensures a == b && x == y
  {
    var s, t := a + ([c] + x), b + ([c] + y);
    assert s[|a|] == c && t[|b|] == c;
    assert s[..|a|] == a && t[..|b|] == b;
    assert s[|a| + 1..] == x && t[|b| + 1..] == y;
  }

  lemma {:induction false} JoinIsPlain(vs: seq<nat>)
    ensures Free(Join(vs), ',')
    ensures Join(vs) == "" <==> vs == []
    ensures Free(Join(vs), '-') <==> |vs| <= 1
  {
    hide Print;
    if vs != [] {
      PrintIsFree(vs[0], ',');
      PrintIsFree(vs[0], '-');
      JoinIsPlain(vs[1..]);
      if |vs| > 1 {
        assert Join(vs)[|Print(vs[0])|] == '-';
      }
    }
  }

  lemma {:induction false} JoinInjective(vs: seq<nat>, ws: seq<nat>)
    requires Join(vs) == Join(ws)
    ensures vs == ws
  {
    hide Print;
    JoinIsPlain(vs);
    JoinIsPlain(ws);
    if |vs| == 1 {
      PrintInjective(vs[0], ws[0]);
    } else if |vs| > 1 {
      PrintIsFree(vs[0], ',');
      PrintIsFree(vs[0], '-');
      PrintIsFree(ws[0], ',');
      PrintIsFree(ws[0], '-');
      SplitsOnce(Print(vs[0]), Print(ws[0]), '-', Join(vs[1..]), Join(ws[1..]));
      PrintInjective(vs[0], ws[0]);
      JoinInjective(vs[1..], ws[1..]);
      assert vs == [vs[0]] + vs[1..] && ws == [ws[0]] + ws[1..];
    }
  }

  /** Different shapes never share a fingerprint text. */
  lemma TextIdentifiesShape(v: nat, a: seq<nat>, b: seq<nat>, c: seq<nat>, d: seq<nat>,
                            w: nat, e: seq<nat>, f: seq<nat>, g: seq<nat>, h: seq<nat>)
    ensures FingerprintText(v, a, b, c, d) == FingerprintText(w, e, f, g, h)
            <==> v == w && a == e && b == f && c == g && d == h
  {
    hide Join, Print;
    if FingerprintText(v, a, b, c, d) == FingerprintText(w, e, f, g, h) {
      PrintIsFree(v, ',');
      PrintIsFree(v, '-');
      PrintIsFree(w, ',');
      PrintIsFree(w, '-');
      var c4, g4 := Join(c) + ("," + Join(d)), Join(g) + ("," + Join(h));
      var b3, f3 := Join(b) + ("," + c4), Join(f) + ("," + g4);
      SplitsOnce(Print(v), Print(w), ',', Join(a) + ("," + b3), Join(e) + ("," + f3));
      PrintInjective(v, w);
      SplitsList(a, e, b3, f3);
      SplitsList(b, f, c4, g4);
      SplitsList(c, g, Join(d), Join(h));
      JoinInjective(d, h);
    }
  }

  lemma SplitsList(a: seq<nat>, b: seq<nat>, x: string, y: string)
    requires Join(a) + ("," + x) == Join(b) + ("," + y)
    ensures a == b && x == y
  {
    hide Join;
    JoinIsPlain(a);
    JoinIsPlain(b);
    SplitsOnce(Join(a), Join(b), ',', x, y);
    JoinInjective(a, b);
  }

  // ---------------------------------------------------------------- fingerprints of payloads

  function Fingerprint(p: Parsed): string {
    match p
    case NotHello => ""
    case WithoutExtensions => ""
    case Hello(version, ciphers, fields) =>
      FingerprintText(version, ciphers, fields.extensions, fields.curves, fields.formats)
  }

  function AsBytes(s: string): seq<byte> {
    seq(|s|, i requires 0 <= i < |s| => (s[i] as int % 0x100) as byte)
  }

  /** The text and the digest reported for a payload; a message without extensions gets neither. */
  method Inspect(payload: seq<octet>) returns (hello: bool, host: seq<octet>, text: string, digest: string)
    ensures hello == !Parse(payload).NotHello?
    ensures text == Fingerprint(Parse(payload))
    ensures Parse(payload).Hello? ==> host == Parse(payload).fields.sni
    ensures if Parse(payload).Hello? then Md5.IsDigest(digest, Md5.DigestState(AsBytes(text)))
            else host == [] && digest == ""
  {
    hide Parse, Join, Print, Md5.IsDigest, Md5.DigestState;
    hello, host, text, digest := false, [], "", "";
    var p := ParseTlsClientHello(payload);
    if p.NotHello? {
      return;
    }
    hello := true;
    if p.WithoutExtensions? {
      return;
    }
    host := p.fields.sni;
    var ciphers := JoinValues(p.ciphers);
    var extensions := JoinValues(p.fields.extensions);
    var curves := JoinValues(p.fields.curves);
    var formats := JoinValues(p.fields.formats);
    text := Print(p.version) + ("," + (ciphers + ("," + (extensions + ("," + (curves + ("," + formats)))))));
    digest := Md5.Hash(AsBytes(text));
  }

  /** Two clients' hellos get the same fingerprint text exactly when their versions and visible lists agree:
      nothing else in the message, nor what follows it, matters. */
  lemma FingerprintsAgreeExactly(g: ClientHello, h: ClientHello, after: seq<octet>, behind: seq<octet>)
    requires WellFormed(g) && WellFormed(h)
    ensures Fingerprint(Parse(Wire(g) + after)) == Fingerprint(Parse(Wire(h) + behind)) <==>
            && g.version == h.version
            && Visible(g.suites) == Visible(h.suites)
            && Visible(Kinds(g.extensions)) == Visible(Kinds(h.extensions))
            && Visible(AllGroups(g.extensions)) == Visible(AllGroups(h.extensions))
            && AllFormats(g.extensions) == AllFormats(h.extensions)
  {
    hide Parse, Wire, WellFormed, Visible, FingerprintText;
    ParseInverts(g, after);
    ParseInverts(h, behind);
    var x, y := AllExpected(NO_FIELDS, g.extensions), AllExpected(NO_FIELDS, h.extensions);
    FieldsFromNothing(g.extensions);
    FieldsFromNothing(h.extensions);
    TextIdentifiesShape(g.version, Visible(g.suites), x.extensions, x.curves, x.formats,
                        h.version, Visible(h.suites), y.extensions, y.curves, y.formats);
  }

  lemma FieldsFromNothing(es: seq<Extension>)
    ensures AllExpected(NO_FIELDS, es)
            == Fields(Visible(Kinds(es)), Visible(AllGroups(es)), AllFormats(es), HostName(es, []))
  {
    hide Visible, Kinds, AllGroups, AllFormats, HostName;
    assert [] + Visible(Kinds(es)) == Visible(Kinds(es));
    assert [] + Visible(AllGroups(es)) == Visible(AllGroups(es));
    assert [] + AllFormats(es) == AllFormats(es);
  }
}
