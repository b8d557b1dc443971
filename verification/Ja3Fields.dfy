/** The fingerprint text read field by field. */
module Ja3Fields {
  import opened Strings
  import opened Decimal
  import opened Bytes
  import opened TlsInspector
  import opened Ja3

  // ---------------------------------------------------------------- a reader

  /** The pieces between the separators. */
  function Split(s: string, c: char): (pieces: seq<string>)
    ensures pieces != []
  {
    if s == "" then [""]
    else
      var rest := Split(s[1..], c);
      if s[0] == c then [""] + rest else [[s[0]] + rest[0]] + rest[1..]
  }

  function Number(s: string): int {
    if s == "" then 0 else 10 * Number(s[..|s| - 1]) + s[|s| - 1] as int - '0' as int
  }

  /** `s` is `n` in decimal, without leading zeros. */
  predicate IsDecimal(s: string, n: nat) {
    && s != "" && (|s| > 1 ==> s[0] != '0')
    && (forall i | 0 <= i < |s| :: '0' <= s[i] <= '9')
    && Number(s) == n
  }

  /** `s` is the numbers in order with dashes in between. */
  predicate IsListOf(s: string, vs: seq<nat>) {
    if vs == [] then s == ""
    else
      var pieces := Split(s, '-');
      |pieces| == |vs| && forall i | 0 <= i < |vs| :: IsDecimal(pieces[i], vs[i])
  }

  lemma {:induction false} NothingToSplit(s: string, c: char)
    requires Free(s, c)
    ensures Split(s, c) == [s]
  {
    if s != "" {
      NothingToSplit(s[1..], c);
      assert s == [s[0]] + s[1..];
    }
  }

  lemma {:induction false} SplitAtFirst(a: string, c: char, b: string)
    requires Free(a, c)
    ensures Split(a + ([c] + b), c) == [a] + Split(b, c)
  {
    var s := a + ([c] + b);
    if a == "" {
      assert s[1..] == b;
    } else {
      SplitAtFirst(a[1..], c, b);
      assert s[1..] == a[1..] + ([c] + b);
      assert a == [a[0]] + a[1..];
    }
  }

  lemma {:induction false} PrintIsDecimal(n: nat)
    ensures IsDecimal(Print(n), n)
    ensures n > 0 ==> Print(n)[0] != '0'
  {
    if n < 10 {
      assert [DigitOf(n)][..0] == "";
    } else {
      PrintIsDecimal(n / 10);
      var s := Print(n);
      assert s[..|s| - 1] == Print(n / 10);
    }
  }

  lemma {:induction false} JoinIsList(vs: seq<nat>)
    ensures IsListOf(Join(vs), vs)
  {
    if vs != [] {
      hide Print, IsDecimal, Number;
      PrintIsDecimal(vs[0]);
      PrintIsFree(vs[0], '-');
      if |vs| == 1 {
        NothingToSplit(Print(vs[0]), '-');
      } else {
        JoinIsList(vs[1..]);
        SplitAtFirst(Print(vs[0]), '-', Join(vs[1..]));
      }
    }
  }

  // ---------------------------------------------------------------- the five fields

  lemma FieldsOfText(v: nat, a: seq<nat>, b: seq<nat>, c: seq<nat>, d: seq<nat>)
    ensures var fields := Split(FingerprintText(v, a, b, c, d), ',');
            && |fields| == 5 && IsListOf(fields[0], [v]) && IsListOf(fields[1], a) && IsListOf(fields[2], b)
            && IsListOf(fields[3], c) && IsListOf(fields[4], d)
  {
    JoinIsList([v]);
    JoinIsList(a);
    JoinIsList(b);
    JoinIsList(c);
    JoinIsList(d);
    PrintIsFree(v, ',');
    JoinIsPlain(a);
    JoinIsPlain(b);
    JoinIsPlain(c);
    JoinIsPlain(d);
    assert Join([v]) == Print(v);
    hide Join, Print, IsListOf;
    NothingToSplit(Join(d), ',');
    SplitAtFirst(Join(c), ',', Join(d));
    SplitAtFirst(Join(b), ',', Join(c) + ("," + Join(d)));
    SplitAtFirst(Join(a), ',', Join(b) + ("," + (Join(c) + ("," + Join(d)))));
    SplitAtFirst(Print(v), ',', Join(a) + ("," + (Join(b) + ("," + (Join(c) + ("," + Join(d)))))));
  }

  /** The fingerprint text of every well-formed hello has five fields: the version, the cipher suites, the
      kinds of its extensions, the groups and the point formats, each list in the order of the message and
      without the reserved values. */
  lemma FingerprintFields(h: ClientHello, after: seq<octet>)
    requires WellFormed(h)
    ensures var fields := Split(Fingerprint(Parse(Wire(h) + after)), ',');
            && |fields| == 5
            && IsListOf(fields[0], [h.version])
            && IsListOf(fields[1], Visible(h.suites))
            && IsListOf(fields[2], Visible(Kinds(h.extensions)))
            && IsListOf(fields[3], Visible(AllGroups(h.extensions)))
            && IsListOf(fields[4], AllFormats(h.extensions))
  {
    hide Parse, Wire, WellFormed, Visible, FingerprintText, IsListOf, Split;
    ParseInverts(h, after);
    FieldsFromNothing(h.extensions);
    var x := AllExpected(NO_FIELDS, h.extensions);
    FieldsOfText(h.version, Visible(h.suites), x.extensions, x.curves, x.formats);
  }

  /** What is hashed is the text, character by character. */
  lemma TextIsHashed(text: string, i: nat)
    requires i < |text| && text[i] as int < 0x100
    ensures |AsBytes(text)| == |text| && AsBytes(text)[i] == text[i] as byte
  {
    assert text[i] as int % 0x100 == text[i] as int;
  }
}
