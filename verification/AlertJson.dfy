/** The alert object: its printer and the field extractor that reads it back. */
module AlertJson {
  import opened Sequences
  import opened Options
  import opened Strings

  // ---------------------------------------------------------------- the printer

  function HexDigit(n: nat): char
    requires n < 16
  {
    "0123456789abcdef"[n]
  }

  function EscapeChar(c: char): string {
    if c == '"' then "\\\""
    else if c == '\\' then "\\\\"
    else if c == '\n' then "\\n"
    else if c == '\r' then "\\r"
    else if c == '\t' then "\\t"
    else if c < ' ' then "\\u00" + [HexDigit(c as int / 16), HexDigit(c as int % 16)]
    else [c]
  }

  function Escape(s: string): string {
    if s == "" then "" else EscapeChar(s[0]) + Escape(s[1..])
  }

  lemma EscapeFrom(s: string, i: nat, out: string)
    requires i < |s|
    ensures out + EscapeChar(s[i]) + Escape(s[i + 1..]) == out + Escape(s[i..])
  {
    hide EscapeChar;
    assert s[i..][1..] == s[i + 1..];
    assert out + EscapeChar(s[i]) + Escape(s[i + 1..]) == out + (EscapeChar(s[i]) + Escape(s[i + 1..]));
  }

  method JsonEscape(s: string) returns (out: string)
    ensures out == Escape(s)
  {
    out := "";
    for i := 0 to |s|
      invariant out + Escape(s[i..]) == Escape(s)
    {
      EscapeFrom(s, i, out);
      hide Escape;
      var piece;
      var c := s[i];
      if c == '"' {
        piece := "\\\"";
      } else if c == '\\' {
        piece := "\\\\";
      } else if c == '\n' {
        piece := "\\n";
      } else if c == '\r' {
        piece := "\\r";
      } else if c == '\t' {
        piece := "\\t";
      } else if c < ' ' {
        piece := "\\u00" + [HexDigit(c as int / 16), HexDigit(c as int % 16)];
      } else {
        piece := [c];
      }
      out := out + piece;
    }
    assert s[|s|..] == "";
  }

  /** A printed number: whatever its digits, it holds no quote. */
  type NumberText = s: string | '"' !in s witness "0.000000"

  datatype Severity = Severity(severityName: string, score: string, rating: string, cvss: NumberText) {
    function Format(): string {
      severityName + " (CVSS 4.0: " + score + "/" + rating + ")"
    }
  }

  const HEAD := "{\"threat_type\": \""
  const TO_SEVERITY := "\", \"severity\": \""
  const TO_CVSS := "\", \"cvss\": "
  const TO_SNIPPET := ", \"snippet\": \""
  const TAIL := "\"}"

  function Build(threat: string, sev: Severity, snippet: string): string {
    HEAD + Escape(threat) + TO_SEVERITY + Escape(sev.Format()) + TO_CVSS + sev.cvss + TO_SNIPPET + Escape(snippet)
    + TAIL
  }

  // ---------------------------------------------------------------- the extractor

  function UnescapeChar(next: char): char {
    if next == 'n' then '\n' else if next == 'r' then '\r' else if next == 't' then '\t' else next
  }

  function Prepend(front: string, rest: Option<string>): Option<string> {
    match rest
    case None => None
    case Some(v) => Some(front + v)
  }

  /** Reads up to the closing quote, decoding one character after each backslash. */
  function ReadString(rest: string): Option<string> {
    if rest == "" then None
    else if rest[0] == '\\' && |rest| > 1 then Prepend([UnescapeChar(rest[1])], ReadString(rest[2..]))
    else if rest[0] == '"' then Some("")
    else Prepend([rest[0]], ReadString(rest[1..]))
  }

  lemma PrependNothing(rest: Option<string>)
    ensures Prepend("", rest) == rest
  {
    if rest.Some? {
      assert "" + rest.value == rest.value;
    }
  }

  lemma PrependTwice(a: string, b: string, rest: Option<string>)
    ensures Prepend(a, Prepend(b, rest)) == Prepend(a + b, rest)
  {
    if rest.Some? {
      assert a + (b + rest.value) == a + b + rest.value;
    }
  }

  function Quoted(key: string): string {
    "\"" + key + "\""
  }

  /** Where the value of `key` starts, just past its opening quote. */
  function ValueStart(json: string, key: string): Option<nat> {
    match Find(json, Quoted(key), 0)
    case None => None
    case Some(at) =>
      match Find(json, ":", at + |key| + 2)
      case None => None
      case Some(colon) =>
        match Find(json, "\"", colon + 1)
        case None => None
        case Some(open) => Some(open + 1)
  }

  function Extract(json: string, key: string): string {
    match ValueStart(json, key)
    case None => ""
    case Some(start) =>
      if start > |json| then ""
      else
        match ReadString(json[start..])
        case None => ""
        case Some(value) => value
  }

  method ExtractJsonField(json: string, key: string) returns (result: string)
    ensures result == Extract(json, key)
  {
    hide Find, ReadString, Quoted;
    var pos := Find(json, Quoted(key), 0);
    if pos == None {
      return "";
    }
    pos := Find(json, ":", pos.value + |key| + 2);
    if pos == None {
      return "";
    }
    var start := Find(json, "\"", pos.value + 1);
    if start == None {
      return "";
    }
    FindInRange(json, "\"", pos.value + 1);
    var value := ReadValue(json, start.value + 1);
    return if value == None then "" else value.value;
  }

  lemma ReadFrom(json: string, i: nat, result: string)
    requires i < |json|
    ensures var rest := ReadString(json[i..]);
            if json[i] == '\\' && i + 1 < |json| then
              Prepend(result, rest) == Prepend(result + [UnescapeChar(json[i + 1])], ReadString(json[i + 2..]))
            else if json[i] == '"' then Prepend(result, rest) == Some(result)
            else Prepend(result, rest) == Prepend(result + [json[i]], ReadString(json[i + 1..]))
  {
    if json[i] == '\\' && i + 1 < |json| {
      assert json[i..][2..] == json[i + 2..];
      PrependTwice(result, [UnescapeChar(json[i + 1])], ReadString(json[i + 2..]));
    } else if json[i] == '"' {
      assert result + "" == result;
    } else {
      assert json[i..][1..] == json[i + 1..];
      PrependTwice(result, [json[i]], ReadString(json[i + 1..]));
    }
  }

  /** Walks from just past the opening quote to the closing one. */
  method ReadValue(json: string, start: nat) returns (value: Option<string>)
    requires start <= |json|
    ensures value == ReadString(json[start..])
  {
    var result, i := "", start;
    PrependNothing(ReadString(json[start..]));
    while i < |json|
      invariant i <= |json|
      invariant Prepend(result, ReadString(json[i..])) == ReadString(json[start..])
      decreases |json| - i
    {
      ReadFrom(json, i, result);
      hide ReadString, Prepend, UnescapeChar;
      if json[i] == '\\' && i + 1 < |json| {
        result := result + [UnescapeChar(json[i + 1])];
        i := i + 2;
      } else if json[i] == '"' {
        return Some(result);
      } else {
        result := result + [json[i]];
        i := i + 1;
      }
    }
    return None;
  }

  // ---------------------------------------------------------------- what survives escaping

  /** Control characters other than newline, carriage return and tab. */
  predicate Lost(c: char) {
    c < ' ' && c != '\n' && c != '\r' && c != '\t'
  }

  predicate Clean(s: string) {
    forall i | 0 <= i < |s| :: !Lost(s[i])
  }

  /** The extractor drops the backslash of a \u escape and keeps its text. */
  function LossyChar(c: char): string {
    if Lost(c) then "u00" + [HexDigit(c as int / 16), HexDigit(c as int % 16)] else [c]
  }

  function Lossy(s: string): string {
    if s == "" then "" else LossyChar(s[0]) + Lossy(s[1..])
  }

  lemma ReadPlain(c: char, rest: string)
    requires c != '\\' && c != '"'
    ensures ReadString([c] + rest) == Prepend([c], ReadString(rest))
  {
    assert ([c] + rest)[1..] == rest;
  }

  lemma ReadEscaped(c: char, rest: string)
    ensures ReadString(['\\', c] + rest) == Prepend([UnescapeChar(c)], ReadString(rest))
  {
    assert (['\\', c] + rest)[2..] == rest;
  }

  lemma ReadUnicodeEscape(h: char, l: char, rest: string)
    requires h != '\\' && h != '"' && l != '\\' && l != '"'
    ensures ReadString("\\u00" + [h, l] + rest) == Prepend("u00" + [h, l], ReadString(rest))
  {
    var r1 := [l] + rest;
    var r2 := [h] + r1;
    var r3 := ['0'] + r2;
    ReadPlain(l, rest);
    ReadPlain(h, r1);
    ReadPlain('0', r2);
    ReadPlain('0', r3);
    ReadEscaped('u', ['0'] + r3);
    assert "\\u00" + [h, l] + rest == ['\\', 'u'] + (['0'] + r3);
    hide ReadString;
    PrependTwice([h], [l], ReadString(rest));
    PrependTwice(['0'], [h] + [l], ReadString(rest));
    PrependTwice(['0'], ['0'] + ([h] + [l]), ReadString(rest));
    PrependTwice(['u'], ['0'] + (['0'] + ([h] + [l])), ReadString(rest));
    assert ['u'] + (['0'] + (['0'] + ([h] + [l]))) == "u00" + [h, l];
  }

  lemma HexDigitsArePlain(n: nat)
    requires n < 16
    ensures HexDigit(n) != '\\' && HexDigit(n) != '"'
  {
  }

  lemma ReadEscapedChar(c: char, rest: string)
    ensures ReadString(EscapeChar(c) + rest) == Prepend(LossyChar(c), ReadString(rest))
  {
    if c == '"' || c == '\\' || c == '\n' || c == '\r' || c == '\t' {
      var d := EscapeChar(c)[1];
      assert EscapeChar(c) == ['\\', d] && UnescapeChar(d) == c;
      ReadEscaped(d, rest);
    } else if c < ' ' {
      HexDigitsArePlain(c as int / 16);
      HexDigitsArePlain(c as int % 16);
      ReadUnicodeEscape(HexDigit(c as int / 16), HexDigit(c as int % 16), rest);
    } else {
      ReadPlain(c, rest);
    }
  }

  lemma {:induction false} ReadEscapedString(s: string, rest: string)
    ensures ReadString(Escape(s) + "\"" + rest) == Some(Lossy(s))
  {
    if s == "" {
      assert Escape(s) + "\"" + rest == "\"" + rest;
    } else {
      ReadEscapedString(s[1..], rest);
      var more := Escape(s[1..]) + "\"" + rest;
      ReadEscapedChar(s[0], more);
      assert Escape(s) + "\"" + rest == EscapeChar(s[0]) + more;
      hide ReadString, EscapeChar;
    }
  }

  lemma {:induction false} LossyExactlyWhenClean(s: string)
    ensures |Lossy(s)| >= |s|
    ensures Lossy(s) == s <==> Clean(s)
  {
    if s != "" {
      LossyExactlyWhenClean(s[1..]);
      if Lost(s[0]) {
        assert |Lossy(s)| > |s|;
      } else {
        assert Lossy(s)[1..] == Lossy(s[1..]);
        assert s == [s[0]] + s[1..];
      }
    }
  }

  // ---------------------------------------------------------------- finding the keys

  /** No quote in `s` directly follows the letter t, as the closing quote of "snippet" does. */
  predicate NoQuoteAfterT(s: string) {
    forall k | 1 <= k < |s| && s[k] == '"' :: s[k - 1] != 't'
  }

  lemma NoQuoteAfterTConcat(a: string, b: string)
    requires NoQuoteAfterT(a) && NoQuoteAfterT(b)
    requires a == "" || b == "" || b[0] != '"' || a[|a| - 1] != 't'
    ensures NoQuoteAfterT(a + b)
  {
  }

  lemma EscapeCharQuotes(c: char)
    ensures EscapeChar(c) != "" && EscapeChar(c)[0] != '"'
    ensures NoQuoteAfterT(EscapeChar(c))
  {
    if c < ' ' && c != '\n' && c != '\r' && c != '\t' {
      HexDigitsArePlain(c as int / 16);
      HexDigitsArePlain(c as int % 16);
      var e := EscapeChar(c);
      assert e[0] == '\\' && e[1] == 'u' && e[2] == '0' && e[3] == '0' && |e| == 6;
    }
  }

  lemma {:induction false} EscapeQuotes(s: string)
    ensures Escape(s) == "" || Escape(s)[0] != '"'
    ensures NoQuoteAfterT(Escape(s))
  {
    if s != "" {
      EscapeCharQuotes(s[0]);
      EscapeQuotes(s[1..]);
      hide EscapeChar;
      NoQuoteAfterTConcat(EscapeChar(s[0]), Escape(s[1..]));
    }
  }

  const WORD := "snippet"
  const KEY := "\"snippet\""
  const CLASH := "\"snippet"

  lemma SeamOnly(left: string, right: string, k: nat)
    requires NoQuoteAfterT(left) && NoQuoteAfterT(right)
    requires 1 <= k < |left + right| && (left + right)[k] == '"' && (left + right)[k - 1] == 't'
    ensures k == |left|
  {
  }

  /** Where `"snippet"` can match in `left + right` when neither part has a quote after a t: only
      with its closing quote opening `right`. */
  lemma KeyOnlyAtSeam(left: string, right: string, i: nat)
    requires NoQuoteAfterT(left) && NoQuoteAfterT(right)
    requires MatchesAt(left + right, KEY, i)
    ensures i + 8 == |left| && EndsWith(left, CLASH) && right != "" && right[0] == '"'
  {
    var s := left + right;
    assert s[i + 8] == s[i..i + 9][8] && s[i + 7] == s[i..i + 9][7];
    assert KEY[8] == '"' && KEY[7] == 't';
    SeamOnly(left, right, i + 8);
    assert left[i..] == s[i..i + 9][..8];
    assert KEY[..8] == CLASH;
  }

  /** A threat type that looks like the second key once printed. */
  predicate Clashes(threat: string) {
    threat == WORD || EndsWith(threat, CLASH)
  }

  lemma {:induction false} EscapeConcat(a: string, b: string)
    ensures Escape(a + b) == Escape(a) + Escape(b)
  {
    if a == "" {
      assert a + b == b;
    } else {
      assert (a + b)[1..] == a[1..] + b;
      EscapeConcat(a[1..], b);
      hide EscapeChar;
    }
  }

  lemma EscapeOne(c: char, rest: string)
    ensures Escape([c] + rest) == EscapeChar(c) + Escape(rest)
  {
    assert ([c] + rest)[1..] == rest;
  }

  lemma {:induction false} PrintsItself(s: string)
    ensures '\\' !in Escape(s) ==> Escape(s) == s
    ensures (forall i | 0 <= i < |s| :: s[i] >= ' ' && s[i] != '"' && s[i] != '\\') ==> Escape(s) == s
  {
    if s != "" {
      PrintsItself(s[1..]);
      assert s == [s[0]] + s[1..];
      assert Escape(s) == EscapeChar(s[0]) + Escape(s[1..]);
      if |EscapeChar(s[0])| > 1 {
        assert Escape(s)[0] == '\\';
      }
    }
  }

  lemma EscapeSplit(s: string)
    requires s != ""
    ensures Escape(s) == EscapeChar(s[0]) + Escape(s[1..])
  {
  }

  lemma TailOfConcat(a: string, b: string, k: nat)
    requires |a| <= k < |a| + |b|
    ensures (a + b)[k] == b[k - |a|] && (a + b)[k + 1..] == b[k - |a| + 1..]
  {
  }

  lemma EndOfFirst(a: string, b: string, k: nat)
    requires k + 1 == |a|
    ensures (a + b)[k] == a[k] && (a + b)[k + 1..] == b
  {
  }

  lemma TailOfTail(s: string, i: nat)
    requires i + 1 < |s|
    ensures s[1..][i] == s[i + 1] && s[1..][i + 1..] == s[i + 2..]
  {
  }

  lemma InFirst(a: string, b: string, k: nat)
    requires k < |a|
    ensures (a + b)[k] == a[k]
  {
  }

  /** Every quote in a printed text ends the print of a quote. */
  lemma {:induction false} QuoteOrigin(s: string, k: nat) returns (j: nat)
    requires k < |Escape(s)| && Escape(s)[k] == '"'
    ensures j < |s| && s[j] == '"'
    ensures Escape(s[j + 1..]) == Escape(s)[k + 1..]
  {
    assert s != "" by {
      assert s == "" ==> Escape(s) == "";
    }
    EscapeSplit(s);
    hide *;
    var e, more := EscapeChar(s[0]), Escape(s[1..]);
    if k < |e| {
      InFirst(e, more, k);
      EscapeCharQuote(s[0], k);
      EndOfFirst(e, more, k);
      j := 0;
    } else {
      TailOfConcat(e, more, k);
      var i := QuoteOrigin(s[1..], k - |e|);
      TailOfTail(s, i);
      j := i + 1;
    }
  }

  lemma EscapeCharQuote(c: char, k: nat)
    requires k < |EscapeChar(c)| && EscapeChar(c)[k] == '"'
    ensures c == '"' && k == 1 && |EscapeChar(c)| == 2
  {
    if c < ' ' && c != '\n' && c != '\r' && c != '\t' {
      HexDigitsArePlain(c as int / 16);
      HexDigitsArePlain(c as int % 16);
    }
  }

  lemma ClashParts(s: string)
    ensures EndsWith(s, CLASH) <==> |s| >= 8 && s[|s| - 8] == '"' && s[|s| - 7..] == WORD
  {
    assert CLASH[0] == '"' && CLASH[1..] == WORD && CLASH == ['"'] + WORD;
    if |s| >= 8 {
      var tail := s[|s| - 8..];
      assert tail == [s[|s| - 8]] + s[|s| - 7..];
      assert tail[0] == s[|s| - 8] && tail[1..] == s[|s| - 7..];
    }
  }

  lemma WordPrintsItself()
    ensures |WORD| == 7 && Escape(WORD) == WORD
  {
    PrintsItself(WORD);
  }

  lemma EscapedQuoteTail(front: string, printed: string)
    requires printed == front + (EscapeChar('"') + WORD)
    ensures EndsWith("\"" + printed, CLASH)
  {
    var text := "\"" + printed;
    assert EscapeChar('"') == ['\\', '"'];
    var n := |front|;
    assert |printed| == n + 9;
    assert printed[n + 1] == '"';
    assert printed[n + 2..] == WORD;
    assert text[n + 3..] == printed[n + 2..];
    ClashParts(text);
  }

  lemma ClashPrinted(threat: string)
    requires Clashes(threat)
    ensures EndsWith("\"" + Escape(threat), CLASH)
  {
    WordPrintsItself();
    ClashParts("\"" + Escape(threat));
    ClashParts(threat);
    hide Escape, EscapeChar;
    if threat == WORD {
      assert ("\"" + WORD)[1..] == WORD;
    } else {
      var n := |threat| - 8;
      var front := threat[..n];
      assert threat == front + (['"'] + threat[n + 1..]);
      EscapeConcat(front, ['"'] + WORD);
      EscapeOne('"', WORD);
      EscapedQuoteTail(Escape(front), Escape(threat));
    }
  }

  /** The printed threat type, with the quote before it, ends like the key exactly when the threat
      type clashes with it. */
  lemma ClashShows(threat: string)
    ensures Clashes(threat) <==> EndsWith("\"" + Escape(threat), CLASH)
  {
    if Clashes(threat) {
      ClashPrinted(threat);
    }
    if EndsWith("\"" + Escape(threat), CLASH) {
      ClashRead(threat);
    }
  }

  lemma ClashRead(threat: string)
    requires EndsWith("\"" + Escape(threat), CLASH)
    ensures Clashes(threat)
  {
    var e := Escape(threat);
    var text := "\"" + e;
    var k := |text| - 8;
    ClashParts(text);
    ClashParts(threat);
    assert text[k + 1..] == e[k..];
    hide Escape;
    if k == 0 {
      assert e[0..] == e;
      WholeWord(threat);
    } else {
      assert e[k - 1] == text[k];
      var j := QuoteOrigin(threat, k - 1);
      WholeWord(threat[j + 1..]);
    }
  }

  lemma WholeWord(s: string)
    requires Escape(s) == WORD
    ensures s == WORD
  {
    PrintsItself(s);
    assert '\\' !in WORD;
  }

  // ---------------------------------------------------------------- the fields of a built alert

  /** The object up to the threat type's closing quote, exclusive. */
  function Left(threat: string): string {
    HEAD + Escape(threat)
  }

  /** From there up to the snippet key's closing quote, exclusive. */
  function Middle(sev: Severity): string {
    TO_SEVERITY + Escape(sev.Format()) + TO_CVSS + sev.cvss + ", \"snippet"
  }

  function Right(snippet: string): string {
    "\": \"" + Escape(snippet) + TAIL
  }

  lemma RegroupParts(a: string, b: string, c: string, d: string, e: string, f: string, x: string, y: string,
                     g: string, h: string)
    ensures a + b + c + d + e + f + (x + y) + g + h == (a + b) + (c + d + e + f + x) + (y + g + h)
  {
  }

  lemma BuildParts(threat: string, sev: Severity, snippet: string)
    ensures Build(threat, sev, snippet) == Left(threat) + Middle(sev) + Right(snippet)
  {
    assert TO_SNIPPET == ", \"snippet" + "\": \"";
    hide Escape;
    RegroupParts(HEAD, Escape(threat), TO_SEVERITY, Escape(sev.Format()), TO_CVSS, sev.cvss, ", \"snippet", "\": \"",
                 Escape(snippet), TAIL);
  }

  lemma LeftQuotes(threat: string)
    ensures NoQuoteAfterT(Left(threat))
  {
    EscapeQuotes(threat);
    hide Escape;
    assert NoQuoteAfterT(HEAD);
    NoQuoteAfterTConcat(HEAD, Escape(threat));
  }

  lemma FormatEndsInParenthesis(sev: Severity)
    ensures Escape(sev.Format()) != "" && Escape(sev.Format())[|Escape(sev.Format())| - 1] == ')'
  {
    var front := sev.severityName + " (CVSS 4.0: " + sev.score + "/" + sev.rating;
    assert sev.Format() == front + ")";
    EscapeConcat(front, ")");
    EscapeOne(')', "");
    assert ")" == [')'] + "";
    hide Escape;
  }

  lemma MiddleQuotes(sev: Severity)
    ensures NoQuoteAfterT(Middle(sev))
  {
    FormatEndsInParenthesis(sev);
    EscapeQuotes(sev.Format());
    hide Escape;
    var f := Escape(sev.Format());
    assert NoQuoteAfterT(TO_SEVERITY) && NoQuoteAfterT(TO_CVSS) && NoQuoteAfterT(sev.cvss);
    assert NoQuoteAfterT(", \"snippet");
    NoQuoteAfterTConcat(TO_SEVERITY, f);
    var a := TO_SEVERITY + f;
    assert a[|a| - 1] == ')';
    NoQuoteAfterTConcat(a, TO_CVSS);
    NoQuoteAfterTConcat(a + TO_CVSS, sev.cvss);
    NoQuoteAfterTConcat(a + TO_CVSS + sev.cvss, ", \"snippet");
  }

  lemma LeftEnds(threat: string)
    ensures EndsWith(Left(threat), CLASH) <==> Clashes(threat)
  {
    ClashShows(threat);
    var e := Escape(threat);
    ClashParts(Left(threat));
    ClashParts("\"" + e);
    hide Escape, EndsWith, Clashes;
    var l, q := HEAD + e, "\"" + e;
    assert |HEAD| == 17 && HEAD[16] == '"';
    if |e| >= 7 {
      assert l[|l| - 8] == q[|q| - 8];
      assert l[|l| - 7..] == q[|q| - 7..];
    } else {
      ShortTail(e);
    }
  }

  lemma ShortTail(e: string)
    requires |e| < 7
    ensures var l := HEAD + e; l[|l| - 7..] != WORD
  {
    var l := HEAD + e;
    assert l[|l| - 7..][6 - |e|] == l[16] == '"';
  }

  lemma AnyMatchIsAtSeam(threat: string, sev: Severity, snippet: string, i: nat)
    requires MatchesAt(Build(threat, sev, snippet), KEY, i)
    requires i + 8 < |Left(threat)| + |Middle(sev)|
    ensures i + 8 == |Left(threat)| && Clashes(threat)
  {
    BuildParts(threat, sev, snippet);
    LeftQuotes(threat);
    MiddleQuotes(sev);
    LeftEnds(threat);
    hide Left, Middle, Right, Build, Clashes, EndsWith, NoQuoteAfterT;
    var front := Left(threat) + Middle(sev);
    var json := front + Right(snippet);
    assert front[i..i + 9] == json[i..i + 9];
    KeyOnlyAtSeam(Left(threat), Middle(sev), i);
  }

  lemma ValueRead(json: string, key: string, start: nat, text: string)
    requires ValueStart(json, key) == Some(start) && start <= |json|
    requires Escape(text) + "\"" <= json[start..]
    ensures Extract(json, key) == Lossy(text)
  {
    var rest := json[start..][|Escape(text)| + 1..];
    assert json[start..] == Escape(text) + "\"" + rest;
    ReadEscapedString(text, rest);
  }

  lemma ValueStartAt(json: string, key: string, at: nat, colon: nat, open: nat)
    requires MatchesAt(json, Quoted(key), at) && forall i: nat | i < at :: !MatchesAt(json, Quoted(key), i)
    requires at + |key| + 2 <= colon < open < |json|
    requires json[colon] == ':' && forall i: nat | at + |key| + 2 <= i < colon :: json[i] != ':'
    requires json[open] == '"' && forall i: nat | colon < i < open :: json[i] != '"'
    ensures ValueStart(json, key) == Some(open + 1)
  {
    FindIs(json, Quoted(key), 0, at);
    FindChar(json, ':', at + |key| + 2, colon);
    FindChar(json, '"', colon + 1, open);
    hide Find, MatchesAt, Quoted;
  }

  lemma ThreatTypeStart(json: string, rest: string)
    requires json == HEAD + rest
    ensures ValueStart(json, "threat_type") == Some(|HEAD|)
  {
    assert forall k | 0 <= k < 17 :: json[k] == HEAD[k];
    assert json[1..14] == HEAD[1..14] == Quoted("threat_type");
    assert json[0..13][0] != '"';
    ValueStartAt(json, "threat_type", 1, 14, 16);
  }

  /** The threat type read back: exact, but for control characters the extractor cannot decode. */
  lemma ThreatTypeExtracted(threat: string, sev: Severity, snippet: string)
    ensures Extract(Build(threat, sev, snippet), "threat_type") == Lossy(threat)
  {
    var json := Build(threat, sev, snippet);
    BuildParts(threat, sev, snippet);
    var mid := Middle(sev);
    assert |mid| >= 1 && mid[0] == '"' by {
      assert TO_SEVERITY[0] == '"';
    }
    var e, r := Escape(threat), Right(snippet);
    hide Build, Middle, Right, Escape, ValueStart;
    ThreatTypeParts(json, e, mid, r);
    ThreatTypeStart(json, e + mid + r);
    ValueRead(json, "threat_type", |HEAD|, threat);
  }

  lemma ThreatTypeParts(json: string, e: string, mid: string, r: string)
    requires json == HEAD + e + mid + r && mid != "" && mid[0] == '"'
    ensures json == HEAD + (e + mid + r)
    ensures e + "\"" <= json[|HEAD|..]
  {
    assert json == HEAD + (e + mid + r);
    assert json[|HEAD|..] == e + mid + r;
    assert (e + mid + r)[..|e| + 1] == e + "\"";
  }

  lemma SeamMatches(left: string, right: string)
    requires EndsWith(left, CLASH) && right != "" && right[0] == '"'
    ensures MatchesAt(left + right, KEY, |left| - 8)
  {
    var n := |left|;
    var s := left + right;
    assert |CLASH| == 8 && KEY == CLASH + ['"'];
    assert s[n - 8..n + 1] == left[n - 8..] + [right[0]];
  }

  lemma NoMatchBefore(threat: string, sev: Severity, snippet: string, n: nat)
    requires n <= |Left(threat)| + |Middle(sev)|
    requires n <= |Left(threat)| || !Clashes(threat)
    ensures forall i: nat | i + 8 < n :: !MatchesAt(Build(threat, sev, snippet), KEY, i)
  {
    forall i: nat | i + 8 < n
      ensures !MatchesAt(Build(threat, sev, snippet), KEY, i)
    {
      if MatchesAt(Build(threat, sev, snippet), KEY, i) {
        AnyMatchIsAtSeam(threat, sev, snippet, i);
      }
    }
  }

  /** The value starts right behind a seam whose right side opens with `": "`. */
  lemma StartBehindSeam(left: string, right: string)
    requires EndsWith(left, CLASH) && |right| >= 4
    requires right[0] == '"' && right[1] == ':' && right[2] == ' ' && right[3] == '"'
    requires forall i: nat | i + 8 < |left| :: !MatchesAt(left + right, KEY, i)
    ensures ValueStart(left + right, "snippet") == Some(|left| + 4)
  {
    SeamMatches(left, right);
    assert Quoted("snippet") == KEY;
    var n := |left|;
    var json := left + right;
    assert json[n + 1] == right[1] && json[n + 2] == right[2] && json[n + 3] == right[3];
    hide MatchesAt, EndsWith, Quoted;
    ValueStartAt(json, "snippet", n - 8, n + 1, n + 3);
  }

  /** The value starts behind the severity key, if the seam opens it. */
  lemma StartBehindSeverity(left: string, right: string)
    requires EndsWith(left, CLASH) && TO_SEVERITY <= right
    requires forall i: nat | i + 8 < |left| :: !MatchesAt(left + right, KEY, i)
    ensures ValueStart(left + right, "snippet") == Some(|left| + |TO_SEVERITY|)
  {
    SeamMatches(left, right);
    assert Quoted("snippet") == KEY;
    var n := |left|;
    var json := left + right;
    forall i: nat | n <= i < n + 16
      ensures json[i] == TO_SEVERITY[i - n]
    {
      assert json[i] == right[i - n] == right[..16][i - n];
    }
    hide MatchesAt, EndsWith, Quoted;
    assert json[n + 13] == ':' && json[n + 14] == ' ' && json[n + 15] == '"';
    ValueStartAt(json, "snippet", n - 8, n + 13, n + 15);
  }

  lemma MiddleEnds(sev: Severity)
    ensures EndsWith(Middle(sev), CLASH)
  {
    hide Escape;
    assert ", \"snippet"[2..] == CLASH;
  }

  lemma RightStarts(snippet: string)
    ensures |Right(snippet)| >= 4
    ensures Right(snippet)[0] == '"' && Right(snippet)[1] == ':' && Right(snippet)[2] == ' ' && Right(snippet)[3] == '"'
    ensures Escape(snippet) + "\"" <= Right(snippet)[4..]
  {
    hide Escape;
    assert TAIL == "\"" + "}";
    assert Right(snippet)[4..] == Escape(snippet) + "\"" + "}";
  }

  lemma EndsWithConcat(a: string, b: string, suffix: string)
    requires EndsWith(b, suffix)
    ensures EndsWith(a + b, suffix)
  {
  }

  lemma DropConcat(a: string, b: string, k: nat)
    requires k <= |b|
    ensures (a + b)[|a| + k..] == b[k..]
  {
  }

  lemma ExtractWithoutClash(threat: string, sev: Severity, snippet: string)
    requires !Clashes(threat)
    ensures Extract(Build(threat, sev, snippet), "snippet") == Lossy(snippet)
  {
    hide Build, Left, Middle, Right, Escape, ValueStart, Clashes, MatchesAt, EndsWith, Extract;
    var left, right := Left(threat) + Middle(sev), Right(snippet);
    BuildParts(threat, sev, snippet);
    NoMatchBefore(threat, sev, snippet, |left|);
    MiddleEnds(sev);
    EndsWithConcat(Left(threat), Middle(sev), CLASH);
    RightStarts(snippet);
    StartBehindSeam(left, right);
    DropConcat(left, right, 4);
    ValueRead(left + right, "snippet", |left| + 4, snippet);
  }

  lemma ExtractWithClash(threat: string, sev: Severity, snippet: string)
    requires Clashes(threat)
    ensures Extract(Build(threat, sev, snippet), "snippet") == Lossy(sev.Format())
  {
    hide Build, Left, Middle, Right, Escape, ValueStart, Clashes, MatchesAt, EndsWith, Extract;
    var left, right := Left(threat), Middle(sev) + Right(snippet);
    BuildParts(threat, sev, snippet);
    Associate(Left(threat), Middle(sev), Right(snippet));
    NoMatchBefore(threat, sev, snippet, |left|);
    LeftEnds(threat);
    MiddleStarts(sev, snippet);
    StartBehindSeverity(left, right);
    DropConcat(left, right, |TO_SEVERITY|);
    ValueRead(left + right, "snippet", |left| + |TO_SEVERITY|, sev.Format());
  }

  lemma MiddleStarts(sev: Severity, snippet: string)
    ensures var right := Middle(sev) + Right(snippet);
            TO_SEVERITY <= right && Escape(sev.Format()) + "\"" <= right[|TO_SEVERITY|..]
  {
    var f := Escape(sev.Format());
    var tail := sev.cvss + ", \"snippet" + Right(snippet);
    hide Escape, Right;
    var right := Middle(sev) + Right(snippet);
    assert right == TO_SEVERITY + (f + (TO_CVSS + tail));
    assert right[|TO_SEVERITY|..] == f + (TO_CVSS + tail);
    assert TO_CVSS[0] == '"';
    assert (f + (TO_CVSS + tail))[..|f| + 1] == f + "\"";
  }

  /** The snippet field read back, for all inputs: a threat type that clashes with the key makes the
      extractor return the severity text instead. */
  lemma SnippetExtracted(threat: string, sev: Severity, snippet: string)
    ensures Extract(Build(threat, sev, snippet), "snippet")
            == if Clashes(threat) then Lossy(sev.Format()) else Lossy(snippet)
  {
    if Clashes(threat) {
      ExtractWithClash(threat, sev, snippet);
    } else {
      ExtractWithoutClash(threat, sev, snippet);
    }
  }

  /** Alert round trip, exactly. The threat type comes back unchanged if and only if it has no control
      character other than newline, carriage return and tab; the snippet if and only if the same holds
      for it and the threat type does not clash with the key "snippet" (or the snippet happens to be
      what is read instead). */
  lemma AlertRoundTrip(threat: string, sev: Severity, snippet: string)
    ensures var json := Build(threat, sev, snippet);
            && (Extract(json, "threat_type") == threat <==> Clean(threat))
            && (Extract(json, "snippet") == snippet
                <==> if Clashes(threat) then snippet == Lossy(sev.Format()) else Clean(snippet))
  {
    ThreatTypeExtracted(threat, sev, snippet);
    SnippetExtracted(threat, sev, snippet);
    LossyExactlyWhenClean(threat);
    LossyExactlyWhenClean(snippet);
    hide Build, Extract, Lossy, Clashes;
  }
}
