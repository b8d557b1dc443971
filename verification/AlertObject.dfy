/** What a conforming reader makes of a built alert (RFC 8259), for the escapes and numbers it prints. */
module AlertObject {
  import opened Sequences
  import opened Options
  import opened Decimal
  import opened AlertJson

  // ---------------------------------------------------------------- strings

  function HexValue(c: char): Option<nat> {
    if '0' <= c <= '9' then Some(c as int - '0' as int)
    else if 'a' <= c <= 'f' then Some(c as int - 'a' as int + 10)
    else None
  }

  /** What was read, and the text behind it. */
  datatype Read<+T> = Read(value: T, rest: string)

  function Front(c: char, r: Option<Read<string>>): Option<Read<string>> {
    match r
    case None => None
    case Some(read) => Some(Read([c] + read.value, read.rest))
  }

  /** String contents up to the closing quote (section 7 of RFC 8259). */
  function ReadText(text: string): (r: Option<Read<string>>)
    ensures r.Some? ==> |r.value.rest| < |text|
  {
    if text == "" || text[0] < ' ' then None
    else if text[0] == '"' then Some(Read("", text[1..]))
    else if text[0] != '\\' then Front(text[0], ReadText(text[1..]))
    else if |text| >= 2 && text[1] in "\"\\nrt" then Front(UnescapeChar(text[1]), ReadText(text[2..]))
    else if |text| >= 6 && text[1..4] == "u00" && HexValue(text[4]).Some? && HexValue(text[5]).Some? then
      Front((16 * HexValue(text[4]).value + HexValue(text[5]).value) as char, ReadText(text[6..]))
    else None
  }

  lemma HexDigitValue(n: nat)
    requires n < 16
    ensures HexValue(HexDigit(n)) == Some(n)
  {
  }

  lemma PlainRead(c: char, rest: string)
    requires c >= ' ' && c != '"' && c != '\\'
    ensures ReadText([c] + rest) == Front(c, ReadText(rest))
  {
    assert ([c] + rest)[1..] == rest;
  }

  lemma ShortEscapeRead(d: char, rest: string)
    requires d in "\"\\nrt"
    ensures ReadText(['\\', d] + rest) == Front(UnescapeChar(d), ReadText(rest))
  {
    assert (['\\', d] + rest)[2..] == rest;
  }

  lemma UnicodeEscapeRead(n: nat, rest: string)
    requires n < 0x20
    ensures ReadText("\\u00" + [HexDigit(n / 16), HexDigit(n % 16)] + rest) == Front(n as char, ReadText(rest))
  {
    var text := "\\u00" + [HexDigit(n / 16), HexDigit(n % 16)] + rest;
    HexDigitValue(n / 16);
    HexDigitValue(n % 16);
    hide HexDigit, HexValue;
    assert text[1..4] == "u00" && text[6..] == rest && text[1] == 'u';
  }

  lemma CharRead(c: char, rest: string)
    ensures ReadText(EscapeChar(c) + rest) == Front(c, ReadText(rest))
  {
    hide ReadText, HexDigit;
    if c == '"' || c == '\\' || c == '\n' || c == '\r' || c == '\t' {
      var d := EscapeChar(c)[1];
      assert EscapeChar(c) == ['\\', d] && UnescapeChar(d) == c;
      ShortEscapeRead(d, rest);
    } else if c < ' ' {
      UnicodeEscapeRead(c as int, rest);
    } else {
      PlainRead(c, rest);
    }
  }

  /** A conforming reader recovers every string from its escaped form, and goes on behind the quote. */
  lemma {:induction false} EscapeIsLossless(s: string, rest: string)
    ensures ReadText(Escape(s) + ("\"" + rest)) == Some(Read(s, rest))
  {
    if s == "" {
      assert Escape(s) + ("\"" + rest) == "\"" + rest;
      assert ("\"" + rest)[1..] == rest;
    } else {
      EscapeSplit(s);
      hide ReadText, Escape, EscapeChar;
      EscapeIsLossless(s[1..], rest);
      CharRead(s[0], Escape(s[1..]) + ("\"" + rest));
      Associate(EscapeChar(s[0]), Escape(s[1..]), "\"" + rest);
      assert s == [s[0]] + s[1..];
    }
  }

  // ---------------------------------------------------------------- numbers

  function SignSize(s: string): (n: nat)
    ensures n <= |s|
  {
    if s != "" && s[0] == '-' then 1 else 0
  }

  function FractionSize(s: string): (n: nat)
    ensures n <= |s|
  {
    if s != "" && s[0] == '.' && DigitCount(s[1..]) > 0 then 1 + DigitCount(s[1..]) else 0
  }

  /** How much of the text is a number without an exponent (section 6 of RFC 8259): no leading zeros. */
  function NumberSize(s: string): (n: nat)
    ensures n <= |s|
  {
    var sign := SignSize(s);
    var digits := DigitCount(s[sign..]);
    if digits == 0 || (digits > 1 && s[sign] == '0') then 0
    else sign + digits + FractionSize(s[sign + digits..])
  }

  predicate IsNumber(s: string) {
    s != "" && NumberSize(s) == |s|
  }

  predicate EndsNumber(rest: string) {
    rest == "" || (!IsDigit(rest[0]) && rest[0] != '.')
  }

  lemma {:induction false} SameDigits(s: string, rest: string)
    requires rest == "" || !IsDigit(rest[0])
    ensures DigitCount(s + rest) == DigitCount(s)
  {
    if s == "" {
      assert s + rest == rest;
    } else {
      assert (s + rest)[1..] == s[1..] + rest;
      SameDigits(s[1..], rest);
    }
  }

  lemma DropWithin<T>(s: seq<T>, rest: seq<T>, k: nat)
    requires k <= |s|
    ensures (s + rest)[k..] == s[k..] + rest
  {
  }

  lemma SameFraction(s: string, rest: string)
    requires EndsNumber(rest)
    ensures FractionSize(s + rest) == FractionSize(s)
  {
    if s == "" {
      assert s + rest == rest;
    } else {
      DropWithin(s, rest, 1);
      SameDigits(s[1..], rest);
      assert (s + rest)[0] == s[0];
    }
  }

  lemma NumberEnds(s: string, rest: string)
    requires IsNumber(s) && EndsNumber(rest)
    ensures NumberSize(s + rest) == |s|
  {
    var sign := SignSize(s);
    var digits := DigitCount(s[sign..]);
    assert SignSize(s + rest) == sign;
    DropWithin(s, rest, sign);
    SameDigits(s[sign..], rest);
    DropWithin(s, rest, sign + digits);
    SameFraction(s[sign + digits..], rest);
    hide DigitCount, FractionSize;
    assert digits > 0 ==> (s + rest)[sign] == s[sign];
  }

  // ---------------------------------------------------------------- objects

  datatype Value = Text(text: string) | Number(digits: string)

  datatype Member = Member(key: string, value: Value)

  /** Insignificant whitespace (section 2 of RFC 8259). */
  function Skip(s: string): (r: string)
    ensures |r| <= |s|
  {
    if s != "" && (s[0] == ' ' || s[0] == '\t' || s[0] == '\n' || s[0] == '\r') then Skip(s[1..]) else s
  }

  function ReadValue(s: string): (r: Option<Read<Value>>)
    ensures r.Some? ==> |r.value.rest| <= |s|
  {
    if s != "" && s[0] == '"' then
      match ReadText(s[1..])
      case None => None
      case Some(read) => Some(Read(Text(read.value), read.rest))
    else if NumberSize(s) > 0 then Some(Read(Number(s[..NumberSize(s)]), s[NumberSize(s)..]))
    else None
  }

  /** A key, a colon and a value. */
  function ReadMember(text: string): (r: Option<Read<Member>>)
    ensures r.Some? ==> |r.value.rest| < |text|
  {
    var s := Skip(text);
    if s == "" || s[0] != '"' then None
    else
      match ReadText(s[1..])
      case None => None
      case Some(key) =>
        var t := Skip(key.rest);
        if t == "" || t[0] != ':' then None
        else
          match ReadValue(Skip(t[1..]))
          case None => None
          case Some(value) => Some(Read(Member(key.value, value.value), value.rest))
  }

  /** Members up to the closing brace, behind which nothing may follow. */
  function ReadMembers(text: string): Option<seq<Member>>
    decreases |text|
  {
    match ReadMember(text)
    case None => None
    case Some(member) =>
      var s := Skip(member.rest);
      if s == "" then None
      else if s[0] == '}' then (if Skip(s[1..]) == "" then Some([member.value]) else None)
      else if s[0] != ',' then None
      else
        match ReadMembers(s[1..])
        case None => None
        case Some(more) => Some([member.value] + more)
  }

  function ReadObject(text: string): Option<seq<Member>> {
    var s := Skip(text);
    if s == "" || s[0] != '{' then None else ReadMembers(s[1..])
  }

  // ---------------------------------------------------------------- the members of an alert

  predicate Plain(key: string) {
    forall i | 0 <= i < |key| :: key[i] >= ' ' && key[i] != '"' && key[i] != '\\'
  }

  lemma SkipOne(s: string)
    requires s != "" && s[0] != ' ' && s[0] != '\t' && s[0] != '\n' && s[0] != '\r'
    ensures Skip(s) == s && Skip(" " + s) == s
  {
    assert (" " + s)[1..] == s;
  }

  lemma KeyRead(key: string, rest: string)
    requires Plain(key)
    ensures ReadText(key + ("\"" + rest)) == Some(Read(key, rest))
  {
    hide ReadText;
    PrintsItself(key);
    EscapeIsLossless(key, rest);
  }

  /** A member as the alert prints it, behind an optional blank. */
  lemma MemberRead(key: string, value: string, after: Value, rest: string)
    requires Plain(key) && value != "" && (value[0] == '"' || value[0] == '-' || IsDigit(value[0]))
    requires ReadValue(value) == Some(Read(after, rest))
    ensures var text := "\"" + (key + ("\"" + (": " + value)));
            && ReadMember(text) == Some(Read(Member(key, after), rest))
            && ReadMember(" " + text) == Some(Read(Member(key, after), rest))
  {
    hide ReadText, ReadValue;
    var text := "\"" + (key + ("\"" + (": " + value)));
    SkipOne(text);
    KeyRead(key, ": " + value);
    assert text[1..] == key + ("\"" + (": " + value));
    SkipOne(": " + value);
    assert (": " + value)[1..] == " " + value;
    SkipOne(value);
  }

  lemma TextValue(s: string, rest: string)
    ensures ReadValue("\"" + (Escape(s) + ("\"" + rest))) == Some(Read(Text(s), rest))
  {
    hide ReadText, Escape;
    EscapeIsLossless(s, rest);
    var text := "\"" + (Escape(s) + ("\"" + rest));
    assert text[1..] == Escape(s) + ("\"" + rest);
  }

  lemma NumberStarts(s: string)
    requires IsNumber(s)
    ensures s[0] == '-' || IsDigit(s[0])
  {
    if s[0] != '-' {
      assert s[0..] == s;
    }
  }

  lemma NumberValue(s: string, rest: string)
    requires IsNumber(s) && EndsNumber(rest)
    ensures ReadValue(s + rest) == Some(Read(Number(s), rest))
  {
    NumberStarts(s);
    NumberEnds(s, rest);
    hide NumberSize, ReadText;
    assert (s + rest)[0] == s[0];
    assert (s + rest)[..|s|] == s && (s + rest)[|s|..] == rest;
  }

  lemma MoreMembers(text: string, member: Member, rest: string, more: seq<Member>)
    requires ReadMember(text) == Some(Read(member, "," + rest)) && ReadMembers(rest) == Some(more)
    ensures ReadMembers(text) == Some([member] + more)
  {
    hide ReadMember;
    SkipOne("," + rest);
    assert ("," + rest)[1..] == rest;
  }

  lemma LastMember(text: string, member: Member)
    requires ReadMember(text) == Some(Read(member, "}"))
    ensures ReadMembers(text) == Some([member])
  {
    hide ReadMember;
    SkipOne("}");
    assert "}"[1..] == "";
  }

  /** The text of one member with its value and what follows. */
  function MemberText(key: string, value: string): string {
    "\"" + (key + ("\"" + (": " + value)))
  }

  function Quote(s: string, rest: string): string {
    "\"" + (Escape(s) + ("\"" + rest))
  }

  lemma Flatten(a: string, b: string, c: string, d: string, e: string, rest: string)
    ensures a + (b + (c + (d + (e + rest)))) == a + b + c + d + e + rest
  {
  }

  lemma HeadJoint(rest: string)
    ensures "{" + MemberText("threat_type", "\"" + rest) == HEAD + rest
  {
    Flatten("\"", "threat_type", "\"", ": ", "\"", rest);
    assert "\"" + "threat_type" + "\"" + ": " + "\"" == "\"threat_type\": \"";
    Associate("{", "\"threat_type\": \"", rest);
    assert "{" + "\"threat_type\": \"" == HEAD;
  }

  lemma SeverityJoint(rest: string)
    ensures "\"" + ("," + (" " + MemberText("severity", "\"" + rest))) == TO_SEVERITY + rest
  {
    Flatten("\"", "severity", "\"", ": ", "\"", rest);
    assert "\"" + "severity" + "\"" + ": " + "\"" == "\"severity\": \"";
    Associate(" ", "\"severity\": \"", rest);
    Associate(",", " " + "\"severity\": \"", rest);
    Associate("\"", "," + (" " + "\"severity\": \""), rest);
    assert "\"" + ("," + (" " + "\"severity\": \"")) == TO_SEVERITY;
  }

  lemma CvssJoint(rest: string)
    ensures "\"" + ("," + (" " + MemberText("cvss", rest))) == TO_CVSS + rest
  {
    Flatten(" ", "\"", "cvss", "\"", ": ", rest);
    assert " " + "\"" + "cvss" + "\"" + ": " == " \"cvss\": ";
    Associate(",", " \"cvss\": ", rest);
    Associate("\"", "," + " \"cvss\": ", rest);
    assert "\"" + ("," + " \"cvss\": ") == TO_CVSS;
  }

  lemma SnippetJoint(rest: string)
    ensures "," + (" " + MemberText("snippet", "\"" + rest)) == TO_SNIPPET + rest
  {
    Flatten("\"", "snippet", "\"", ": ", "\"", rest);
    assert "\"" + "snippet" + "\"" + ": " + "\"" == "\"snippet\": \"";
    Associate(" ", "\"snippet\": \"", rest);
    Associate(",", " " + "\"snippet\": \"", rest);
    assert "," + (" " + "\"snippet\": \"") == TO_SNIPPET;
  }

  lemma RightNested(a: string, b: string, c: string, d: string, e: string, f: string, g: string, h: string, i: string)
    ensures a + b + c + d + e + f + g + h + i == a + (b + (c + (d + (e + (f + (g + (h + i)))))))
  {
  }

  function SnippetPart(snippet: string): string {
    " " + MemberText("snippet", Quote(snippet, "}"))
  }

  function CvssPart(cvss: string, snippet: string): string {
    " " + MemberText("cvss", cvss + ("," + SnippetPart(snippet)))
  }

  function SeverityPart(severity: string, cvss: string, snippet: string): string {
    " " + MemberText("severity", Quote(severity, "," + CvssPart(cvss, snippet)))
  }

  function ThreatPart(threat: string, severity: string, cvss: string, snippet: string): string {
    MemberText("threat_type", Quote(threat, "," + SeverityPart(severity, cvss, snippet)))
  }

  lemma BuildIsMembers(threat: string, sev: Severity, snippet: string)
    ensures Build(threat, sev, snippet) == "{" + ThreatPart(threat, sev.Format(), sev.cvss, snippet)
  {
    var f := sev.Format();
    hide Escape, MemberText;
    assert TAIL == "\"" + "}";
    SnippetJoint(Escape(snippet) + TAIL);
    CvssJoint(sev.cvss + ("," + SnippetPart(snippet)));
    SeverityJoint(Escape(f) + ("\"" + ("," + CvssPart(sev.cvss, snippet))));
    HeadJoint(Escape(threat) + ("\"" + ("," + SeverityPart(f, sev.cvss, snippet))));
    RightNested(HEAD, Escape(threat), TO_SEVERITY, Escape(f), TO_CVSS, sev.cvss, TO_SNIPPET, Escape(snippet), TAIL);
  }

  lemma TextMember(key: string, text: string, rest: string)
    requires Plain(key)
    ensures ReadMember(MemberText(key, Quote(text, rest))) == Some(Read(Member(key, Text(text)), rest))
    ensures ReadMember(" " + MemberText(key, Quote(text, rest))) == Some(Read(Member(key, Text(text)), rest))
  {
    hide ReadMember, ReadValue, Escape, Plain;
    TextValue(text, rest);
    MemberRead(key, Quote(text, rest), Text(text), rest);
  }

  lemma NumberMember(key: string, number: string, rest: string)
    requires Plain(key) && IsNumber(number)
    ensures ReadMember(" " + MemberText(key, number + ("," + rest)))
            == Some(Read(Member(key, Number(number)), "," + rest))
  {
    NumberStarts(number);
    hide ReadMember, ReadValue, IsNumber, Plain;
    NumberValue(number, "," + rest);
    assert (number + ("," + rest))[0] == number[0];
    MemberRead(key, number + ("," + rest), Number(number), "," + rest);
  }

  lemma SnippetRead(snippet: string)
    ensures ReadMembers(SnippetPart(snippet)) == Some([Member("snippet", Text(snippet))])
  {
    hide ReadMembers, ReadMember, MemberText, Quote;
    TextMember("snippet", snippet, "}");
    LastMember(SnippetPart(snippet), Member("snippet", Text(snippet)));
  }

  lemma CvssRead(cvss: string, snippet: string)
    requires IsNumber(cvss)
    ensures ReadMembers(CvssPart(cvss, snippet))
            == Some([Member("cvss", Number(cvss))] + [Member("snippet", Text(snippet))])
  {
    hide ReadMembers, ReadMember, ReadValue, IsNumber, SnippetPart, MemberText;
    var rest := SnippetPart(snippet);
    SnippetRead(snippet);
    NumberMember("cvss", cvss, rest);
    MoreMembers(CvssPart(cvss, snippet), Member("cvss", Number(cvss)), rest, [Member("snippet", Text(snippet))]);
  }

  lemma PartIs(severity: string, cvss: string, snippet: string)
    ensures SeverityPart(severity, cvss, snippet)
            == " " + MemberText("severity", Quote(severity, "," + CvssPart(cvss, snippet)))
    ensures Plain("severity") && Plain("threat_type")
  {
    hide Quote, CvssPart, MemberText;
  }

  lemma SeverityRead(severity: string, cvss: string, snippet: string)
    requires IsNumber(cvss)
    ensures ReadMembers(SeverityPart(severity, cvss, snippet))
            == Some([Member("severity", Text(severity))]
                    + ([Member("cvss", Number(cvss))] + [Member("snippet", Text(snippet))]))
  {
    PartIs(severity, cvss, snippet);
    hide *;
    CvssRead(cvss, snippet);
    var third := CvssPart(cvss, snippet);
    TextMember("severity", severity, "," + third);
    MoreMembers(SeverityPart(severity, cvss, snippet), Member("severity", Text(severity)), third,
                [Member("cvss", Number(cvss))] + [Member("snippet", Text(snippet))]);
  }

  function Members(threat: string, severity: string, cvss: string, snippet: string): seq<Member> {
    [Member("threat_type", Text(threat))]
    + ([Member("severity", Text(severity))] + ([Member("cvss", Number(cvss))] + [Member("snippet", Text(snippet))]))
  }

  lemma ThreatRead(threat: string, severity: string, cvss: string, snippet: string)
    requires IsNumber(cvss)
    ensures ReadMembers(ThreatPart(threat, severity, cvss, snippet)) == Some(Members(threat, severity, cvss, snippet))
  {
    PartIs(severity, cvss, snippet);
    hide ReadMembers, ReadMember, IsNumber, MemberText, Quote, SeverityPart, CvssPart, Plain;
    var second := SeverityPart(severity, cvss, snippet);
    SeverityRead(severity, cvss, snippet);
    TextMember("threat_type", threat, "," + second);
    MoreMembers(ThreatPart(threat, severity, cvss, snippet), Member("threat_type", Text(threat)), second,
                [Member("severity", Text(severity))]
                + ([Member("cvss", Number(cvss))] + [Member("snippet", Text(snippet))]));
  }

  lemma BracedRead(members: string)
    ensures ReadObject("{" + members) == ReadMembers(members)
  {
    hide ReadMembers;
    SkipOne("{" + members);
    assert ("{" + members)[1..] == members;
  }

  /** The whole object: whatever threat type and snippet hold, also where the field extractor fails, a
      conforming reader finds the four members with the values they were built from. */
  lemma AlertIsLossless(threat: string, sev: Severity, snippet: string)
    requires IsNumber(sev.cvss)
    ensures ReadObject(Build(threat, sev, snippet))
            == Some([Member("threat_type", Text(threat)), Member("severity", Text(sev.Format())),
                     Member("cvss", Number(sev.cvss)), Member("snippet", Text(snippet))])
  {
    hide Build, ReadObject, ReadMembers, IsNumber, ThreatPart;
    BuildIsMembers(threat, sev, snippet);
    BracedRead(ThreatPart(threat, sev.Format(), sev.cvss, snippet));
    ThreatRead(threat, sev.Format(), sev.cvss, snippet);
    FourMembers(Member("threat_type", Text(threat)), Member("severity", Text(sev.Format())),
                Member("cvss", Number(sev.cvss)), Member("snippet", Text(snippet)));
  }

  lemma FourMembers(a: Member, b: Member, c: Member, d: Member)
    ensures [a] + ([b] + ([c] + [d])) == [a, b, c, d]
  {
  }
}
