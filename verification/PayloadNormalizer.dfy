/** Anti-evasion canonicalisation of payloads. Bytes are modelled as the characters 0 to 255. */
module PayloadNormalizer {
  import opened Sequences
  import opened Options
  import opened Strings

  const MAX_NORM: nat := 65536
  const PASSES: nat := 3

  // ---------------------------------------------------------------- percent decoding

  function HexVal(c: char): int {
    if '0' <= c <= '9' then c as int - '0' as int
    else if 'a' <= c <= 'f' then c as int - 'a' as int + 10
    else if 'A' <= c <= 'F' then c as int - 'A' as int + 10
    else -1
  }

  predicate IsHex(c: char) {
    HexVal(c) >= 0
  }

  function Byte(high: char, low: char): char
    requires IsHex(high) && IsHex(low)
  {
    (HexVal(high) * 16 + HexVal(low)) as char
  }

  /** One decoding step: the character produced, how many are consumed, whether anything changed. */
  datatype Item = Item(out: char, used: nat, changed: bool)

  function First(s: string): (r: Item)
    requires s != ""
    ensures 1 <= r.used <= |s|
  {
    if s[0] == '%' && |s| > 1 && (s[1] == 'u' || s[1] == 'U') then
      if |s| > 5 && IsHex(s[4]) && IsHex(s[5]) then Item(Byte(s[4], s[5]), 6, true) else Item('%', 1, false)
    else if s[0] == '%' && |s| > 2 && IsHex(s[1]) && IsHex(s[2]) then Item(Byte(s[1], s[2]), 3, true)
    else if s[0] == '+' then Item(' ', 1, true)
    else Item(s[0], 1, false)
  }

  function Decode(s: string): string {
    if s == "" then "" else [First(s).out] + Decode(s[First(s).used..])
  }

  predicate Changes(s: string) {
    s != "" && (First(s).changed || Changes(s[First(s).used..]))
  }

  lemma DecodeFrom(s: string, i: nat, out: string)
    requires i < |s|
    ensures var f := First(s[i..]);
            && out + Decode(s[i..]) == out + [f.out] + Decode(s[i + f.used..])
            && (Changes(s[i..]) <==> f.changed || Changes(s[i + f.used..]))
  {
    hide First;
    var f := First(s[i..]);
    assert s[i..][f.used..] == s[i + f.used..];
  }

  /** Decodes the item at position `i`. */
  method DecodeAt(text: string, i: nat) returns (r: Item)
    requires i < |text|
    ensures r == First(text[i..])
  {
    if text[i] == '%' && i + 1 < |text| && (text[i + 1] == 'u' || text[i + 1] == 'U') {
      if i + 5 < |text| {
        var h1, h2 := HexVal(text[i + 4]), HexVal(text[i + 5]);
        if h1 >= 0 && h2 >= 0 {
          return Item((h1 * 16 + h2) as char, 6, true);
        }
      }
      return Item(text[i], 1, false);
    } else if text[i] == '%' && i + 2 < |text| {
      var h1, h2 := HexVal(text[i + 1]), HexVal(text[i + 2]);
      if h1 >= 0 && h2 >= 0 {
        return Item((h1 * 16 + h2) as char, 3, true);
      }
      return Item(text[i], 1, false);
    } else if text[i] == '+' {
      return Item(' ', 1, true);
    } else {
      return Item(text[i], 1, false);
    }
  }

  method PercentDecodeOnce(text: string) returns (out: string, changed: bool)
    ensures out == Decode(text) && changed == Changes(text)
  {
    out, changed := "", false;
    var i := 0;
    assert text[0..] == text;
    while i < |text|
      invariant i <= |text|
      invariant out + Decode(text[i..]) == Decode(text)
      invariant changed || Changes(text[i..]) <==> Changes(text)
      decreases |text| - i
    {
      DecodeFrom(text, i, out);
      hide Decode, Changes, First;
      var r := DecodeAt(text, i);
      out := out + [r.out];
      changed := changed || r.changed;
      i := i + r.used;
    }
  }

  lemma FirstUnchanged(s: string)
    requires s != "" && !First(s).changed
    ensures First(s).used == 1 && First(s).out == s[0]
  {
  }

  lemma {:induction false} UnchangedIsFixed(s: string)
    requires !Changes(s)
    ensures Decode(s) == s
  {
    if s != "" {
      FirstUnchanged(s);
      hide First;
      UnchangedIsFixed(s[1..]);
      assert s == [s[0]] + s[1..];
    }
  }

  function DecodeTimes(s: string, n: nat): string
    decreases n
  {
    if n == 0 then s else DecodeTimes(Decode(s), n - 1)
  }

  lemma {:induction false} FixedStaysFixed(s: string, n: nat)
    requires !Changes(s)
    ensures DecodeTimes(s, n) == s
    decreases n
  {
    if n > 0 {
      UnchangedIsFixed(s);
      FixedStaysFixed(s, n - 1);
    }
  }

  // ---------------------------------------------------------------- comments, blanks, case

  predicate IsBlank(c: char) {
    c == ' ' || c == '\t' || c == '\n' || c == '\r' || c as int == 11 || c as int == 12
  }

  function Lower(c: char): char {
    if 'A' <= c <= 'Z' then (c as int - 'A' as int + 'a' as int) as char else c
  }

  function After(s: string, end: Option<nat>, skip: nat): (rest: string)
    ensures |rest| <= |s|
    ensures s != "" && skip > 0 ==> |rest| < |s|
  {
    match end
    case None => ""
    case Some(p) => if p + skip <= |s| then s[p + skip..] else ""
  }

  function Fold(s: string, prevSpace: bool): string
    decreases |s|
  {
    if s == "" then ""
    else if MatchesAt(s, "/*", 0) then Fold(After(s, Find(s, "*/", 2), 2), prevSpace)
    else if MatchesAt(s, "--", 0) then Fold(After(s, Find(s, "\n", 0), 1), prevSpace)
    else if IsBlank(s[0]) then (if prevSpace then "" else " ") + Fold(s[1..], true)
    else [Lower(s[0])] + Fold(s[1..], false)
  }

  /** The capped payload with its percent-encoding undone. */
  function Decoded(raw: string): string {
    DecodeTimes(raw[..if |raw| < MAX_NORM then |raw| else MAX_NORM], PASSES)
  }

  function Normalize(raw: string): string {
    Fold(Decoded(raw), false)
  }

  /** Searching a suffix finds the same place. */
  lemma {:induction false} FindInSuffix(s: string, pattern: string, i: nat, k: nat)
    requires i + k <= |s| && pattern != ""
    ensures match Find(s, pattern, i + k)
            case None => Find(s[i..], pattern, k) == None
            case Some(p) => p >= i && Find(s[i..], pattern, k) == Some(p - i)
    decreases |s| - k
  {
    var t := s[i..];
    if i + k + |pattern| <= |s| {
      assert t[k..k + |pattern|] == s[i + k..i + k + |pattern|];
      if !MatchesAt(s, pattern, i + k) {
        FindInSuffix(s, pattern, i, k + 1);
      }
    }
  }

  lemma OpensAt(s: string, i: nat, a: char, b: char)
    requires i < |s|
    ensures MatchesAt(s[i..], [a, b], 0) <==> s[i] == a && i + 1 < |s| && s[i + 1] == b
  {
    if i + 1 < |s| {
      assert s[i..][0..2] == [s[i], s[i + 1]];
    }
  }

  lemma SuffixTail(s: string, i: nat)
    requires i < |s|
    ensures s[i..][1..] == s[i + 1..]
  {
  }

  lemma AfterInSuffix(s: string, i: nat, pattern: string, k: nat, skip: nat)
    requires i + k <= |s| && pattern != "" && 0 < skip <= |pattern|
    ensures match Find(s, pattern, i + k)
            case None => After(s[i..], Find(s[i..], pattern, k), skip) == ""
            case Some(p) => i <= p && p + skip <= |s| && After(s[i..], Find(s[i..], pattern, k), skip) == s[p + skip..]
  {
    FindInSuffix(s, pattern, i, k);
    FindInRange(s, pattern, i + k);
  }

  predicate OpensBlock(s: string, i: nat)
    requires i < |s|
  {
    s[i] == '/' && i + 1 < |s| && s[i + 1] == '*'
  }

  predicate OpensLine(s: string, i: nat)
    requires i < |s|
  {
    s[i] == '-' && i + 1 < |s| && s[i + 1] == '-'
  }

  lemma FoldUnfolds(t: string, prevSpace: bool)
    requires t != ""
    ensures Fold("", prevSpace) == ""
    ensures MatchesAt(t, "/*", 0) ==> Fold(t, prevSpace) == Fold(After(t, Find(t, "*/", 2), 2), prevSpace)
    ensures !MatchesAt(t, "/*", 0) && MatchesAt(t, "--", 0) ==>
              Fold(t, prevSpace) == Fold(After(t, Find(t, "\n", 0), 1), prevSpace)
  {
    hide Find, After, MatchesAt;
  }

  lemma FoldBlockComment(s: string, i: nat, prevSpace: bool)
    requires i < |s| && OpensBlock(s, i)
    ensures match Find(s, "*/", i + 2)
            case None => Fold(s[i..], prevSpace) == ""
            case Some(p) => i <= p && p + 2 <= |s| && Fold(s[i..], prevSpace) == Fold(s[p + 2..], prevSpace)
  {
    hide Find, After, MatchesAt, Fold;
    OpensAt(s, i, '/', '*');
    FoldUnfolds(s[i..], prevSpace);
    AfterInSuffix(s, i, "*/", 2, 2);
  }

  lemma FoldLineComment(s: string, i: nat, prevSpace: bool)
    requires i < |s| && OpensLine(s, i)
    ensures match Find(s, "\n", i)
            case None => Fold(s[i..], prevSpace) == ""
            case Some(p) => i <= p && p + 1 <= |s| && Fold(s[i..], prevSpace) == Fold(s[p + 1..], prevSpace)
  {
    hide Find, After, MatchesAt, Fold;
    OpensAt(s, i, '/', '*');
    OpensAt(s, i, '-', '-');
    FoldUnfolds(s[i..], prevSpace);
    AfterInSuffix(s, i, "\n", 0, 1);
  }

  lemma FoldChar(s: string, i: nat, prevSpace: bool, out: string)
    requires i < |s| && !OpensBlock(s, i) && !OpensLine(s, i)
    ensures out + Fold(s[i..], prevSpace) ==
            if IsBlank(s[i]) then (if prevSpace then out else out + " ") + Fold(s[i + 1..], true)
            else out + [Lower(s[i])] + Fold(s[i + 1..], false)
  {
    OpensAt(s, i, '/', '*');
    OpensAt(s, i, '-', '-');
    SuffixTail(s, i);
    hide Find, MatchesAt;
    var more := Fold(s[i + 1..], true);
    assert out + ("" + more) == out + more && out + (" " + more) == out + " " + more;
  }

  /** Where the comment opening at `i` ends, or None if it runs to the end of the text. */
  method SkipComment(s: string, i: nat, ghost prevSpace: bool) returns (end: Option<nat>)
    requires i < |s| && (OpensBlock(s, i) || OpensLine(s, i))
    ensures match end
            case None => Fold(s[i..], prevSpace) == ""
            case Some(j) => i < j <= |s| && Fold(s[i..], prevSpace) == Fold(s[j..], prevSpace)
  {
    hide Fold, Find;
    if s[i] == '/' {
      FoldBlockComment(s, i, prevSpace);
      var close := Find(s, "*/", i + 2);
      end := if close == None then None else Some(close.value + 2);
    } else {
      FoldLineComment(s, i, prevSpace);
      var eol := Find(s, "\n", i);
      end := if eol == None then None else Some(eol.value + 1);
    }
  }

  method FoldText(s: string) returns (out: string)
    ensures out == Fold(s, false)
  {
    out := "";
    var prevSpace := false;
    var i: nat := 0;
    assert s[0..] == s;
    while i < |s|
      invariant i <= |s|
      invariant out + Fold(s[i..], prevSpace) == Fold(s, false)
      decreases |s| - i
    {
      if OpensBlock(s, i) || OpensLine(s, i) {
        var end := SkipComment(s, i, prevSpace);
        hide Fold;
        if end == None {
          assert out + "" == out;
          return;
        }
        i := end.value;
      } else {
        FoldChar(s, i, prevSpace, out);
        hide Fold;
        var c := s[i];
        if IsBlank(c) {
          if !prevSpace {
            out := out + " ";
          }
          prevSpace := true;
        } else {
          prevSpace := false;
          out := out + [Lower(c)];
        }
        i := i + 1;
      }
    }
  }

  method NormalizePayload(raw: string) returns (out: string)
    ensures out == Normalize(raw)
  {
    var n := if |raw| < MAX_NORM then |raw| else MAX_NORM;
    var s := raw[..n];
    var pass := 0;
    while pass < PASSES
      invariant pass <= PASSES
      invariant DecodeTimes(s, PASSES - pass) == DecodeTimes(raw[..n], PASSES)
    {
      ghost var before := s;
      var changed;
      s, changed := PercentDecodeOnce(s);
      if !changed {
        UnchangedIsFixed(before);
        FixedStaysFixed(before, PASSES - pass);
        break;
      }
      pass := pass + 1;
    }
    assert s == DecodeTimes(raw[..n], PASSES);
    out := FoldText(s);
  }

  // ---------------------------------------------------------------- layers of encoding

  const DIGITS := "0123456789abcdef"
  const CAPITALS := "0123456789ABCDEF"

  /** `c` is a hex digit, in either case, for `v`. */
  predicate IsDigit(c: char, v: int) {
    0 <= v < 16 && (c == DIGITS[v] || c == CAPITALS[v])
  }

  lemma DigitValue(c: char, v: int)
    ensures IsDigit(c, v) <==> IsHex(c) && HexVal(c) == v
  {
    if 0 <= v < 16 {
      assert DIGITS[v] as int == if v < 10 then '0' as int + v else 'a' as int + v - 10;
      assert CAPITALS[v] as int == if v < 10 then '0' as int + v else 'A' as int + v - 10;
    }
  }

  /** One layer of percent-encoding: each character is copied or written as % and the two hex digits of its
      value, in either case; % and + are always written that way. */
  predicate Encodes(plain: string, encoded: string) {
    if plain == "" then encoded == ""
    else
      || (encoded != "" && encoded[0] == plain[0] && plain[0] != '%' && plain[0] != '+'
          && Encodes(plain[1..], encoded[1..]))
      || (|encoded| >= 3 && encoded[0] == '%' && IsDigit(encoded[1], plain[0] as int / 16)
          && IsDigit(encoded[2], plain[0] as int % 16) && Encodes(plain[1..], encoded[3..]))
  }

  lemma {:induction false} DecodingUndoesALayer(plain: string, encoded: string)
    requires Encodes(plain, encoded)
    ensures Decode(encoded) == plain
    decreases |plain|
  {
    if plain != "" {
      assert plain == [plain[0]] + plain[1..];
      if encoded[0] == plain[0] && plain[0] != '%' && plain[0] != '+' && Encodes(plain[1..], encoded[1..]) {
        DecodingUndoesALayer(plain[1..], encoded[1..]);
      } else {
        DigitValue(encoded[1], plain[0] as int / 16);
        DigitValue(encoded[2], plain[0] as int % 16);
        hide HexVal, IsDigit;
        assert First(encoded) == Item(plain[0], 3, true);
        DecodingUndoesALayer(plain[1..], encoded[3..]);
      }
    }
  }

  /** `encoded` is `plain` under `layers` layers. */
  ghost predicate Layered(plain: string, encoded: string, layers: nat)
    decreases layers
  {
    if layers == 0 then encoded == plain
    else exists inner :: Layered(plain, inner, layers - 1) && Encodes(inner, encoded)
  }

  lemma {:induction false} DecodingUndoesLayers(plain: string, encoded: string, layers: nat, passes: nat)
    requires Layered(plain, encoded, layers) && layers <= passes
    ensures DecodeTimes(encoded, passes) == DecodeTimes(plain, passes - layers)
    decreases layers
  {
    hide Encodes, Decode;
    if layers > 0 {
      var inner :| Layered(plain, inner, layers - 1) && Encodes(inner, encoded);
      DecodingUndoesALayer(inner, encoded);
      DecodingUndoesLayers(plain, inner, layers - 1, passes - 1);
    }
  }

  lemma {:induction false} LayersGrow(plain: string, encoded: string, layers: nat)
    requires Layered(plain, encoded, layers)
    ensures |plain| <= |encoded|
    decreases layers
  {
    if layers > 0 {
      var inner :| Layered(plain, inner, layers - 1) && Encodes(inner, encoded);
      LayersGrow(plain, inner, layers - 1);
      LayerGrows(inner, encoded);
    }
  }

  lemma {:induction false} LayerGrows(plain: string, encoded: string)
    requires Encodes(plain, encoded)
    ensures |plain| <= |encoded|
    decreases |plain|
  {
    if plain != "" {
      if Encodes(plain[1..], encoded[1..]) {
        LayerGrows(plain[1..], encoded[1..]);
      } else {
        LayerGrows(plain[1..], encoded[3..]);
      }
    }
  }

  lemma {:induction false} PlainDoesNotChange(s: string)
    requires forall i | 0 <= i < |s| :: s[i] != '%' && s[i] != '+'
    ensures !Changes(s)
  {
    if s != "" {
      PlainDoesNotChange(s[1..]);
    }
  }

  /** Encoding-depth invariance: a text without % and + normalises to the same string under no, one,
      two or three layers of percent-encoding, within the size cap. */
  lemma EncodingDepthIrrelevant(plain: string, encoded: string, layers: nat)
    requires forall i | 0 <= i < |plain| :: plain[i] != '%' && plain[i] != '+'
    requires Layered(plain, encoded, layers) && layers <= 3 && |encoded| <= 65536
    ensures Normalize(encoded) == Normalize(plain)
  {
    hide Fold, Layered;
    LayersGrow(plain, encoded, layers);
    DecodingUndoesLayers(plain, encoded, layers, PASSES);
    PlainDoesNotChange(plain);
    FixedStaysFixed(plain, PASSES - layers);
    FixedStaysFixed(plain, PASSES);
    assert encoded[..|encoded|] == encoded && plain[..|plain|] == plain;
  }

  /** Three passes are all there is: of a deeper encoding, the layers beyond three remain, and what is
      normalised is the text still under them. */
  lemma DeeperLayersRemain(plain: string, inner: string, encoded: string, extra: nat)
    requires Layered(plain, inner, extra) && Layered(inner, encoded, 3) && |encoded| <= 65536
    ensures Normalize(encoded) == Fold(inner, false)
  {
    hide Fold, Layered;
    DecodingUndoesLayers(inner, encoded, PASSES, PASSES);
    assert encoded[..|encoded|] == encoded;
  }

  // ---------------------------------------------------------------- ASCII case

  ghost predicate SameUpToCase(a: string, b: string) {
    |a| == |b| && forall i | 0 <= i < |a| :: Lower(a[i]) == Lower(b[i])
  }

  lemma SameFirst(a: string, b: string)
    requires SameUpToCase(a, b) && a != ""
    ensures First(a).used == First(b).used && First(a).changed == First(b).changed
    ensures Lower(First(a).out) == Lower(First(b).out)
  {
    SameHex(a[0], b[0]);
    if |a| > 1 {
      SameHex(a[1], b[1]);
    }
    if |a| > 2 {
      SameHex(a[2], b[2]);
    }
    if |a| > 5 {
      SameHex(a[4], b[4]);
      SameHex(a[5], b[5]);
    }
    hide HexVal;
  }

  lemma SameHex(c: char, d: char)
    requires Lower(c) == Lower(d)
    ensures HexVal(c) == HexVal(d)
    ensures c == '%' <==> d == '%'
    ensures c == '+' <==> d == '+'
    ensures c == 'u' || c == 'U' <==> d == 'u' || d == 'U'
    ensures c == '/' <==> d == '/'
    ensures c == '*' <==> d == '*'
    ensures c == '-' <==> d == '-'
    ensures c == '\n' <==> d == '\n'
    ensures IsBlank(c) <==> IsBlank(d)
  {
  }

  lemma {:induction false} SameDecode(a: string, b: string)
    requires SameUpToCase(a, b)
    ensures SameUpToCase(Decode(a), Decode(b))
    decreases |a|
  {
    if a != "" {
      SameFirst(a, b);
      var n := First(a).used;
      hide First, Lower;
      SameDecode(a[n..], b[n..]);
    }
  }

  lemma {:induction false} SameDecodeTimes(a: string, b: string, n: nat)
    requires SameUpToCase(a, b)
    ensures SameUpToCase(DecodeTimes(a, n), DecodeTimes(b, n))
    decreases n
  {
    if n > 0 {
      SameDecode(a, b);
      hide SameUpToCase, Decode;
      SameDecodeTimes(Decode(a), Decode(b), n - 1);
    }
  }

  /** Text that upper and lower case cannot disguise. */
  predicate Caseless(pattern: string) {
    forall i | 0 <= i < |pattern| :: pattern[i] == '/' || pattern[i] == '*' || pattern[i] == '-' || pattern[i] == '\n'
  }

  lemma SameMatches(a: string, b: string, pattern: string, i: nat)
    requires SameUpToCase(a, b) && Caseless(pattern)
    ensures MatchesAt(a, pattern, i) <==> MatchesAt(b, pattern, i)
  {
    if i + |pattern| <= |a| {
      forall k | 0 <= k < |pattern|
        ensures a[i + k] == pattern[k] <==> b[i + k] == pattern[k]
      {
        SameHex(a[i + k], b[i + k]);
      }
      assert MatchesAt(a, pattern, i) <==> forall k | 0 <= k < |pattern| :: a[i..i + |pattern|][k] == pattern[k];
      assert MatchesAt(b, pattern, i) <==> forall k | 0 <= k < |pattern| :: b[i..i + |pattern|][k] == pattern[k];
    }
  }

  lemma {:induction false} SameFind(a: string, b: string, pattern: string, from: nat)
    requires SameUpToCase(a, b) && Caseless(pattern)
    ensures Find(a, pattern, from) == Find(b, pattern, from)
    decreases |a| - from
  {
    SameMatches(a, b, pattern, from);
    if from < |a| {
      hide MatchesAt, SameUpToCase, Caseless;
      assert |a| == |b| by { SameLength(a, b); }
      SameFind(a, b, pattern, from + 1);
    }
  }

  lemma SameLength(a: string, b: string)
    requires SameUpToCase(a, b)
    ensures |a| == |b|
  {
  }

  lemma {:induction false} SameFold(a: string, b: string, prevSpace: bool)
    requires SameUpToCase(a, b)
    ensures Fold(a, prevSpace) == Fold(b, prevSpace)
    decreases |a|
  {
    if a != "" {
      SameHex(a[0], b[0]);
      SameMatches(a, b, "/*", 0);
      SameMatches(a, b, "--", 0);
      SameFind(a, b, "*/", 2);
      SameFind(a, b, "\n", 0);
      hide MatchesAt, Find, IsBlank;
      if MatchesAt(a, "/*", 0) {
        SameFold(After(a, Find(a, "*/", 2), 2), After(b, Find(b, "*/", 2), 2), prevSpace);
      } else if MatchesAt(a, "--", 0) {
        SameFold(After(a, Find(a, "\n", 0), 1), After(b, Find(b, "\n", 0), 1), prevSpace);
      } else if IsBlank(a[0]) {
        SameFold(a[1..], b[1..], true);
      } else {
        SameFold(a[1..], b[1..], false);
      }
    }
  }

  /** Inputs that differ only in ASCII case normalise to the same string. */
  lemma CaseIrrelevant(a: string, b: string)
    requires SameUpToCase(a, b)
    ensures Normalize(a) == Normalize(b)
  {
    var n := if |a| < MAX_NORM then |a| else MAX_NORM;
    assert SameUpToCase(a[..n], b[..n]);
    SameDecodeTimes(a[..n], b[..n], PASSES);
    hide SameUpToCase, Fold, DecodeTimes;
    SameFold(DecodeTimes(a[..n], PASSES), DecodeTimes(b[..n], PASSES), false);
  }

  // ---------------------------------------------------------------- canonical form

  /** Lower case, the only blank is the space, and no two spaces in a row. */
  predicate Canonical(s: string, prevSpace: bool) {
    && (forall i | 0 <= i < |s| :: Lower(s[i]) == s[i] && (IsBlank(s[i]) ==> s[i] == ' '))
    && (forall i | 0 <= i < |s| - 1 :: s[i] == ' ' ==> s[i + 1] != ' ')
    && (prevSpace && s != "" ==> s[0] != ' ')
  }

  lemma {:induction false} FoldIsCanonical(s: string, prevSpace: bool)
    ensures Canonical(Fold(s, prevSpace), prevSpace)
    decreases |s|
  {
    if s != "" {
      hide Find, MatchesAt;
      if MatchesAt(s, "/*", 0) {
        FoldIsCanonical(After(s, Find(s, "*/", 2), 2), prevSpace);
      } else if MatchesAt(s, "--", 0) {
        FoldIsCanonical(After(s, Find(s, "\n", 0), 1), prevSpace);
      } else {
        FoldIsCanonical(s[1..], IsBlank(s[0]));
      }
    }
  }

  /** Every normalised payload is lower case with single spaces only. */
  lemma NormalizedIsCanonical(raw: string)
    ensures Canonical(Normalize(raw), false)
  {
    hide Fold;
    FoldIsCanonical(DecodeTimes(raw[..if |raw| < MAX_NORM then |raw| else MAX_NORM], PASSES), false);
  }

  // ---------------------------------------------------------------- comments that come together

  /** The pieces the text is read in: a comment, with its end, or a single character. */
  datatype Token = Comment(text: string) | Char(c: char)

  function Lex(s: string): seq<Token>
    decreases |s|
  {
    if s == "" then []
    else if MatchesAt(s, "/*", 0) then
      var rest := After(s, Find(s, "*/", 2), 2);
      [Comment(s[..|s| - |rest|])] + Lex(rest)
    else if MatchesAt(s, "--", 0) then
      var rest := After(s, Find(s, "\n", 0), 1);
      [Comment(s[..|s| - |rest|])] + Lex(rest)
    else [Char(s[0])] + Lex(s[1..])
  }

  function Text(t: Token): string {
    match t
    case Comment(text) => text
    case Char(c) => [c]
  }

  function Texts(ts: seq<Token>): string {
    if ts == [] then "" else Text(ts[0]) + Texts(ts[1..])
  }

  /** The pieces are the text. */
  lemma {:induction false} LexSplits(s: string)
    ensures Texts(Lex(s)) == s
    decreases |s|
  {
    if s != "" {
      hide Find;
      if MatchesAt(s, "/*", 0) {
        LexSplitsComment(s, "*/", 2, 2);
      } else if MatchesAt(s, "--", 0) {
        LexSplitsComment(s, "\n", 0, 1);
      } else {
        LexSplits(s[1..]);
        assert s == [s[0]] + s[1..];
      }
    }
  }

  lemma LexSplitsComment(s: string, end: string, from: nat, skip: nat)
    requires s != "" && skip > 0
    ensures var rest := After(s, Find(s, end, from), skip);
            |rest| < |s| && s[..|s| - |rest|] + rest == s && Texts(Lex(rest)) == rest
    decreases |s|, 0
  {
    hide Find, Lex, Texts;
    LexSplits(After(s, Find(s, end, from), skip));
  }

  /** Two characters that open a comment. */
  predicate Opener(a: char, b: char) {
    (a == '/' && b == '*') || (a == '-' && b == '-')
  }

  predicate HasOpener(s: string) {
    exists i | 0 <= i < |s| - 1 :: Opener(s[i], s[i + 1])
  }

  /** Two kept characters with nothing but stripped comments between them that open a comment together. */
  predicate Meet(ts: seq<Token>, i: nat, j: nat)
    requires i < j < |ts|
  {
    && ts[i].Char? && ts[j].Char? && Opener(ts[i].c, ts[j].c)
    && forall k | i < k < j :: ts[k].Comment?
  }

  predicate Rejoins(s: string) {
    var ts := Lex(s);
    exists i, j | 0 <= i < j < |ts| :: Meet(ts, i, j)
  }

  function Render(ts: seq<Token>, prevSpace: bool): string {
    if ts == [] then ""
    else
      match ts[0]
      case Comment(_) => Render(ts[1..], prevSpace)
      case Char(c) =>
        if IsBlank(c) then (if prevSpace then "" else " ") + Render(ts[1..], true)
        else [Lower(c)] + Render(ts[1..], false)
  }

  lemma {:induction false} FoldRenders(s: string, prevSpace: bool)
    ensures Fold(s, prevSpace) == Render(Lex(s), prevSpace)
    decreases |s|
  {
    if s != "" {
      hide Find, IsBlank, Lower;
      if MatchesAt(s, "/*", 0) {
        FoldRenders(After(s, Find(s, "*/", 2), 2), prevSpace);
      } else if MatchesAt(s, "--", 0) {
        FoldRenders(After(s, Find(s, "\n", 0), 1), prevSpace);
      } else {
        FoldRenders(s[1..], true);
        FoldRenders(s[1..], false);
      }
    }
  }

  /** The last character kept, unless a blank came after it. */
  function Last(left: Option<char>): string {
    match left
    case None => ""
    case Some(c) => [Lower(c)]
  }

  /** `left` opens a comment with the first character kept in `ts`, if only comments come before it. */
  predicate MeetsNext(ts: seq<Token>, left: Option<char>) {
    && left.Some?
    && exists j | 0 <= j < |ts| ::
         ts[j].Char? && Opener(left.value, ts[j].c) && forall k | 0 <= k < j :: ts[k].Comment?
  }

  predicate MeetsInside(ts: seq<Token>) {
    exists i, j | 0 <= i < j < |ts| :: Meet(ts, i, j)
  }

  lemma MeetsNextStep(ts: seq<Token>, left: Option<char>)
    requires ts != []
    ensures MeetsNext(ts, left) <==>
            if ts[0].Char? then left.Some? && Opener(left.value, ts[0].c) else MeetsNext(ts[1..], left)
  {
    if MeetsNext(ts, left) {
      var j :| 0 <= j < |ts| && ts[j].Char? && Opener(left.value, ts[j].c) && forall k | 0 <= k < j :: ts[k].Comment?;
      if j > 0 {
        assert ts[0].Comment?;
        assert ts[1..][j - 1] == ts[j] && forall k | 0 <= k < j - 1 :: ts[1..][k] == ts[k + 1];
      }
    }
    if ts[0].Comment? && MeetsNext(ts[1..], left) {
      var j :| 0 <= j < |ts| - 1 && ts[1..][j].Char? && Opener(left.value, ts[1..][j].c)
               && forall k | 0 <= k < j :: ts[1..][k].Comment?;
      assert ts[j + 1].Char? && forall k | 0 <= k < j + 1 :: ts[k].Comment? by {
        forall k | 0 <= k < j + 1
          ensures ts[k].Comment?
        {
          assert k > 0 ==> ts[k] == ts[1..][k - 1];
        }
      }
    }
  }

  lemma MeetsInsideStep(ts: seq<Token>)
    requires ts != []
    ensures MeetsInside(ts) <==>
            MeetsInside(ts[1..]) || (ts[0].Char? && MeetsNext(ts[1..], Some(ts[0].c)))
  {
    var rest := ts[1..];
    if MeetsInside(ts) {
      var i, j :| 0 <= i < j < |ts| && Meet(ts, i, j);
      assert forall k | i < k < j :: rest[k - 1] == ts[k];
      if i > 0 {
        assert Meet(rest, i - 1, j - 1);
      } else {
        assert rest[j - 1].Char? && forall k | 0 <= k < j - 1 :: rest[k].Comment? by {
          forall k | 0 <= k < j - 1
            ensures rest[k].Comment?
          {
            assert rest[k] == ts[k + 1];
          }
        }
      }
    }
    if MeetsInside(rest) {
      var i, j :| 0 <= i < j < |rest| && Meet(rest, i, j);
      assert Meet(ts, i + 1, j + 1) by {
        forall k | i + 1 < k < j + 1
          ensures ts[k].Comment?
        {
          assert ts[k] == rest[k - 1];
        }
      }
    }
    if ts[0].Char? && MeetsNext(rest, Some(ts[0].c)) {
      var j :| 0 <= j < |rest| && rest[j].Char? && Opener(ts[0].c, rest[j].c)
               && forall k | 0 <= k < j :: rest[k].Comment?;
      assert Meet(ts, 0, j + 1) by {
        forall k | 0 < k < j + 1
          ensures ts[k].Comment?
        {
          assert ts[k] == rest[k - 1];
        }
      }
    }
  }

  lemma OpenerComesFrom(a: char, s: string)
    requires HasOpener([a] + s)
    ensures HasOpener(s) || (s != "" && Opener(a, s[0]))
  {
    hide Opener;
    var t := [a] + s;
    var i :| 0 <= i < |t| - 1 && Opener(t[i], t[i + 1]);
    if i > 0 {
      assert Opener(s[i - 1], s[i - 1 + 1]);
    }
  }

  lemma OpenerStays(a: char, s: string)
    requires HasOpener(s)
    ensures HasOpener([a] + s)
  {
    hide Opener;
    var t := [a] + s;
    var i :| 0 <= i < |s| - 1 && Opener(s[i], s[i + 1]);
    assert Opener(t[i + 1], t[i + 1 + 1]);
  }

  lemma OpenerAfter(a: char, s: string)
    ensures HasOpener([a] + s) <==> HasOpener(s) || (s != "" && Opener(a, s[0]))
  {
    if HasOpener([a] + s) {
      OpenerComesFrom(a, s);
    }
    if HasOpener(s) {
      OpenerStays(a, s);
    }
    if s != "" && Opener(a, s[0]) {
      var t := [a] + s;
      hide Opener;
      assert Opener(t[0], t[0 + 1]);
    }
  }

  lemma LowerKeepsOpeners(a: char, b: char)
    ensures Opener(Lower(a), Lower(b)) <==> Opener(a, b)
    ensures !Opener(a, ' ') && !Opener(' ', b)
    ensures IsBlank(b) ==> !Opener(a, b)
  {
  }

  lemma NothingAfterBlank(ts: seq<Token>, c: char)
    requires IsBlank(c)
    ensures !MeetsNext(ts, Some(c))
  {
  }

  lemma {:induction false} RenderOpeners(ts: seq<Token>, left: Option<char>, prevSpace: bool)
    requires left.Some? ==> !prevSpace
    ensures HasOpener(Last(left) + Render(ts, prevSpace)) <==> MeetsNext(ts, left) || MeetsInside(ts)
    decreases |ts|, 0
  {
    if ts != [] {
      MeetsNextStep(ts, left);
      MeetsInsideStep(ts);
      hide HasOpener, MeetsNext, MeetsInside, Opener, Lower, IsBlank;
      var rest := ts[1..];
      match ts[0]
      case Comment(_) => RenderOpeners(rest, left, prevSpace);
      case Char(c) =>
        if IsBlank(c) {
          RenderBlank(rest, left, prevSpace, c);
        } else {
          RenderKept(rest, left, c);
        }
    }
  }

  lemma RenderBlank(rest: seq<Token>, left: Option<char>, prevSpace: bool, c: char)
    requires (left.Some? ==> !prevSpace) && IsBlank(c)
    ensures HasOpener(Last(left) + ((if prevSpace then "" else " ") + Render(rest, true))) <==> MeetsInside(rest)
    ensures !MeetsNext(rest, Some(c))
    ensures left.Some? ==> !Opener(left.value, c)
    decreases |rest|, 1
  {
    NothingAfterBlank(rest, c);
    if left.Some? {
      LowerKeepsOpeners(left.value, c);
      LowerKeepsOpeners(Lower(left.value), c);
    }
    NothingMeets(rest);
    RenderOpeners(rest, None, true);
    hide HasOpener, MeetsNext, MeetsInside, IsBlank, Lower;
    var r := Render(rest, true);
    assert Last(None) + r == r;
    OpenerAfter(' ', r);
    if left.Some? {
      OpenerAfter(Lower(left.value), " " + r);
    } else {
      assert Last(left) + (" " + r) == " " + r && Last(left) + ("" + r) == r;
    }
  }

  lemma NothingMeets(ts: seq<Token>)
    ensures !MeetsNext(ts, None)
  {
  }

  lemma RenderKept(rest: seq<Token>, left: Option<char>, c: char)
    ensures HasOpener(Last(left) + ([Lower(c)] + Render(rest, false))) <==>
            MeetsNext(rest, Some(c)) || MeetsInside(rest) || (left.Some? && Opener(left.value, c))
    decreases |rest|, 1
  {
    RenderOpeners(rest, Some(c), false);
    hide HasOpener, MeetsNext, MeetsInside;
    var r := [Lower(c)] + Render(rest, false);
    if left.Some? {
      LowerKeepsOpeners(left.value, c);
      hide Opener, Lower;
      OpenerAfter(Lower(left.value), r);
    } else {
      assert Last(left) + r == r;
    }
  }

  lemma OpenerIsFound(t: string)
    ensures HasOpener(t) <==> exists i: nat :: MatchesAt(t, "/*", i) || MatchesAt(t, "--", i)
  {
    if HasOpener(t) {
      var i :| 0 <= i < |t| - 1 && Opener(t[i], t[i + 1]);
      assert t[i..i + 2] == [t[i], t[i + 1]];
      assert MatchesAt(t, "/*", i) || MatchesAt(t, "--", i);
    }
    if i: nat :| MatchesAt(t, "/*", i) || MatchesAt(t, "--", i) {
      assert t[i..i + 2][0] == t[i] && t[i..i + 2][1] == t[i + 1];
      assert Opener(t[i], t[i + 1]);
    }
  }

  /** Comments are stripped once, left to right, and removing one can bring a new opener together. A
      normalised payload holds no comment opener exactly when, in the decoded text, no stripped comment
      or run of comments has a slash kept before it and a star after it, or a dash on either side. */
  lemma CommentFreeExactly(raw: string)
    ensures (forall i: nat :: !MatchesAt(Normalize(raw), "/*", i) && !MatchesAt(Normalize(raw), "--", i)) <==>
            !Rejoins(Decoded(raw))
  {
    hide Fold, Lex, Render, Decoded, MatchesAt, HasOpener, MeetsNext;
    var ts := Lex(Decoded(raw));
    FoldRenders(Decoded(raw), false);
    RenderOpeners(ts, None, false);
    NothingMeets(ts);
    assert Last(None) + Render(ts, false) == Render(ts, false);
    OpenerIsFound(Normalize(raw));
  }

  lemma {:induction false} AdjacentNeverOpen(s: string, i: nat)
    requires i + 1 < |Lex(s)| && Lex(s)[i].Char? && Lex(s)[i + 1].Char?
    ensures !Opener(Lex(s)[i].c, Lex(s)[i + 1].c)
    decreases |s|
  {
    hide Find;
    if MatchesAt(s, "/*", 0) {
      AdjacentNeverOpen(After(s, Find(s, "*/", 2), 2), i - 1);
    } else if MatchesAt(s, "--", 0) {
      AdjacentNeverOpen(After(s, Find(s, "\n", 0), 1), i - 1);
    } else if i > 0 {
      AdjacentNeverOpen(s[1..], i - 1);
    } else {
      FirstIsFirst(s[1..]);
      assert s[0..2] == [s[0], s[1]];
    }
  }

  lemma FirstIsFirst(s: string)
    requires Lex(s) != [] && Lex(s)[0].Char?
    ensures s != "" && Lex(s)[0].c == s[0]
  {
  }

  /** So it always takes a stripped comment in between. */
  lemma RejoiningTakesAComment(s: string, i: nat, j: nat)
    requires i < j < |Lex(s)| && Meet(Lex(s), i, j)
    ensures i + 1 < j && Lex(s)[i + 1].Comment?
  {
    hide Lex;
    if j == i + 1 {
      AdjacentNeverOpen(s, i);
    }
  }

  lemma PlainIsDecoded(raw: string)
    requires |raw| <= MAX_NORM && forall i | 0 <= i < |raw| :: raw[i] != '%' && raw[i] != '+'
    ensures Decoded(raw) == raw
  {
    PlainDoesNotChange(raw);
    FixedStaysFixed(raw, PASSES);
    assert raw[..|raw|] == raw;
  }

  /** Both openers can come together. */
  lemma StrippingCanReopenAComment()
    ensures Normalize("//**/*") == "/*"
    ensures Normalize("-/**/-") == "--"
  {
    PlainIsDecoded("//**/*");
    PlainIsDecoded("-/**/-");
    FoldAround('/', '*');
    FoldAround('-', '-');
    assert "/" + "/**/" + "*" == "//**/*" && "-" + "/**/" + "-" == "-/**/-";
  }

  lemma FoldAround(a: char, b: char)
    requires Opener(a, b)
    ensures Fold([a] + "/**/" + [b], false) == [a, b]
  {
    var s, t := [a] + "/**/" + [b], "/**/" + [b];
    assert s[1..] == t && t[0..2] == "/*" && t[2..4] == "*/" && t[4..] == [b];
    assert s[0..2][1] == '/' && s[0..2][0] == a;
    assert Find(t, "*/", 2) == Some(2);
    assert Fold([b], false) == [Lower(b)] + Fold([b][1..], false);
    assert Fold(t, false) == [b];
    assert Fold(s, false) == [Lower(a)] + Fold(s[1..], false);
  }

  lemma NoOpenerHere(s: string)
    requires s != "" && !HasOpener(s)
    ensures !MatchesAt(s, "/*", 0) && !MatchesAt(s, "--", 0) && !HasOpener(s[1..])
  {
    OpenerIsFound(s);
    hide HasOpener;
    assert s == [s[0]] + s[1..];
    OpenerAfter(s[0], s[1..]);
  }

  lemma FoldPlain(s: string, prevSpace: bool)
    requires s != "" && !MatchesAt(s, "/*", 0) && !MatchesAt(s, "--", 0)
    ensures Fold(s, prevSpace) == if IsBlank(s[0]) then (if prevSpace then "" else " ") + Fold(s[1..], true)
                                  else [Lower(s[0])] + Fold(s[1..], false)
  {
    hide MatchesAt, Find, IsBlank, Lower;
  }

  lemma FoldFirstCounts(s: string, prevSpace: bool)
    requires s != "" && !MatchesAt(s, "/*", 0) && !MatchesAt(s, "--", 0)
    ensures multiset(Fold(s, prevSpace))['#']
            == multiset(Fold(s[1..], IsBlank(s[0])))['#'] + if s[0] == '#' then 1 else 0
  {
    FoldPlain(s, prevSpace);
    hide Fold, MatchesAt;
  }

  lemma {:induction false} HashesFolded(s: string, prevSpace: bool)
    requires !HasOpener(s)
    ensures multiset(Fold(s, prevSpace))['#'] == multiset(s)['#']
  {
    if s != "" {
      hide *;
      NoOpenerHere(s);
      FoldFirstCounts(s, prevSpace);
      SplitFirst(s);
      HashesFolded(s[1..], IsBlank(s[0]));
    }
  }

  lemma {:induction false} RenderKeepsHashes(ts: seq<Token>, prevSpace: bool)
    ensures multiset(Render(ts, prevSpace))['#'] == multiset(ts)[Char('#')]
  {
    if ts != [] {
      SplitFirst(ts);
      RenderFirst(ts, prevSpace);
      hide Render;
      RenderKeepsHashes(ts[1..], prevSpace);
      RenderKeepsHashes(ts[1..], true);
      RenderKeepsHashes(ts[1..], false);
    }
  }

  lemma RenderFirst(ts: seq<Token>, prevSpace: bool)
    requires ts != []
    ensures match ts[0]
            case Comment(_) => Render(ts, prevSpace) == Render(ts[1..], prevSpace)
            case Char(c) =>
              if IsBlank(c) then
                multiset(Render(ts, prevSpace))['#'] == multiset(Render(ts[1..], true))['#']
              else multiset(Render(ts, prevSpace))['#']
                   == multiset(Render(ts[1..], false))['#'] + if c == '#' then 1 else 0
  {
    hide Lex, Fold;
  }

  /** A # starts no comment. Of every payload the result holds exactly the # characters that stand outside
      the stripped comments of the decoded text, so one disappears only inside such a comment; in text
      without the two openers all are kept. */
  lemma HashesKept(raw: string)
    ensures multiset(Normalize(raw))['#'] == multiset(Lex(Decoded(raw)))[Char('#')]
    ensures '#' in Normalize(raw) <==> Char('#') in Lex(Decoded(raw))
    ensures (forall i: nat :: !MatchesAt(Decoded(raw), "/*", i) && !MatchesAt(Decoded(raw), "--", i)) ==>
              multiset(Normalize(raw))['#'] == multiset(Decoded(raw))['#']
  {
    hide Decoded, Fold, Lex, Render, MatchesAt, HasOpener;
    FoldRenders(Decoded(raw), false);
    RenderKeepsHashes(Lex(Decoded(raw)), false);
    assert '#' in Normalize(raw) <==> multiset(Normalize(raw))['#'] > 0;
    assert Char('#') in Lex(Decoded(raw)) <==> multiset(Lex(Decoded(raw)))[Char('#')] > 0;
    OpenerIsFound(Decoded(raw));
    if !HasOpener(Decoded(raw)) {
      HashesFolded(Decoded(raw), false);
    }
  }

  /** A # and what follows it on its line both stay. */
  lemma HashCommentStays()
    ensures Normalize("a#b") == "a#b"
  {
    PlainIsDecoded("a#b");
    assert "a#b"[0..2] == "a#" && "#b"[0..2] == "#b" && "a#b"[1..] == "#b" && "#b"[1..] == "b" && "b"[1..] == "";
    FoldPlain("a#b", false);
    FoldPlain("#b", false);
    FoldPlain("b", false);
  }
}
