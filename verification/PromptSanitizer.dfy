/** Neutralising prompt markers in attacker-controlled text by successive replace-all passes. */
module PromptSanitizer {
  import opened Sequences
  import opened Options
  import opened Strings

  // ---------------------------------------------------------------- one pass

  /** Leftmost, non-overlapping replacement; replaced text is not looked at again. */
  function Replace(s: string, from: string, to: string): string
    requires from != ""
  {
    if |s| < |from| then s
    else if s[..|from|] == from then to + Replace(s[|from|..], from, to)
    else [s[0]] + Replace(s[1..], from, to)
  }

  lemma NoMatchBehindFirst(s: string, from: string, k: nat)
    requires from != "" && 0 < k <= |s|
    requires forall i: nat | i < k :: !MatchesAt(s, from, i)
    ensures forall i: nat | i < k - 1 :: !MatchesAt(s[1..], from, i)
  {
    forall i: nat | i < k - 1
      ensures !MatchesAt(s[1..], from, i)
    {
      assert !MatchesAt(s, from, i + 1);
      if i + |from| <= |s| - 1 {
        assert s[1..][i..i + |from|] == s[i + 1..i + 1 + |from|];
      }
    }
  }

  lemma {:induction false} ReplaceSkips(s: string, from: string, to: string, k: nat)
    requires from != "" && k <= |s|
    requires forall i: nat | i < k :: !MatchesAt(s, from, i)
    ensures Replace(s, from, to) == s[..k] + Replace(s[k..], from, to)
  {
    if k > 0 {
      ReplaceSkipsOne(s, from, to);
      NoMatchBehindFirst(s, from, k);
      hide MatchesAt, Replace;
      ReplaceSkips(s[1..], from, to, k - 1);
      PrefixOfTail(s, k);
    } else {
      assert s[0..] == s;
    }
  }

  lemma ReplaceSkipsOne(s: string, from: string, to: string)
    requires from != "" && s != "" && !MatchesAt(s, from, 0)
    ensures Replace(s, from, to) == [s[0]] + Replace(s[1..], from, to)
  {
    if |s| < |from| {
      assert s == [s[0]] + s[1..];
    }
  }

  ghost predicate Lacks(s: string, marker: string) {
    forall i: nat :: !MatchesAt(s, marker, i)
  }

  lemma ReplaceOfLacking(s: string, from: string, to: string)
    requires from != "" && Lacks(s, from)
    ensures Replace(s, from, to) == s
  {
    ReplaceSkips(s, from, to, |s|);
  }

  lemma NoMatchInTail(s: string, from: string, pos: nat, at: nat)
    requires pos <= at <= |s| && forall i: nat | pos <= i < at :: !MatchesAt(s, from, i)
    ensures forall i: nat | i < at - pos :: !MatchesAt(s[pos..], from, i)
  {
    forall i: nat | i < at - pos
      ensures !MatchesAt(s[pos..], from, i)
    {
      assert !MatchesAt(s, from, pos + i);
      if i + |from| <= |s| - pos {
        assert s[pos..][i..i + |from|] == s[pos + i..pos + i + |from|];
      }
    }
  }

  lemma ReplaceMatch(s: string, from: string, to: string, at: nat)
    requires from != "" && MatchesAt(s, from, at)
    ensures Replace(s[at..], from, to) == to + Replace(s[at + |from|..], from, to)
  {
    assert s[at..][..|from|] == s[at..at + |from|];
    assert s[at..][|from|..] == s[at + |from|..];
  }

  lemma DropTwice(s: string, pos: nat, at: nat)
    requires pos <= at <= |s|
    ensures s[pos..][at - pos..] == s[at..]
    ensures s[..pos] + s[pos..][..at - pos] == s[..at]
  {
  }

  lemma ReplaceStep(s: string, from: string, to: string, pos: nat, at: nat)
    requires from != "" && pos <= at && MatchesAt(s, from, at)
    requires forall i: nat | pos <= i < at :: !MatchesAt(s, from, i)
    ensures s[..pos] + Replace(s[pos..], from, to) == s[..at] + to + Replace(s[at + |from|..], from, to)
  {
    assert at + |from| <= |s|;
    hide Replace, MatchesAt;
    var rest := s[pos..];
    NoMatchInTail(s, from, pos, at);
    ReplaceSkips(rest, from, to, at - pos);
    ReplaceMatch(s, from, to, at);
    DropTwice(s, pos, at);
    Associate(s[..pos], rest[..at - pos], to + Replace(s[at + |from|..], from, to));
    Associate(s[..at], to, Replace(s[at + |from|..], from, to));
  }

  lemma Splice(s: string, to: string, at: nat, skip: nat)
    requires at + skip <= |s|
    ensures var s' := s[..at] + to + s[at + skip..];
            s'[..at + |to|] == s[..at] + to && s'[at + |to|..] == s[at + skip..]
  {
  }

  /** The in-place loop: find from `pos`, splice, skip the spliced text. */
  method ReplaceAll(text: string, from: string, to: string) returns (str: string)
    requires from != ""
    ensures str == Replace(text, from, to)
  {
    str := text;
    var pos: nat := 0;
    assert str[0..] == str && str[..0] == "";
    while true
      invariant pos <= |str|
      invariant str[..pos] + Replace(str[pos..], from, to) == Replace(text, from, to)
      decreases |str| - pos
    {
      var found := Find(str, from, pos);
      FindIsFirst(str, from, pos);
      if found == None {
        NothingLeft(str, from, to, pos);
        return;
      }
      ReplaceStep(str, from, to, pos, found.value);
      Splice(str, to, found.value, |from|);
      hide Replace, Find;
      str := str[..found.value] + to + str[found.value + |from|..];
      pos := found.value + |to|;
    }
  }

  lemma NothingLeft(str: string, from: string, to: string, pos: nat)
    requires from != "" && pos <= |str|
    requires forall i: nat | pos <= i :: !MatchesAt(str, from, i)
    ensures str[..pos] + Replace(str[pos..], from, to) == str
  {
    var rest := str[pos..];
    NoMatchInTail(str, from, pos, |str|);
    assert Lacks(rest, from);
    ReplaceOfLacking(rest, from, to);
  }

  // ---------------------------------------------------------------- the five passes

  const OPEN := "<|"
  const CLOSE := "|>"
  const CONTEXT := "[Context]"
  const PAYLOAD := "[Payload]"
  const DECODED := "[Decoded]"

  function Sanitize(s: string): string {
    var s1 := Replace(s, OPEN, "< |");
    var s2 := Replace(s1, CLOSE, "| >");
    var s3 := Replace(s2, CONTEXT, "(Context)");
    var s4 := Replace(s3, PAYLOAD, "(Payload)");
    Replace(s4, DECODED, "(Decoded)")
  }

  method SanitizeForPrompt(text: string) returns (s: string)
    ensures s == Sanitize(text)
  {
    s := ReplaceAll(text, "<|", "< |");
    s := ReplaceAll(s, "|>", "| >");
    s := ReplaceAll(s, "[Context]", "(Context)");
    s := ReplaceAll(s, "[Payload]", "(Payload)");
    s := ReplaceAll(s, "[Decoded]", "(Decoded)");
  }

  ghost predicate FreeOfMarkers(s: string) {
    Lacks(s, OPEN) && Lacks(s, CLOSE) && Lacks(s, CONTEXT) && Lacks(s, PAYLOAD) && Lacks(s, DECODED)
  }

  // ---------------------------------------------------------------- two-character markers

  predicate HasPair(s: string, x: char, y: char) {
    exists i: nat :: i + 1 < |s| && s[i] == x && s[i + 1] == y
  }

  lemma PairIsMarker(s: string, x: char, y: char)
    ensures !HasPair(s, x, y) <==> Lacks(s, [x, y])
  {
    if HasPair(s, x, y) {
      var i: nat :| i + 1 < |s| && s[i] == x && s[i + 1] == y;
      assert s[i..i + 2] == [x, y];
      assert MatchesAt(s, [x, y], i);
    } else {
      forall i: nat
        ensures !MatchesAt(s, [x, y], i)
      {
        assert i + 1 < |s| ==> s[i..i + 2] == [s[i], s[i + 1]];
      }
    }
  }

  lemma PairOfCons(c: char, s: string, x: char, y: char)
    ensures HasPair([c] + s, x, y) <==> HasPair(s, x, y) || (s != "" && c == x && s[0] == y)
  {
    var t := [c] + s;
    if HasPair(t, x, y) {
      var i: nat :| i + 1 < |t| && t[i] == x && t[i + 1] == y;
      if i > 0 {
        assert s[i - 1] == x && s[i - 1 + 1] == y;
      }
    }
    if HasPair(s, x, y) {
      var i: nat :| i + 1 < |s| && s[i] == x && s[i + 1] == y;
      assert t[i + 1] == x && t[i + 1 + 1] == y;
    }
    if s != "" && c == x && s[0] == y {
      assert t[0] == x && t[0 + 1] == y;
    }
  }

  lemma SplitPairOpens(a: char, b: char, rest: string, x: char, y: char)
    requires a != ' ' && x != ' ' && y != ' ' && !HasPair(rest, x, y)
    requires !(rest != "" && b == x && rest[0] == y)
    ensures !HasPair([a, ' ', b] + rest, x, y)
  {
    hide HasPair;
    var t, u := [b] + rest, [' '] + ([b] + rest);
    PairOfCons(b, rest, x, y);
    PairOfCons(' ', t, x, y);
    PairOfCons(a, u, x, y);
    assert [a, ' ', b] + rest == [a] + u;
  }

  lemma ReplaceHere(s: string, a: char, b: char)
    requires |s| >= 2 && s[0] == a && s[1] == b
    ensures Replace(s, [a, b], [a, ' ', b]) == [a, ' ', b] + Replace(s[2..], [a, b], [a, ' ', b])
  {
    assert s[..2] == [a, b];
  }

  lemma PairNotHere(s: string, a: char, b: char)
    requires s != "" && !(|s| >= 2 && s[0] == a && s[1] == b)
    ensures !MatchesAt(s, [a, b], 0)
  {
    if |s| >= 2 {
      assert s[0..2] == [s[0], s[1]];
    }
  }

  lemma ReplaceLater(s: string, a: char, b: char)
    requires s != "" && !(|s| >= 2 && s[0] == a && s[1] == b)
    ensures Replace(s, [a, b], [a, ' ', b]) == [s[0]] + Replace(s[1..], [a, b], [a, ' ', b])
  {
    hide Replace, MatchesAt;
    PairNotHere(s, a, b);
    ReplaceSkipsOne(s, [a, b], [a, ' ', b]);
  }

  lemma PairOfTails(s: string, x: char, y: char)
    requires |s| >= 2
    ensures HasPair(s, x, y) <==> HasPair(s[1..], x, y) || (s[0] == x && s[1] == y)
    ensures HasPair(s[2..], x, y) ==> HasPair(s, x, y)
    ensures |s| > 2 && s[1] == x && s[2] == y ==> HasPair(s, x, y)
  {
    hide HasPair;
    PairOfCons(s[0], s[1..], x, y);
    PairOfCons(s[1], s[2..], x, y);
    assert s == [s[0]] + s[1..] && s[1..] == [s[1]] + s[2..];
  }

  /** Splitting a pair with a blank removes every occurrence of it and brings about no other pair. */
  lemma {:induction false} SplittingPairs(s: string, a: char, b: char, x: char, y: char)
    requires a != b && a != ' ' && b != ' ' && x != ' ' && y != ' '
    requires HasPair(s, x, y) ==> x == a && y == b
    ensures var r := Replace(s, [a, b], [a, ' ', b]);
            !HasPair(r, x, y) && (s != "" ==> r != "" && r[0] == s[0])
    decreases |s|
  {
    if |s| >= 2 {
      hide HasPair, Replace;
      PairOfTails(s, x, y);
      if s[0] == a && s[1] == b {
        SplittingPairs(s[2..], a, b, x, y);
        ReplaceHere(s, a, b);
        SplitPairOpens(a, b, Replace(s[2..], [a, b], [a, ' ', b]), x, y);
      } else {
        SplittingPairs(s[1..], a, b, x, y);
        ReplaceLater(s, a, b);
        PairOfCons(s[0], Replace(s[1..], [a, b], [a, ' ', b]), x, y);
      }
    }
  }

  // ---------------------------------------------------------------- bracketed markers

  predicate Bracketed(marker: string) {
    && |marker| >= 2 && marker[0] == '['
    && (forall i | 1 <= i < |marker| :: marker[i] != '[')
    && (forall i | 0 <= i < |marker| :: marker[i] != '(' && marker[i] != ')')
  }

  function Defanged(marker: string): string
    requires |marker| >= 2
  {
    "(" + marker[1..|marker| - 1] + ")"
  }

  /** Defanging only turns characters into parentheses. */
  lemma {:induction false} DefangingPointwise(s: string, marker: string)
    requires Bracketed(marker)
    ensures var r := Replace(s, marker, Defanged(marker));
            |r| == |s| && forall i | 0 <= i < |s| :: r[i] == s[i] || r[i] == '(' || r[i] == ')'
    decreases |s|
  {
    var n := |marker|;
    if |s| >= n {
      if s[..n] == marker {
        DefangingPointwise(s[n..], marker);
        forall i | 0 <= i < n
          ensures Defanged(marker)[i] == s[i] || Defanged(marker)[i] == '(' || Defanged(marker)[i] == ')'
        {
          assert s[i] == s[..n][i];
        }
      } else {
        DefangingPointwise(s[1..], marker);
      }
    }
  }

  lemma MatchInSuffix(s: string, marker: string, k: nat, i: nat)
    requires MatchesAt(s, marker, i) && k <= i
    ensures MatchesAt(s[k..], marker, i - k)
  {
    assert s[k..][i - k..i - k + |marker|] == s[i..i + |marker|];
  }

  /** Two occurrences cannot overlap. */
  lemma NoOverlap(s: string, marker: string, i: nat)
    requires Bracketed(marker) && MatchesAt(s, marker, 0) && MatchesAt(s, marker, i) && i > 0
    ensures i >= |marker|
  {
    assert s[i] == s[i..i + |marker|][0] == '[';
    assert forall k | 0 <= k < |marker| :: s[k] == s[0..|marker|][k];
  }

  lemma ReplaceAtStart(s: string, from: string, to: string)
    requires from != "" && MatchesAt(s, from, 0)
    ensures Replace(s, from, to) == to + Replace(s[|from|..], from, to)
  {
    assert s[..|from|] == s[0..|from|];
  }

  /** It reaches the opening bracket of every occurrence: occurrences cannot overlap. */
  lemma {:induction false} DefangingReaches(s: string, marker: string, i: nat)
    requires Bracketed(marker) && MatchesAt(s, marker, i)
    ensures |Replace(s, marker, Defanged(marker))| == |s| && Replace(s, marker, Defanged(marker))[i] == '('
    decreases |s|
  {
    var n := |marker|;
    assert i + n <= |s| && n >= 2 && |Defanged(marker)| == n && Defanged(marker)[0] == '(';
    DefangingPointwise(s, marker);
    if MatchesAt(s, marker, 0) {
      ReplaceAtStart(s, marker, Defanged(marker));
      if i > 0 {
        NoOverlap(s, marker, i);
        MatchInSuffix(s, marker, n, i);
        hide Replace, MatchesAt, Bracketed, Defanged;
        DefangingReaches(s[n..], marker, i - n);
      }
    } else {
      ReplaceSkipsOne(s, marker, Defanged(marker));
      MatchInSuffix(s, marker, 1, i);
      hide Replace, MatchesAt, Bracketed, Defanged;
      DefangingReaches(s[1..], marker, i - 1);
    }
  }

  /** Parenthesis-free text found after defanging was there before. */
  lemma DefangedTextWasThere(s: string, marker: string, other: string, i: nat)
    requires Bracketed(marker) && other != ""
    requires forall k | 0 <= k < |other| :: other[k] != '(' && other[k] != ')'
    requires MatchesAt(Replace(s, marker, Defanged(marker)), other, i)
    ensures MatchesAt(s, other, i) && Replace(s, marker, Defanged(marker))[i] == other[0]
  {
    DefangingPointwise(s, marker);
    var r := Replace(s, marker, Defanged(marker));
    hide Replace;
    forall k | 0 <= k < |other|
      ensures s[i + k] == other[k] == r[i + k]
    {
      assert r[i + k] == r[i..i + |other|][k];
    }
    assert s[i..i + |other|] == other;
  }

  /** Defanging removes its marker and brings about no parenthesis-free text that was not there. */
  lemma DefangingRemoves(s: string, marker: string, other: string)
    requires Bracketed(marker)
    requires other == marker || Lacks(s, other)
    requires other != "" && forall i | 0 <= i < |other| :: other[i] != '(' && other[i] != ')'
    ensures Lacks(Replace(s, marker, Defanged(marker)), other)
  {
    hide Replace, MatchesAt;
    forall i: nat
      ensures !MatchesAt(Replace(s, marker, Defanged(marker)), other, i)
    {
      if MatchesAt(Replace(s, marker, Defanged(marker)), other, i) {
        DefangedTextWasThere(s, marker, other, i);
        if other == marker {
          DefangingReaches(s, marker, i);
        }
      }
    }
  }

  // ---------------------------------------------------------------- the laws

  lemma Markers()
    ensures Bracketed(CONTEXT) && Defanged(CONTEXT) == "(Context)"
    ensures Bracketed(PAYLOAD) && Defanged(PAYLOAD) == "(Payload)"
    ensures Bracketed(DECODED) && Defanged(DECODED) == "(Decoded)"
  {
    assert CONTEXT[1..8] == "Context" && PAYLOAD[1..8] == "Payload" && DECODED[1..8] == "Decoded";
  }

  lemma TokensSplit(s: string)
    ensures var s2 := Replace(Replace(s, OPEN, "< |"), CLOSE, "| >");
            Lacks(s2, OPEN) && Lacks(s2, CLOSE)
  {
    var s1 := Replace(s, OPEN, "< |");
    var s2 := Replace(s1, CLOSE, "| >");
    SplittingPairs(s, '<', '|', '<', '|');
    SplittingPairs(s1, '|', '>', '<', '|');
    SplittingPairs(s1, '|', '>', '|', '>');
    PairIsMarker(s2, '<', '|');
    PairIsMarker(s2, '|', '>');
  }

  /** Whatever the input, the sanitised text contains none of the five markers. */
  lemma MarkersEliminated(s: string)
    ensures FreeOfMarkers(Sanitize(s))
  {
    Markers();
    TokensSplit(s);
    hide Replace, Lacks;
    var s2 := Replace(Replace(s, OPEN, "< |"), CLOSE, "| >");
    DefangingRemoves(s2, CONTEXT, OPEN);
    DefangingRemoves(s2, CONTEXT, CLOSE);
    DefangingRemoves(s2, CONTEXT, CONTEXT);
    var s3 := Replace(s2, CONTEXT, "(Context)");
    DefangingRemoves(s3, PAYLOAD, OPEN);
    DefangingRemoves(s3, PAYLOAD, CLOSE);
    DefangingRemoves(s3, PAYLOAD, CONTEXT);
    DefangingRemoves(s3, PAYLOAD, PAYLOAD);
    var s4 := Replace(s3, PAYLOAD, "(Payload)");
    DefangingRemoves(s4, DECODED, OPEN);
    DefangingRemoves(s4, DECODED, CLOSE);
    DefangingRemoves(s4, DECODED, CONTEXT);
    DefangingRemoves(s4, DECODED, PAYLOAD);
    DefangingRemoves(s4, DECODED, DECODED);
  }

  /** Text is left alone exactly when it is free of markers; hence sanitising twice changes nothing. */
  lemma UnchangedExactlyWhenFree(s: string)
    ensures Sanitize(s) == s <==> FreeOfMarkers(s)
    ensures Sanitize(Sanitize(s)) == Sanitize(s)
  {
    MarkersEliminated(s);
    if FreeOfMarkers(s) {
      FreeIsFixed(s);
    }
    FreeIsFixed(Sanitize(s));
  }

  lemma FreeIsFixed(s: string)
    requires FreeOfMarkers(s)
    ensures Sanitize(s) == s
  {
    hide Replace, Lacks;
    ReplaceOfLacking(s, OPEN, "< |");
    ReplaceOfLacking(s, CLOSE, "| >");
    ReplaceOfLacking(s, CONTEXT, "(Context)");
    ReplaceOfLacking(s, PAYLOAD, "(Payload)");
    ReplaceOfLacking(s, DECODED, "(Decoded)");
  }
}
