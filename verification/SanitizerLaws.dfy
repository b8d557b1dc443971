/** What sanitising does to every character, told without the replacement passes. */
module SanitizerLaws {
  import opened Strings
  import opened PromptSanitizer

  // ---------------------------------------------------------------- the chat tokens

  predicate TokenEdge(x: char, y: char) {
    (x == '<' && y == '|') || (x == '|' && y == '>')
  }

  /** A blank is put into every edge of a chat token. */
  function Blanked(s: string): string {
    if |s| < 2 then s
    else [s[0]] + (if TokenEdge(s[0], s[1]) then " " else "") + Blanked(s[1..])
  }

  /** The blank put into one kind of pair. */
  function Split(s: string, a: char, b: char): string {
    if |s| < 2 then s
    else [s[0]] + (if s[0] == a && s[1] == b then " " else "") + Split(s[1..], a, b)
  }

  lemma {:induction false} ReplaceSplits(s: string, a: char, b: char)
    requires a != b
    ensures Replace(s, [a, b], [a, ' ', b]) == Split(s, a, b)
    decreases |s|
  {
    if |s| >= 2 {
      if s[0] == a && s[1] == b {
        ReplaceHere(s, a, b);
        ReplaceSplits(s[1..], a, b);
        hide Replace;
        AfterB(s[1..], a, b);
        assert s[1..][1..] == s[2..];
      } else {
        ReplaceSplits(s[1..], a, b);
        ReplaceLater(s, a, b);
      }
    }
  }

  lemma AfterB(s: string, a: char, b: char)
    requires s != "" && s[0] == b && a != b
    ensures Replace(s, [a, b], [a, ' ', b]) == [b] + Replace(s[1..], [a, b], [a, ' ', b])
  {
    ReplaceLater(s, a, b);
  }

  lemma {:induction false} SplitTwice(s: string)
    ensures Split(Split(s, '<', '|'), '|', '>') == Blanked(s)
    ensures s != "" ==> Split(s, '<', '|') != "" && Split(s, '<', '|')[0] == s[0]
  {
    if |s| >= 2 {
      SplitTwice(s[1..]);
      var rest := Split(s[1..], '<', '|');
      var once := Split(s, '<', '|');
      if s[0] == '<' && s[1] == '|' {
        assert once == ['<', ' '] + rest;
        assert once[1..] == [' '] + rest && once[1..][1..] == rest;
        assert Split(once[1..], '|', '>') == [' '] + Split(rest, '|', '>');
      } else {
        assert once == [s[0]] + rest;
        assert once[1..] == rest;
      }
    }
  }

  // ---------------------------------------------------------------- the section markers

  /** One of the three section markers stands at `i`. */
  predicate MarkedAt(s: string, i: nat) {
    MatchesAt(s, "[Context]", i) || MatchesAt(s, "[Payload]", i) || MatchesAt(s, "[Decoded]", i)
  }

  /** Nine characters in brackets without brackets or parentheses inside. */
  predicate Marker(m: string) {
    && Bracketed(m) && |m| == 9 && m[8] == ']'
    && forall i | 0 <= i < 8 :: m[i] != ']'
  }

  /** The character that defanging one marker leaves at `i`. */
  function Defanging(s: string, m: string, i: nat): char
    requires i < |s|
  {
    if MatchesAt(s, m, i) then '(' else if i >= 8 && MatchesAt(s, m, i - 8) then ')' else s[i]
  }

  lemma MatchFromLater(s: string, m: string, k: nat, i: nat)
    requires k <= i <= |s|
    ensures MatchesAt(s, m, i) <==> MatchesAt(s[k..], m, i - k)
  {
    if i + |m| <= |s| {
      assert s[k..][i - k..i - k + |m|] == s[i..i + |m|];
    }
  }

  lemma InBrackets(s: string, m: string, i: nat)
    requires Marker(m) && MatchesAt(s, m, i)
    ensures s[i] == '[' && s[i + 8] == ']'
  {
    assert s[i..i + 9][0] == s[i] && s[i..i + 9][8] == s[i + 8];
  }

  lemma DefangingLater(s: string, m: string, k: nat, i: nat)
    requires Marker(m) && k <= i < |s|
    requires forall j: nat | i - 8 <= j < k :: !MatchesAt(s, m, j)
    ensures Defanging(s, m, i) == Defanging(s[k..], m, i - k)
  {
    MatchFromLater(s, m, k, i);
    if i - 8 >= k {
      MatchFromLater(s, m, k, i - 8);
    }
    hide MatchesAt;
  }

  lemma DefangingHead(s: string, m: string, i: nat)
    requires Marker(m) && MatchesAt(s, m, 0) && i < 9
    ensures Defanging(s, m, i) == Defanged(m)[i]
  {
    assert forall j | 0 <= j < 9 :: s[j] == s[0..9][j];
    if i > 0 && MatchesAt(s, m, i) {
      InBrackets(s, m, i);
    }
  }

  lemma HeadMatchesAlone(s: string, m: string, j: nat)
    requires Marker(m) && MatchesAt(s, m, 0) && 0 < j < 9
    ensures !MatchesAt(s, m, j)
  {
    assert s[j] == s[0..9][j];
    if MatchesAt(s, m, j) {
      InBrackets(s, m, j);
    }
  }

  lemma {:induction false} DefangedExactly(s: string, m: string, i: nat)
    requires Marker(m) && i < |s|
    ensures var r := Replace(s, m, Defanged(m)); |r| == |s| && r[i] == Defanging(s, m, i)
    decreases |s|
  {
    DefangingPointwise(s, m);
    if MatchesAt(s, m, 0) {
      ReplaceAtStart(s, m, Defanged(m));
      hide Replace;
      if i < 9 {
        DefangingHead(s, m, i);
      } else {
        forall j: nat | i - 8 <= j < 9
          ensures !MatchesAt(s, m, j)
        {
          HeadMatchesAlone(s, m, j);
        }
        DefangingLater(s, m, 9, i);
        DefangedExactly(s[9..], m, i - 9);
      }
    } else {
      ReplaceSkipsOne(s, m, Defanged(m));
      hide Replace;
      if i > 0 {
        DefangingLater(s, m, 1, i);
        DefangedExactly(s[1..], m, i - 1);
      }
    }
  }

  /** Defanging one marker neither brings about nor takes away another. */
  lemma OthersStay(s: string, m: string, other: string, i: nat)
    requires Marker(m) && Marker(other) && m != other
    ensures MatchesAt(Replace(s, m, Defanged(m)), other, i) <==> MatchesAt(s, other, i)
  {
    var r := Replace(s, m, Defanged(m));
    hide Replace;
    if MatchesAt(r, other, i) {
      DefangedTextWasThere(s, m, other, i);
    }
    if MatchesAt(s, other, i) {
      forall k | 0 <= k < 9
        ensures i + k < |r| && r[i + k] == other[k]
      {
        DefangedExactly(s, m, i + k);
        assert s[i..i + 9][k] == s[i + k] == other[k];
        StaysInside(s, m, other, i, k);
      }
      assert r[i..i + 9] == other;
    }
  }

  lemma StaysInside(s: string, m: string, other: string, i: nat, k: nat)
    requires Marker(m) && Marker(other) && m != other && MatchesAt(s, other, i) && k < 9
    ensures Defanging(s, m, i + k) == other[k]
  {
    assert s[i..i + 9][k] == s[i + k] == other[k];
    if MatchesAt(s, m, i + k) {
      InBrackets(s, m, i + k);
    }
    if i + k >= 8 && MatchesAt(s, m, i + k - 8) {
      InBrackets(s, m, i + k - 8);
    }
  }

  lemma Markers3()
    ensures Marker(CONTEXT) && Marker(PAYLOAD) && Marker(DECODED)
    ensures CONTEXT != PAYLOAD && CONTEXT != DECODED && PAYLOAD != DECODED
  {
    assert CONTEXT[1] != PAYLOAD[1] && CONTEXT[1] != DECODED[1] && PAYLOAD[1] != DECODED[1];
  }

  lemma NotBoth(t: string, i: nat)
    requires Marker(CONTEXT) && Marker(PAYLOAD) && Marker(DECODED) && i >= 8 && MarkedAt(t, i - 8)
    ensures !MarkedAt(t, i)
  {
    hide MatchesAt, Marker;
    var j := i - 8;
    var m := if MatchesAt(t, CONTEXT, j) then CONTEXT else if MatchesAt(t, PAYLOAD, j) then PAYLOAD else DECODED;
    InBrackets(t, m, i - 8);
    if MarkedAt(t, i) {
      var n := if MatchesAt(t, CONTEXT, i) then CONTEXT else if MatchesAt(t, PAYLOAD, i) then PAYLOAD else DECODED;
      InBrackets(t, n, i);
    }
  }

  lemma DefangedAll(t: string, u: string, v: string, i: nat)
    requires Marker(CONTEXT) && Marker(PAYLOAD) && Marker(DECODED)
    requires CONTEXT != PAYLOAD && CONTEXT != DECODED && PAYLOAD != DECODED
    requires u == Replace(t, CONTEXT, Defanged(CONTEXT)) && v == Replace(u, PAYLOAD, Defanged(PAYLOAD)) && i < |t|
    ensures var w := Replace(v, DECODED, Defanged(DECODED));
            && |w| == |t|
            && w[i] == if MarkedAt(t, i) then '(' else if i >= 8 && MarkedAt(t, i - 8) then ')' else t[i]
  {
    hide Replace, MatchesAt, Marker, Bracketed, Defanged;
    DefangedExactly(t, CONTEXT, i);
    DefangedExactly(u, PAYLOAD, i);
    DefangedExactly(v, DECODED, i);
    MarkersStay(t, u, v, i);
    if i >= 8 {
      MarkersStay(t, u, v, i - 8);
      if MarkedAt(t, i - 8) {
        NotBoth(t, i);
      }
    }
  }

  lemma MarkersStay(t: string, u: string, v: string, i: nat)
    requires Marker(CONTEXT) && Marker(PAYLOAD) && Marker(DECODED)
    requires CONTEXT != PAYLOAD && CONTEXT != DECODED && PAYLOAD != DECODED
    requires u == Replace(t, CONTEXT, Defanged(CONTEXT)) && v == Replace(u, PAYLOAD, Defanged(PAYLOAD))
    ensures MatchesAt(u, PAYLOAD, i) <==> MatchesAt(t, PAYLOAD, i)
    ensures MatchesAt(v, DECODED, i) <==> MatchesAt(t, DECODED, i)
  {
    hide Replace, MatchesAt, Marker, Bracketed, Defanged;
    OthersStay(t, CONTEXT, PAYLOAD, i);
    OthersStay(t, CONTEXT, DECODED, i);
    OthersStay(u, PAYLOAD, DECODED, i);
  }

  /** Sanitising puts a blank between < and | and between | and >, and then turns the brackets of the three
      section markers into parentheses. Nothing else changes. */
  lemma SanitizesExactly(s: string, i: nat)
    ensures |Sanitize(s)| == |Blanked(s)|
    ensures var t := Blanked(s);
            i < |t| ==> Sanitize(s)[i] ==
                        if MarkedAt(t, i) then '(' else if i >= 8 && MarkedAt(t, i - 8) then ')' else t[i]
  {
    Markers();
    Markers3();
    ReplaceSplits(s, '<', '|');
    var s1 := Split(s, '<', '|');
    ReplaceSplits(s1, '|', '>');
    SplitTwice(s);
    var t := Blanked(s);
    assert Replace(Replace(s, OPEN, "< |"), CLOSE, "| >") == t;
    hide Replace, MatchesAt, Split, Blanked, Marker, Bracketed, Defanged;
    var u := Replace(t, CONTEXT, "(Context)");
    var v := Replace(u, PAYLOAD, "(Payload)");
    if t != "" {
      DefangedAll(t, u, v, if i < |t| then i else 0);
    }
  }
}
