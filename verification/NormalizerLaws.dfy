/** Payload normalisation told without the code's own functions: what is decoded, what counts as a comment,
    and what becomes of the rest. */
module NormalizerLaws {
  import opened Options
  import opened Strings
  import opened PayloadNormalizer

  // ---------------------------------------------------------------- one decoding pass

  /** % and two hex digits, high first, in either case, stand for the character of that value. */
  lemma PercentDecodes(high: char, low: char, v: int, w: int, rest: string)
    requires IsDigit(high, v) && IsDigit(low, w)
    ensures Decode(['%', high, low] + rest) == [(16 * v + w) as char] + Decode(rest)
  {
    DigitValue(high, v);
    DigitValue(low, w);
    hide HexVal, IsDigit;
    var s := ['%', high, low] + rest;
    assert s[3..] == rest;
    NoDigitIsU(high, v);
  }

  /** % and u, in either case, and four characters stand for the value of the last two, if these are digits. */
  lemma UnicodeDecodes(u: char, x: char, y: char, high: char, low: char, v: int, w: int, rest: string)
    requires (u == 'u' || u == 'U') && IsDigit(high, v) && IsDigit(low, w)
    ensures Decode(['%', u, x, y, high, low] + rest) == [(16 * v + w) as char] + Decode(rest)
  {
    DigitValue(high, v);
    DigitValue(low, w);
    hide HexVal, IsDigit;
    var s := ['%', u, x, y, high, low] + rest;
    assert s[6..] == rest;
  }

  lemma PlusDecodes(rest: string)
    ensures Decode("+" + rest) == " " + Decode(rest)
  {
    assert ("+" + rest)[1..] == rest;
  }

  /** The text starts with the two digits of some value. */
  ghost predicate StartsWithDigits(s: string) {
    |s| >= 2 && exists v, w :: IsDigit(s[0], v) && IsDigit(s[1], w)
  }

  ghost predicate StartsCode(s: string) {
    || StartsWithDigits(s)
    || (s != "" && (s[0] == 'u' || s[0] == 'U') && |s| >= 5 && StartsWithDigits(s[3..]))
  }

  /** Every other character is copied. */
  lemma OthersCopied(c: char, rest: string)
    requires c != '+' && (c == '%' ==> !StartsCode(rest))
    ensures Decode([c] + rest) == [c] + Decode(rest)
  {
    var s := [c] + rest;
    assert s[1..] == rest;
    if c == '%' && |s| > 2 && IsHex(s[1]) && IsHex(s[2]) {
      DigitValue(s[1], HexVal(s[1]));
      DigitValue(s[2], HexVal(s[2]));
      assert StartsWithDigits(rest);
    }
    if c == '%' && |s| > 5 && IsHex(s[4]) && IsHex(s[5]) {
      DigitValue(s[4], HexVal(s[4]));
      DigitValue(s[5], HexVal(s[5]));
      assert rest[3..][0] == s[4] && rest[3..][1] == s[5];
      assert StartsWithDigits(rest[3..]);
    }
  }

  lemma NothingDecodes()
    ensures Decode("") == ""
  {
  }

  lemma NoDigitIsU(c: char, v: int)
    requires IsDigit(c, v)
    ensures c != 'u' && c != 'U'
  {
    DigitValue(c, v);
  }

  // ---------------------------------------------------------------- the pieces of the decoded text

  /** No star and slash start in `t` between the two positions. */
  predicate NoClose(t: string, from: nat, to: int) {
    forall k | from <= k < to && k + 1 < |t| :: !(t[k] == '*' && t[k + 1] == '/')
  }

  predicate IsBlockComment(t: string, last: bool) {
    && |t| >= 2 && t[0] == '/' && t[1] == '*'
    && (|| (|t| >= 4 && t[|t| - 2] == '*' && t[|t| - 1] == '/' && NoClose(t, 2, |t| - 2))
        || (last && NoClose(t, 2, |t|)))
  }

  predicate IsLineComment(t: string, last: bool) {
    && |t| >= 2 && t[0] == '-' && t[1] == '-'
    && (|| (t[|t| - 1] == '\n' && '\n' !in t[..|t| - 1])
        || (last && '\n' !in t))
  }

  /** The character opens a comment with the text behind it. */
  predicate OpensWith(c: char, behind: string) {
    behind != "" && ((c == '/' && behind[0] == '*') || (c == '-' && behind[0] == '-'))
  }

  /** The pieces are comments, and characters that do not open one. A block comment ends with the first star
      and slash behind its opener, a line comment with its line; the last may be without an end. */
  predicate WellLexed(ts: seq<Token>) {
    ts == [] ||
    (&& WellLexed(ts[1..])
     && match ts[0]
        case Comment(t) => IsBlockComment(t, ts[1..] == []) || IsLineComment(t, ts[1..] == [])
        case Char(c) => !OpensWith(c, Texts(ts[1..])))
  }

  lemma PairAt(s: string, a: char, b: char, i: nat)
    ensures MatchesAt(s, [a, b], i) <==> i + 1 < |s| && s[i] == a && s[i + 1] == b
  {
    if i + 1 < |s| {
      assert s[i..i + 2] == [s[i], s[i + 1]];
    }
  }

  lemma AfterEnd(s: string, t: string, rest: string, skip: nat)
    requires s == t + rest && skip <= |t|
    ensures After(s, Some(|t| - skip), skip) == rest
  {
    assert s[|t|..] == rest;
  }

  lemma BlockCommentEnds(s: string, t: string, rest: string)
    requires s == t + rest && IsBlockComment(t, rest == "")
    ensures MatchesAt(s, "/*", 0) && After(s, Find(s, "*/", 2), 2) == rest
  {
    PairAt(s, '/', '*', 0);
    FindIsFirst(s, "*/", 2);
    hide Find, MatchesAt;
    if |t| >= 4 && t[|t| - 2] == '*' && t[|t| - 1] == '/' && NoClose(t, 2, |t| - 2) {
      forall i: nat | 2 <= i <= |t| - 2
        ensures MatchesAt(s, "*/", i) <==> i == |t| - 2
      {
        PairAt(s, '*', '/', i);
      }
      FindIs(s, "*/", 2, |t| - 2);
      hide After;
      AfterEnd(s, t, rest, 2);
    } else {
      forall i: nat | 2 <= i
        ensures !MatchesAt(s, "*/", i)
      {
        PairAt(s, '*', '/', i);
      }
    }
  }

  lemma LineCommentEnds(s: string, t: string, rest: string)
    requires s == t + rest && IsLineComment(t, rest == "")
    ensures !MatchesAt(s, "/*", 0) && MatchesAt(s, "--", 0) && After(s, Find(s, "\n", 0), 1) == rest
  {
    assert s[0..2] == "--";
    FindIsFirst(s, "\n", 0);
    hide Find;
    if t[|t| - 1] == '\n' && '\n' !in t[..|t| - 1] {
      assert s[|t| - 1..|t|] == "\n";
      assert MatchesAt(s, "\n", |t| - 1);
      forall i: nat | i < |t| - 1
        ensures !MatchesAt(s, "\n", i)
      {
        assert s[i..i + 1] == [t[..|t| - 1][i]];
      }
      assert s[|t|..] == rest;
    } else {
      forall i: nat
        ensures !MatchesAt(s, "\n", i)
      {
        assert i + 1 <= |s| ==> s[i..i + 1] == [t[i]];
      }
    }
  }

  lemma CharKept(s: string, c: char, rest: string)
    requires s == [c] + rest && !OpensWith(c, rest)
    ensures !MatchesAt(s, "/*", 0) && !MatchesAt(s, "--", 0) && s[0] == c && s[1..] == rest
  {
    assert |s| >= 2 ==> s[0..2] == [c, rest[0]];
  }

  lemma NoTextNoPieces(ts: seq<Token>)
    requires WellLexed(ts)
    ensures Texts(ts) == "" <==> ts == []
  {
  }

  lemma CommentFound(t: string, rest: string)
    requires IsBlockComment(t, rest == "") || IsLineComment(t, rest == "")
    ensures Lex(t + rest) == [Comment(t)] + Lex(rest)
  {
    var s := t + rest;
    assert s[..|s| - |rest|] == t;
    if IsBlockComment(t, rest == "") {
      BlockCommentEnds(s, t, rest);
    } else {
      LineCommentEnds(s, t, rest);
    }
    hide Find, MatchesAt, After, IsBlockComment, IsLineComment;
  }

  lemma CharFound(c: char, rest: string)
    requires !OpensWith(c, rest)
    ensures Lex([c] + rest) == [Char(c)] + Lex(rest)
  {
    CharKept([c] + rest, c, rest);
    hide Find, MatchesAt, After, OpensWith;
  }

  lemma TextOf(t: Token)
    ensures Text(t) == match t case Comment(text) => text case Char(c) => [c]
  {
  }

  lemma SplitOff(ts: seq<Token>)
    requires ts != []
    ensures ts == [ts[0]] + ts[1..]
  {
  }

  lemma FirstText(ts: seq<Token>)
    requires ts != []
    ensures Texts(ts) == Text(ts[0]) + Texts(ts[1..])
  {
  }

  lemma FirstWellLexed(ts: seq<Token>)
    requires WellLexed(ts) && ts != []
    ensures WellLexed(ts[1..])
    ensures match ts[0]
            case Comment(t) => IsBlockComment(t, Texts(ts[1..]) == "") || IsLineComment(t, Texts(ts[1..]) == "")
            case Char(c) => !OpensWith(c, Texts(ts[1..]))
  {
    NoTextNoPieces(ts[1..]);
    hide IsBlockComment, IsLineComment, OpensWith;
  }

  /** There is only one way to take a text apart like that, and it is how comments are found. */
  lemma {:induction false} PiecesUnique(ts: seq<Token>)
    requires WellLexed(ts)
    ensures Lex(Texts(ts)) == ts
  {
    if ts != [] {
      hide *;
      FirstWellLexed(ts);
      PiecesUnique(ts[1..]);
      FirstText(ts);
      SplitOff(ts);
      match ts[0]
      case Comment(t) =>
        CommentFound(t, Texts(ts[1..]));
        TextOf(ts[0]);
      case Char(c) =>
        CharFound(c, Texts(ts[1..]));
        TextOf(ts[0]);
    }
  }

  lemma BlockCommentIs(s: string)
    requires MatchesAt(s, "/*", 0)
    ensures var rest := After(s, Find(s, "*/", 2), 2);
            |rest| < |s| && IsBlockComment(s[..|s| - |rest|], rest == "") && s[..|s| - |rest|] + rest == s
  {
    assert s[0..2] == "/*";
    FindIsFirst(s, "*/", 2);
    var rest := After(s, Find(s, "*/", 2), 2);
    var end := Find(s, "*/", 2);
    hide Find;
    var t := s[..|s| - |rest|];
    var to := if end.Some? then |t| - 2 else |t|;
    assert end.Some? ==> s[end.value..end.value + 2] == "*/";
    forall k | 2 <= k < to && k + 1 < |t|
      ensures !(t[k] == '*' && t[k + 1] == '/')
    {
      assert !MatchesAt(s, "*/", k);
      assert s[k..k + 2] == [t[k], t[k + 1]];
    }
  }

  lemma LineCommentIs(s: string)
    requires MatchesAt(s, "--", 0)
    ensures var rest := After(s, Find(s, "\n", 0), 1);
            |rest| < |s| && IsLineComment(s[..|s| - |rest|], rest == "") && s[..|s| - |rest|] + rest == s
  {
    assert s[0..2] == "--";
    FindIsFirst(s, "\n", 0);
    var end := Find(s, "\n", 0);
    var rest := After(s, end, 1);
    hide Find;
    var t := s[..|s| - |rest|];
    var to := if end.Some? then |t| - 1 else |t|;
    assert end.Some? ==> s[end.value..end.value + 1] == "\n";
    forall k | 0 <= k < to
      ensures t[..to][k] != '\n'
    {
      assert !MatchesAt(s, "\n", k);
      assert s[k..k + 1] == [t[k]];
    }
    assert end.None? ==> t[..to] == t;
  }

  /** And every text can be taken apart like that. */
  lemma {:induction false} PiecesExist(s: string)
    ensures WellLexed(Lex(s)) && Texts(Lex(s)) == s
    decreases |s|
  {
    LexSplits(s);
    if s != "" {
      hide Find, After, IsBlockComment, IsLineComment;
      if MatchesAt(s, "/*", 0) {
        BlockCommentIs(s);
        PiecesExist(After(s, Find(s, "*/", 2), 2));
      } else if MatchesAt(s, "--", 0) {
        LineCommentIs(s);
        PiecesExist(After(s, Find(s, "\n", 0), 1));
      } else {
        PiecesExist(s[1..]);
        assert |s| >= 2 ==> s[0..2] == [s[0], s[1]];
      }
    }
  }

  // ---------------------------------------------------------------- what is kept

  /** The characters outside comments. */
  function Kept(ts: seq<Token>): string {
    if ts == [] then ""
    else
      match ts[0]
      case Comment(_) => Kept(ts[1..])
      case Char(c) => [c] + Kept(ts[1..])
  }

  /** A blank, one of the characters 9 to 13 and the space, is left out behind another and else becomes a
      space; of all other characters the capitals are made small. */
  function Tidy(s: string): string {
    if s == "" then ""
    else
      var n := |s| - 1;
      var before, c := Tidy(s[..n]), s[n];
      if c == ' ' || 9 <= c as int <= 13 then
        if before != "" && before[|before| - 1] == ' ' then before else before + " "
      else before + [if 65 <= c as int <= 90 then (c as int + 32) as char else c]
  }

  predicate EndsInSpace(s: string) {
    s != "" && s[|s| - 1] == ' '
  }

  lemma TidyMore(s: string, c: char)
    ensures var t := Tidy(s);
            Tidy(s + [c]) == (if !IsBlank(c) then t + [Lower(c)] else if EndsInSpace(t) then t else t + " ")
    ensures EndsInSpace(Tidy(s + [c])) <==> IsBlank(c)
  {
    assert (s + [c])[..|s|] == s;
    hide Tidy;
    assert IsBlank(c) <==> c == ' ' || 9 <= c as int <= 13;
  }

  lemma RenderAppends(out: string, ts: seq<Token>, prevSpace: bool)
    requires ts != [] && ts[0].Char?
    ensures var c := ts[0].c;
            out + Render(ts, prevSpace) ==
              (if !IsBlank(c) then out + [Lower(c)] else if prevSpace then out else out + " ")
              + Render(ts[1..], IsBlank(c))
  {
    hide IsBlank, Lower;
    var more := Render(ts[1..], true);
    assert out + (" " + more) == out + " " + more && out + ("" + more) == out + more;
  }

  lemma KeptSplits(ts: seq<Token>, before: string, after: string)
    requires ts != [] && ts[0].Char? && after == before + [ts[0].c]
    ensures after + Kept(ts[1..]) == before + Kept(ts)
  {
    assert Kept(ts) == [ts[0].c] + Kept(ts[1..]);
  }

  lemma CharTidied(ts: seq<Token>, before: string, after: string)
    requires ts != [] && ts[0].Char? && after == before + [ts[0].c]
    requires Tidy(after) + Render(ts[1..], EndsInSpace(Tidy(after))) == Tidy(after + Kept(ts[1..]))
    ensures Tidy(before) + Render(ts, EndsInSpace(Tidy(before))) == Tidy(before + Kept(ts))
  {
    hide *;
    KeptSplits(ts, before, after);
    TidyMore(before, ts[0].c);
    RenderAppends(Tidy(before), ts, EndsInSpace(Tidy(before)));
  }

  lemma {:induction false} RenderTidies(ts: seq<Token>, before: string)
    ensures Tidy(before) + Render(ts, EndsInSpace(Tidy(before))) == Tidy(before + Kept(ts))
    decreases |ts|
  {
    hide Tidy, IsBlank, Lower, EndsInSpace;
    if ts == [] {
      assert before + Kept(ts) == before;
    } else {
      match ts[0]
      case Comment(_) => RenderTidies(ts[1..], before);
      case Char(c) =>
        RenderTidies(ts[1..], before + [c]);
        CharTidied(ts, before, before + [c]);
    }
  }

  /** Of the first 65536 characters, decoded three times over and taken apart in any way that finds comments
      as above, what is normalised is what is left outside the comments, tidied up. */
  lemma NormalizesExactly(raw: string, ts: seq<Token>)
    requires WellLexed(ts)
    requires Texts(ts) == Decode(Decode(Decode(if |raw| <= 65536 then raw else raw[..65536])))
    ensures Normalize(raw) == Tidy(Kept(ts))
  {
    var capped := raw[..if |raw| < 65536 then |raw| else 65536];
    assert |raw| <= 65536 ==> capped == raw;
    ThreeTimes(capped);
    hide Decode, Fold, Lex, WellLexed, Texts, Tidy, Kept, Render;
    PiecesUnique(ts);
    FoldRenders(Texts(ts), false);
    TidyNothing();
    RenderTidies(ts, "");
    assert "" + Render(ts, false) == Render(ts, false) && "" + Kept(ts) == Kept(ts);
  }

  lemma TidyNothing()
    ensures Tidy("") == "" && !EndsInSpace("")
  {
  }

  lemma ThreeTimes(s: string)
    ensures DecodeTimes(s, 3) == Decode(Decode(Decode(s)))
  {
    hide Decode;
    assert DecodeTimes(s, 3) == DecodeTimes(Decode(s), 2);
    assert DecodeTimes(Decode(s), 2) == DecodeTimes(Decode(Decode(s)), 1);
  }
}
