/** What loading reads out of any line of a model file. */
module ModelReading {
  import opened Sequences
  import opened Strings
  import opened Decimal
  import opened MarkovModels
  import opened ModelFile

  // ---------------------------------------------------------------- words

  predicate Blank(c: char) {
    c == ' ' || 9 <= c as int <= 13
  }

  predicate Blanks(s: string) {
    forall i | 0 <= i < |s| :: Blank(s[i])
  }

  predicate Solid(s: string) {
    forall i | 0 <= i < |s| :: !Blank(s[i])
  }

  lemma {:induction false} BlanksSkipped(blanks: string, rest: string)
    requires Blanks(blanks) && (rest == "" || !Blank(rest[0]))
    ensures SkipSpaces(blanks + rest) == rest
  {
    if blanks == "" {
      assert blanks + rest == rest;
    } else {
      assert (blanks + rest)[1..] == blanks[1..] + rest;
      BlanksSkipped(blanks[1..], rest);
    }
  }

  lemma {:induction false} WordMeasured(word: string, rest: string)
    requires Solid(word) && (rest == "" || Blank(rest[0]))
    ensures WordLength(word + rest) == |word|
  {
    if word == "" {
      assert word + rest == rest;
    } else {
      assert (word + rest)[1..] == word[1..] + rest;
      WordMeasured(word[1..], rest);
    }
  }

  /** A word runs from the first character that is not blank to the next blank. */
  lemma WordRead(blanks: string, word: string, rest: string)
    requires Blanks(blanks) && Solid(word) && word != "" && (rest == "" || Blank(rest[0]))
    ensures NextWord(blanks + word + rest) == Extracted(word, rest)
  {
    Associate(blanks, word, rest);
    assert (word + rest)[0] == word[0];
    BlanksSkipped(blanks, word + rest);
    WordMeasured(word, rest);
    hide SkipSpaces, WordLength;
    assert (word + rest)[..|word|] == word && (word + rest)[|word|..] == rest;
  }

  lemma NoWordRead(blanks: string)
    requires Blanks(blanks)
    ensures NextWord(blanks) == Extracted("", "")
  {
    BlanksSkipped(blanks, "");
    assert blanks + "" == blanks;
  }

  // ---------------------------------------------------------------- counts and sizes

  predicate IsSign(sign: string) {
    sign == "" || sign == "-" || sign == "+"
  }

  predicate NoDigit(rest: string) {
    rest == "" || !IsDigit(rest[0])
  }

  lemma SignMeasured(sign: string, rest: string)
    requires IsSign(sign) && (sign != "" || rest == "" || (rest[0] != '-' && rest[0] != '+'))
    ensures SignLength(sign + rest) == |sign| && (sign + rest)[|sign|..] == rest
    ensures sign + rest != "" ==> ((sign + rest)[0] == '-' <==> sign == "-")
  {
    if sign == "" {
      assert sign + rest == rest;
    }
  }

  lemma LongFrom(s: string, t: string, sign: nat, digits: string)
    requires SkipSpaces(s) == t && t != "" && SignLength(t) == sign
    requires digits != "" && AllDigits(digits) && DigitCount(t[sign..]) == |digits| && t[sign..][..|digits|] == digits
    ensures var size: int := Value(digits);
            var v := if t[0] == '-' then -size else size;
            ParseLong(s) == if -0x8000_0000_0000_0000 <= v <= 0x7FFF_FFFF_FFFF_FFFF then Ok(v) else Thrown
  {
    hide SkipSpaces, SignLength, DigitCount, Value, AllDigits;
  }

  lemma NegativeSize(v: int)
    requires 0 <= v < 0x1_0000_0000_0000_0000
    ensures -v % 0x1_0000_0000_0000_0000 == if v > 0 then 0x1_0000_0000_0000_0000 - v else 0
  {
  }

  lemma SizeFrom(s: string, t: string, sign: nat, digits: string, rest: string)
    requires SkipSpaces(s) == t && t != "" && SignLength(t) == sign
    requires digits != "" && AllDigits(digits) && DigitCount(t[sign..]) == |digits| && t[sign..][..|digits|] == digits
    requires t[sign..][|digits|..] == rest
    ensures var v: int := Value(digits);
            ReadSize(s) ==
              if v >= 0x1_0000_0000_0000_0000 then SizeRead(false, 0xFFFF_FFFF_FFFF_FFFF, rest)
              else SizeRead(true, if t[0] == '-' && v > 0 then 0x1_0000_0000_0000_0000 - v else v, rest)
  {
    hide SkipSpaces, SignLength, DigitCount, Value, AllDigits;
    if Value(digits) < 0x1_0000_0000_0000_0000 {
      NegativeSize(Value(digits));
    }
  }

  /** A count may have blanks and a sign before it and anything else behind it; it must fit 64 bits. */
  lemma CountRead(blanks: string, sign: string, digits: string, rest: string)
    requires Blanks(blanks) && IsSign(sign) && digits != "" && AllDigits(digits) && NoDigit(rest)
    ensures var size: int := Value(digits);
            var v := if sign == "-" then -size else size;
            ParseLong(blanks + (sign + (digits + rest))) ==
              if -0x8000_0000_0000_0000 <= v <= 0x7FFF_FFFF_FFFF_FFFF then Ok(v) else Thrown
  {
    NumberMeasured(blanks, sign, digits, rest);
    hide *;
    var t := sign + (digits + rest);
    LongFrom(blanks + t, t, |sign|, digits);
  }

  /** Without a digit there is no count. */
  lemma NoCountRead(blanks: string, sign: string, rest: string)
    requires Blanks(blanks) && IsSign(sign) && NoDigit(rest)
    requires sign != "" || rest == "" || (!Blank(rest[0]) && rest[0] != '-' && rest[0] != '+')
    ensures ParseLong(blanks + (sign + rest)) == Thrown
  {
    var t := sign + rest;
    BlanksSkipped(blanks, t);
    SignMeasured(sign, rest);
  }

  lemma NumberMeasured(blanks: string, sign: string, digits: string, rest: string)
    requires Blanks(blanks) && IsSign(sign) && digits != "" && AllDigits(digits) && NoDigit(rest)
    ensures var t := sign + (digits + rest);
            && SkipSpaces(blanks + t) == t && t != "" && SignLength(t) == |sign| && (t[0] == '-' <==> sign == "-")
            && t[|sign|..] == digits + rest && DigitCount(t[|sign|..]) == |digits|
            && t[|sign|..][..|digits|] == digits && t[|sign|..][|digits|..] == rest
  {
    var t := sign + (digits + rest);
    assert (digits + rest)[0] == digits[0];
    SignMeasured(sign, digits + rest);
    BlanksSkipped(blanks, t);
    DigitsCounted(digits, rest);
  }

  /** A size is a count modulo 2^64, as long as its digits fit 64 bits. */
  lemma SizeIsRead(blanks: string, sign: string, digits: string, rest: string)
    requires Blanks(blanks) && IsSign(sign) && digits != "" && AllDigits(digits) && NoDigit(rest)
    ensures var v: int := Value(digits);
            ReadSize(blanks + (sign + (digits + rest))) ==
              if v >= 0x1_0000_0000_0000_0000 then SizeRead(false, 0xFFFF_FFFF_FFFF_FFFF, rest)
              else SizeRead(true, if sign == "-" && v > 0 then 0x1_0000_0000_0000_0000 - v else v, rest)
  {
    NumberMeasured(blanks, sign, digits, rest);
    hide *;
    var t := sign + (digits + rest);
    SizeFrom(blanks + t, t, |sign|, digits, rest);
  }

  // ---------------------------------------------------------------- tokens

  /** A token with a colon stores the count behind its first colon for the pair that ends in its first
      character, in place of what was stored, and adds it to the totals. */
  lemma TokenStored(m: Model, from: char, token: string, colon: nat, c: int)
    requires colon < |token| && token[colon] == ':' && (forall i | 0 <= i < colon :: token[i] != ':')
    requires ParseLong(token[colon + 1..]) == Ok(c)
    ensures ReadToken(m, from, token).Ok?
    ensures var n, to := ReadToken(m, from, token).value, token[0];
            && (forall f, t :: Cell(n.counts, f, t) == if f == from && t == to then c else Cell(m.counts, f, t))
            && (forall f :: Lookup(n.rowTotals, f) == Lookup(m.rowTotals, f) + if f == from then c else 0)
            && n.alphabet == m.alphabet + {from, to} && n.total == m.total + c && n.name == m.name && n.k == m.k
  {
    hide ParseLong, Find;
    FindChar(token, ':', 0, colon);
  }

  lemma TokenThrows(m: Model, from: char, token: string, colon: nat)
    requires colon < |token| && token[colon] == ':' && (forall i | 0 <= i < colon :: token[i] != ':')
    requires ParseLong(token[colon + 1..]).Thrown?
    ensures ReadToken(m, from, token).Thrown?
  {
    hide ParseLong, Find;
    FindChar(token, ':', 0, colon);
  }

  lemma TokenSkipped(m: Model, from: char, token: string)
    requires token != "" && ':' !in token
    ensures ReadToken(m, from, token) == Ok(m)
  {
    FindNothing(token, ':', 0);
    hide Find;
  }

  // ---------------------------------------------------------------- the other lines

  /** A line with a label, k or alphabet in front sets or adds to that field, if a word follows. */
  lemma FieldRead(l: Loaded, before: string, key: string, between: string, word: string, rest: string,
                  readK: string -> real)
    requires Blanks(before) && key != "" && Solid(key) && between != "" && Blanks(between)
    requires word != "" && Solid(word) && (rest == "" || Blank(rest[0]))
    ensures var line := before + key + (between + word + rest);
            && (key == "label" ==> ReadField(l, line, readK) == l.(model := l.model.(name := word)))
            && (key == "k" ==> ReadField(l, line, readK) == l.(model := l.model.(k := readK(word))))
            && (key == "alphabet" ==>
                  ReadField(l, line, readK) == l.(model := l.model.(alphabet := l.model.alphabet + set c | c in word)))
  {
    hide NextWord;
    assert (between + word + rest)[0] == between[0];
    WordRead(before, key, between + word + rest);
    WordRead(between, word, rest);
  }

  /** The fingerprint is the rest of its line but for one space, and other lines are passed over. */
  lemma ConfigRead(l: Loaded, before: string, key: string, rest: string, readK: string -> real)
    requires Blanks(before) && key != "" && Solid(key) && (rest == "" || Blank(rest[0]))
    ensures key == "config" ==>
              ReadField(l, before + key + rest, readK)
              == l.(fingerprint := if rest != "" && rest[0] == ' ' then rest[1..] else rest)
    ensures key !in {"label", "k", "alphabet", "config"} ==> ReadField(l, before + key + rest, readK) == l
  {
    hide NextWord;
    WordRead(before, key, rest);
  }
}
