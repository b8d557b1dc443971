/** Writing a behavioural model as text and loading it again. */
module ModelFile {
  import opened Sequences
  import opened Strings
  import opened Decimal
  import opened BehavioralEncoding
  import opened MarkovModels

  datatype Result<T> = Ok(value: T) | Thrown

  const INT64_MIN: int := -0x8000_0000_0000_0000
  const INT64_MAX: int := 0x7FFF_FFFF_FFFF_FFFF
  const UINT64: int := 0x1_0000_0000_0000_0000

  // ---------------------------------------------------------------- reading from a stream

  function SkipSpaces(s: string): (r: string)
    ensures |r| <= |s|
    ensures r != "" ==> !IsSpace(r[0])
  {
    if s != "" && IsSpace(s[0]) then SkipSpaces(s[1..]) else s
  }

  function WordLength(s: string): (n: nat)
    ensures n <= |s|
    ensures s != "" && !IsSpace(s[0]) ==> n > 0
  {
    if s == "" || IsSpace(s[0]) then 0 else 1 + WordLength(s[1..])
  }

  datatype Extracted = Extracted(word: string, rest: string)

  /** Extraction of a string: spaces are skipped, and the word ends at the next space. */
  function NextWord(s: string): (r: Extracted)
    ensures r.word != "" ==> |r.rest| < |s|
  {
    var t := SkipSpaces(s);
    var n := WordLength(t);
    Extracted(t[..n], t[n..])
  }

  function SignLength(s: string): (n: nat)
    ensures n <= |s|
  {
    if s != "" && (s[0] == '-' || s[0] == '+') then 1 else 0
  }

  /** Conversion of a text to a signed 64-bit count; no digits and a value out of range throw. */
  function ParseLong(s: string): Result<int> {
    var t := SkipSpaces(s);
    var sign := SignLength(t);
    var n := DigitCount(t[sign..]);
    if n == 0 then Thrown
    else
      var size: int := Value(t[sign..][..n]);
      var v := if t[0] == '-' then -size else size;
      if INT64_MIN <= v <= INT64_MAX then Ok(v) else Thrown
  }

  datatype SizeRead = SizeRead(good: bool, value: int, rest: string)

  /** Extraction of an unsigned 64-bit size; a minus sign negates modulo 2^64, and failure to read
      leaves 0 or the largest value behind. */
  function ReadSize(s: string): SizeRead {
    var t := SkipSpaces(s);
    var sign := SignLength(t);
    var n := DigitCount(t[sign..]);
    if n == 0 then SizeRead(false, 0, t[sign..])
    else
      var v: int := Value(t[sign..][..n]);
      if v >= UINT64 then SizeRead(false, UINT64 - 1, t[sign..][n..])
      else SizeRead(true, if t[0] == '-' then -v % UINT64 else v, t[sign..][n..])
  }

  /** The lines that repeated calls of getline return. */
  function Lines(text: string): seq<string>
    decreases |text|
  {
    if text == "" then []
    else
      match Find(text, "\n", 0)
      case None => [text]
      case Some(n) =>
        FindInRange(text, "\n", 0);
        [text[..n]] + Lines(text[n + 1..])
  }

  // ---------------------------------------------------------------- loading

  /** One stored transition: the count is replaced, while the totals are added to. */
  function AddCell(m: Model, from: char, to: char, c: int): Model {
    m.(counts := m.counts[from := RowOf(m.counts, from)[to := c]],
       rowTotals := m.rowTotals[from := Lookup(m.rowTotals, from) + c],
       alphabet := m.alphabet + {from, to},
       total := m.total + c)
  }

  function ReadToken(m: Model, from: char, token: string): Result<Model>
    requires token != ""
  {
    match Find(token, ":", 0)
    case None => Ok(m)
    case Some(pos) =>
      FindInRange(token, ":", 0);
      var c := ParseLong(token[pos + 1..]);
      if c.Thrown? then Thrown else Ok(AddCell(m, from, token[0], c.value))
  }

  function ReadTokens(m: Model, from: char, s: string): Result<Model>
    decreases |s|
  {
    var w := NextWord(s);
    if w.word == "" then Ok(m)
    else
      var n := ReadToken(m, from, w.word);
      if n.Thrown? then Thrown else ReadTokens(n.value, from, w.rest)
  }

  function ReadRow(m: Model, line: string): Result<Model> {
    var t := SkipSpaces(line);
    if t == "" then Ok(m)
    else
      var size := ReadSize(t[1..]);
      if size.good then ReadTokens(m, t[0], size.rest) else Ok(m)
  }

  /** At most `rows` of the lines from i on, as far as there are any. */
  function ReadRows(m: Model, lines: seq<string>, i: nat, rows: int): Result<Model>
    decreases |lines| - i
  {
    if rows <= 0 || i >= |lines| then Ok(m)
    else
      var n := ReadRow(m, lines[i]);
      if n.Thrown? then Thrown else ReadRows(n.value, lines, i + 1, rows - 1)
  }

  datatype Loaded = Loaded(model: Model, fingerprint: string)

  function CharSet(s: string): set<char> {
    set c | c in s
  }

  /** One line outside the transition rows; `readK` is the conversion of the printed k. */
  function ReadField(l: Loaded, line: string, readK: string -> real): Loaded {
    var key := NextWord(line);
    var word := NextWord(key.rest).word;
    if key.word == "label" then (if word == "" then l else l.(model := l.model.(name := word)))
    else if key.word == "k" then (if word == "" then l else l.(model := l.model.(k := readK(word))))
    else if key.word == "config" then
      l.(fingerprint := if key.rest != "" && key.rest[0] == ' ' then key.rest[1..] else key.rest)
    else if key.word == "alphabet" then l.(model := l.model.(alphabet := l.model.alphabet + CharSet(word)))
    else l
  }

  function NextIndex(lines: seq<string>, i: nat, rows: int): (j: nat)
    requires i < |lines|
    ensures i < j <= |lines|
  {
    if rows <= 0 then i + 1 else if i + 1 + rows > |lines| then |lines| else i + 1 + rows
  }

  function LoadFrom(l: Loaded, lines: seq<string>, i: nat, readK: string -> real): Result<Loaded>
    decreases |lines| - i
  {
    if i >= |lines| then Ok(l)
    else if NextWord(lines[i]).word == "transitions" then
      var rows := ReadSize(NextWord(lines[i]).rest).value;
      var m := ReadRows(l.model, lines, i + 1, rows);
      if m.Thrown? then Thrown else LoadFrom(l.(model := m.value), lines, NextIndex(lines, i, rows), readK)
    else LoadFrom(ReadField(l, lines[i], readK), lines, i + 1, readK)
  }

  /** A default model, and the fingerprint the caller passed in. The first line is not looked at. */
  function Load(text: string, k: real, fingerprint: string, readK: string -> real): Result<Loaded> {
    LoadFrom(Loaded(Untrained("", k), fingerprint), Lines(text), 1, readK)
  }

  // ---------------------------------------------------------------- writing

  /** The order in which the maps are walked: the alphabet, and the rows with the ends of their cells. */
  datatype Layout = Layout(alphabet: seq<char>, rows: seq<(char, seq<char>)>)

  function RowKeys(rows: seq<(char, seq<char>)>): seq<char> {
    seq(|rows|, i requires 0 <= i < |rows| => rows[i].0)
  }

  predicate Lists(layout: Layout, m: Model) {
    && Enumerates(layout.alphabet, m.alphabet)
    && Enumerates(RowKeys(layout.rows), m.counts.Keys)
    && (forall row | row in layout.rows :: Enumerates(row.1, RowOf(m.counts, row.0).Keys))
  }

  function PrintCount(c: int): string {
    if c < 0 then "-" + Print(-c) else Print(c)
  }

  function CellText(counts: Counts, from: char, to: char): string {
    [to] + ":" + PrintCount(Cell(counts, from, to))
  }

  function CellsText(counts: Counts, from: char, tos: seq<char>): string {
    if tos == [] then "" else " " + CellText(counts, from, tos[0]) + CellsText(counts, from, tos[1..])
  }

  function RowText(counts: Counts, row: (char, seq<char>)): string {
    [row.0] + (" " + Print(|row.1|) + CellsText(counts, row.0, row.1))
  }

  function RowTexts(counts: Counts, rows: seq<(char, seq<char>)>): seq<string> {
    if rows == [] then [] else [RowText(counts, rows[0])] + RowTexts(counts, rows[1..])
  }

  const HEADER: string := "WIREWOLF-BEHAVIORAL-MODEL v1"

  function FileLines(m: Model, printedK: string, fingerprint: string, layout: Layout): seq<string> {
    [HEADER, "label " + m.name, "k " + printedK, "config " + fingerprint, "alphabet " + layout.alphabet,
     "transitions " + Print(|layout.rows|)] + RowTexts(m.counts, layout.rows)
  }

  function FileText(lines: seq<string>): string {
    if lines == [] then "" else lines[0] + ("\n" + FileText(lines[1..]))
  }

  function Serialized(m: Model, printedK: string, fingerprint: string, layout: Layout): string {
    FileText(FileLines(m, printedK, fingerprint, layout))
  }

  // ---------------------------------------------------------------- writing, step by step

  method ListKeys(chars: set<char>) returns (keys: seq<char>)
    ensures Enumerates(keys, chars)
  {
    keys := [];
    var left := chars;
    while left != {}
      invariant left <= chars && Enumerates(keys, chars - left)
      decreases left
    {
      var c :| c in left;
      assert c !in CharSet(keys);
      assert CharSet(keys + [c]) == CharSet(keys) + {c};
      assert chars - (left - {c}) == chars - left + {c};
      keys := keys + [c];
      left := left - {c};
    }
  }

  lemma {:induction false} CellsTextAppend(counts: Counts, from: char, tos: seq<char>, to: char)
    ensures CellsText(counts, from, tos + [to]) == CellsText(counts, from, tos) + (" " + CellText(counts, from, to))
    decreases |tos|
  {
    hide CellText;
    if tos == [] {
      assert CellsText(counts, from, [to]) == " " + CellText(counts, from, to) + "";
    } else {
      assert (tos + [to])[1..] == tos[1..] + [to];
      CellsTextAppend(counts, from, tos[1..], to);
      Associate(" " + CellText(counts, from, tos[0]), CellsText(counts, from, tos[1..]),
                " " + CellText(counts, from, to));
    }
  }

  method WriteRow(counts: Counts, from: char) returns (line: string, tos: seq<char>)
    requires from in counts
    ensures Enumerates(tos, counts[from].Keys)
    ensures line == RowText(counts, (from, tos))
  {
    hide CellText, Enumerates;
    tos := ListKeys(counts[from].Keys);
    line := [from] + (" " + Print(|tos|));
    var i := 0;
    assert tos[..0] == [];
    while i < |tos|
      invariant 0 <= i <= |tos|
      invariant line == [from] + (" " + Print(|tos|)) + CellsText(counts, from, tos[..i])
    {
      CellsTextAppend(counts, from, tos[..i], tos[i]);
      assert tos[..i + 1] == tos[..i] + [tos[i]];
      Associate([from] + (" " + Print(|tos|)), CellsText(counts, from, tos[..i]), " " + CellText(counts, from, tos[i]));
      line := line + (" " + CellText(counts, from, tos[i]));
      i := i + 1;
    }
    assert tos[..i] == tos;
    Associate([from], " " + Print(|tos|), CellsText(counts, from, tos));
  }

  lemma {:induction false} FileTextConcat(a: seq<string>, b: seq<string>)
    ensures FileText(a + b) == FileText(a) + FileText(b)
  {
    if a == [] {
      assert a + b == b;
    } else {
      assert (a + b)[1..] == a[1..] + b;
      FileTextConcat(a[1..], b);
      Associate("\n", FileText(a[1..]), FileText(b));
      Associate(a[0], "\n" + FileText(a[1..]), FileText(b));
    }
  }

  lemma LineAppended(lines: seq<string>, line: string)
    ensures FileText(lines + [line]) == FileText(lines) + (line + "\n")
  {
    FileTextConcat(lines, [line]);
    assert FileText([line]) == line + ("\n" + "");
  }

  lemma {:induction false} RowTextsAppend(counts: Counts, rows: seq<(char, seq<char>)>, row: (char, seq<char>))
    ensures RowTexts(counts, rows + [row]) == RowTexts(counts, rows) + [RowText(counts, row)]
  {
    hide RowText;
    if rows == [] {
      assert RowTexts(counts, [row]) == [RowText(counts, row)] + RowTexts(counts, [row][1..]);
    } else {
      assert (rows + [row])[1..] == rows[1..] + [row];
      RowTextsAppend(counts, rows[1..], row);
    }
  }

  method WriteRows(counts: Counts, text: string, ghost before: seq<string>)
      returns (out: string, rows: seq<(char, seq<char>)>, keys: seq<char>)
    requires text == FileText(before + ["transitions " + Print(|counts|)])
    ensures Enumerates(keys, counts.Keys) && RowKeys(rows) == keys
    ensures forall row | row in rows :: Enumerates(row.1, RowOf(counts, row.0).Keys)
    ensures |rows| == |counts|
    ensures out == FileText(before + ["transitions " + Print(|rows|)] + RowTexts(counts, rows))
  {
    hide FileText, RowTexts, RowText;
    keys := ListKeys(counts.Keys);
    EnumerationSize(keys, counts.Keys);
    SameSize(counts);
    rows := [];
    out := text;
    ghost var header := before + ["transitions " + Print(|counts|)];
    NoRows(counts);
    assert header + [] == header;
    var i := 0;
    while i < |keys|
      invariant 0 <= i <= |keys| && |rows| == i
      invariant forall j | 0 <= j < i :: rows[j].0 == keys[j]
      invariant forall row | row in rows :: Enumerates(row.1, RowOf(counts, row.0).Keys)
      invariant out == FileText(header + RowTexts(counts, rows))
    {
      assert keys[i] in counts by {
        assert keys[i] in CharSet(keys);
      }
      var line, tos := WriteRow(counts, keys[i]);
      ghost var row := (keys[i], tos);
      LineAppended(header + RowTexts(counts, rows), line);
      RowTextsAppend(counts, rows, row);
      Associate(header, RowTexts(counts, rows), [line]);
      out := out + (line + "\n");
      rows := rows + [(keys[i], tos)];
      i := i + 1;
    }
    assert RowKeys(rows) == keys;
  }

  lemma SameSize<K, V>(m: map<K, V>)
    ensures |m| == |m.Keys|
  {
  }

  lemma NoRows(counts: Counts)
    ensures RowTexts(counts, []) == []
  {
  }

  /** The order the maps happen to be walked in is returned beside the text. */
  method Serialize(m: MarkovModel, printedK: string, fingerprint: string) returns (text: string, layout: Layout)
    ensures Lists(layout, m.Contents())
    ensures text == Serialized(m.Contents(), printedK, fingerprint, layout)
  {
    hide RowTexts, Enumerates, FileText;
    var listed := ListKeys(m.alphabet);
    ghost var before := [HEADER, "label " + m.name, "k " + printedK, "config " + fingerprint, "alphabet " + listed];
    ghost var header := before + ["transitions " + Print(|m.counts|)];
    HeaderText(HEADER, "label " + m.name, "k " + printedK, "config " + fingerprint, "alphabet " + listed,
               "transitions " + Print(|m.counts|));
    text := HEADER + "\n";
    text := text + ("label " + m.name + "\n");
    text := text + ("k " + printedK + "\n");
    text := text + ("config " + fingerprint + "\n");
    text := text + ("alphabet " + listed + "\n");
    text := text + ("transitions " + Print(|m.counts|) + "\n");
    assert header == [HEADER, "label " + m.name, "k " + printedK, "config " + fingerprint, "alphabet " + listed,
                      "transitions " + Print(|m.counts|)];
    var rows, keys;
    text, rows, keys := WriteRows(m.counts, text, before);
    layout := Layout(listed, rows);
  }

  lemma HeaderText(a: string, b: string, c: string, d: string, e: string, f: string)
    ensures FileText([a, b, c, d, e, f])
            == a + "\n" + (b + "\n") + (c + "\n") + (d + "\n") + (e + "\n") + (f + "\n")
  {
    hide FileText;
    LineAppended([], a);
    LineAppended([a], b);
    LineAppended([a, b], c);
    LineAppended([a, b, c], d);
    LineAppended([a, b, c, d], e);
    LineAppended([a, b, c, d, e], f);
    assert [] + [a] == [a] && [a] + [b] == [a, b] && [a, b] + [c] == [a, b, c];
    assert [a, b, c] + [d] == [a, b, c, d] && [a, b, c, d] + [e] == [a, b, c, d, e];
    assert [a, b, c, d, e] + [f] == [a, b, c, d, e, f];
    NothingWritten();
    assert "" + (a + "\n") == a + "\n";
  }

  lemma NothingWritten()
    ensures FileText([]) == ""
  {
  }

  // ---------------------------------------------------------------- loading, step by step

  method StoreCell(m: MarkovModel, from: char, to: char, c: int)
    modifies m
    ensures m.Contents() == AddCell(old(m.Contents()), from, to, c)
  {
    m.counts := m.counts[from := RowOf(m.counts, from)[to := c]];
    m.rowTotals := m.rowTotals[from := Lookup(m.rowTotals, from) + c];
    m.alphabet := m.alphabet + {from, to};
    m.total := m.total + c;
  }

  method LoadTokens(m: MarkovModel, from: char, text: string) returns (good: bool)
    modifies m
    ensures var r := ReadTokens(old(m.Contents()), from, text);
            good == r.Ok? && (good ==> m.Contents() == r.value)
  {
    hide NextWord, ParseLong, AddCell, Find;
    var s := text;
    var w := NextWord(s);
    while w.word != ""
      invariant w == NextWord(s)
      invariant ReadTokens(m.Contents(), from, s) == ReadTokens(old(m.Contents()), from, text)
      decreases |s|
    {
      WordShortens(s);
      var pos := Find(w.word, ":", 0);
      if pos.Some? {
        FindInRange(w.word, ":", 0);
        var c := ParseLong(w.word[pos.value + 1..]);
        if c.Thrown? {
          return false;
        }
        StoreCell(m, from, w.word[0], c.value);
      }
      s := w.rest;
      w := NextWord(s);
    }
    return true;
  }

  lemma WordShortens(s: string)
    requires NextWord(s).word != ""
    ensures |NextWord(s).rest| < |s|
  {
  }

  method LoadRow(m: MarkovModel, line: string) returns (good: bool)
    modifies m
    ensures var r := ReadRow(old(m.Contents()), line);
            good == r.Ok? && (good ==> m.Contents() == r.value)
  {
    hide ReadTokens, ReadSize, SkipSpaces;
    var t := SkipSpaces(line);
    if t == "" {
      return true;
    }
    var size := ReadSize(t[1..]);
    if !size.good {
      return true;
    }
    good := LoadTokens(m, t[0], size.rest);
  }

  method LoadRows(m: MarkovModel, lines: seq<string>, from: nat, rows: int) returns (good: bool, next: nat)
    requires 0 < from <= |lines|
    modifies m
    ensures var r := ReadRows(old(m.Contents()), lines, from, rows);
            good == r.Ok? && (good ==> m.Contents() == r.value && next == NextIndex(lines, from - 1, rows))
  {
    hide ReadRow;
    next := from;
    var r := 0;
    while r < rows
      invariant 0 <= r && (r == 0 || r <= rows) && next == from + r <= |lines|
      invariant ReadRows(m.Contents(), lines, next, rows - r) == ReadRows(old(m.Contents()), lines, from, rows)
    {
      if next >= |lines| {
        break;
      }
      good := LoadRow(m, lines[next]);
      if !good {
        return;
      }
      next := next + 1;
      r := r + 1;
    }
    good := true;
  }

  method LoadField(m: MarkovModel, line: string, fingerprint: string, readK: string -> real) returns (fp: string)
    modifies m
    ensures Loaded(m.Contents(), fp) == ReadField(Loaded(old(m.Contents()), fingerprint), line, readK)
  {
    hide NextWord;
    fp := fingerprint;
    var key := NextWord(line);
    var word := NextWord(key.rest).word;
    if key.word == "label" {
      if word != "" {
        m.name := word;
      }
    } else if key.word == "k" {
      if word != "" {
        m.k := readK(word);
      }
    } else if key.word == "config" {
      fp := key.rest;
      if fp != "" && fp[0] == ' ' {
        fp := fp[1..];
      }
    } else if key.word == "alphabet" {
      m.alphabet := m.alphabet + CharSet(word);
    }
  }

  method LoadModel(text: string, fingerprint: string, readK: string -> real)
      returns (good: bool, m: MarkovModel, fp: string)
    ensures fresh(m)
    ensures var r := Load(text, 0.5, fingerprint, readK);
            good == r.Ok? && (good ==> m.Contents() == r.value.model && fp == r.value.fingerprint)
  {
    hide NextWord, ReadField, ReadRows, ReadSize, Lines;
    m := new MarkovModel("", 0.5);
    fp := fingerprint;
    var lines := Lines(text);
    var i: nat := 1;
    while i < |lines|
      invariant 1 <= i
      invariant LoadFrom(Loaded(m.Contents(), fp), lines, i, readK) == Load(text, 0.5, fingerprint, readK)
      invariant fresh(m)
      decreases |lines| - i
    {
      var key := NextWord(lines[i]);
      if key.word == "transitions" {
        var rows := ReadSize(key.rest).value;
        good, i := LoadRows(m, lines, i + 1, rows);
        if !good {
          return;
        }
      } else {
        fp := LoadField(m, lines[i], fp, readK);
        i := i + 1;
      }
    }
    good := true;
  }

  // ---------------------------------------------------------------- a file

  lemma SmallModel(name: string, k: real)
    ensures var m := Trained(Untrained(name, k), ["ab"]);
            m.name == name && m.alphabet == {'a', 'b'} && m.counts == map['a' := map['b' := 1]]
  {
    var m := Untrained(name, k);
    assert Trained(m, ["ab"][..0]) == m;
    assert AddFirst(m, "ab", 0).alphabet == {'a'};
    assert Observed(m, "ab") == AddFirst(m, "ab", 1);
    assert AddFirst(m, "ab", 1) == AddPair(AddFirst(m, "ab", 0), 'a', 'b');
    assert RowOf(map[], 'a') == map[];
  }

  lemma SmallLines(m: Model, printedK: string, fingerprint: string)
    requires m.counts == map['a' := map['b' := 1]]
    ensures FileLines(m, printedK, fingerprint, Layout("ab", [('a', "b")])) ==
            ["WIREWOLF-BEHAVIORAL-MODEL v1", "label " + m.name, "k " + printedK, "config " + fingerprint,
             "alphabet ab", "transitions 1", "a 1 b:1"]
  {
    assert Print(1) == "1";
    assert Cell(m.counts, 'a', 'b') == 1;
    assert CellText(m.counts, 'a', 'b') == "b:1";
    assert CellsText(m.counts, 'a', "b") == " b:1" + "";
    assert RowText(m.counts, ('a', "b")) == "a" + (" " + "1" + " b:1") == "a 1 b:1";
    var rows := [('a', "b")];
    assert rows[0] == ('a', "b") && rows[1..] == [];
    assert RowTexts(m.counts, rows) == ["a 1 b:1"] + RowTexts(m.counts, rows[1..]);
    assert "alphabet " + "ab" == "alphabet ab" && "transitions " + "1" == "transitions 1";
  }

  lemma SmallLayout(m: Model)
    requires m.alphabet == {'a', 'b'} && m.counts == map['a' := map['b' := 1]]
    ensures Lists(Layout("ab", [('a', "b")]), m)
  {
    var rows := [('a', "b")];
    assert Enumerates("ab", m.alphabet);
    assert RowKeys(rows) == ['a'] && Enumerates(['a'], m.counts.Keys);
    assert Enumerates("b", RowOf(m.counts, 'a').Keys);
  }

  /** The file of a model trained on one pair. */
  lemma SmallFile(name: string, k: real, printedK: string, fingerprint: string)
    ensures var m, layout := Trained(Untrained(name, k), ["ab"]), Layout("ab", [('a', "b")]);
            && Lists(layout, m)
            && Serialized(m, printedK, fingerprint, layout)
               == "WIREWOLF-BEHAVIORAL-MODEL v1" + "\n" + ("label " + name + "\n") + ("k " + printedK + "\n")
                  + ("config " + fingerprint + "\n") + ("alphabet ab" + "\n") + ("transitions 1" + "\n")
                  + ("a 1 b:1" + "\n")
  {
    SmallModel(name, k);
    var m := Trained(Untrained(name, k), ["ab"]);
    hide Trained;
    SmallLayout(m);
    SmallLines(m, printedK, fingerprint);
    var a, b, c, d, e, f, g := "WIREWOLF-BEHAVIORAL-MODEL v1", "label " + name, "k " + printedK,
                               "config " + fingerprint, "alphabet ab", "transitions 1", "a 1 b:1";
    hide FileLines, Lists, FileText;
    SevenLines(a, b, c, d, e, f, g);
  }

  lemma SevenLines(a: string, b: string, c: string, d: string, e: string, f: string, g: string)
    ensures FileText([a, b, c, d, e, f, g])
            == a + "\n" + (b + "\n") + (c + "\n") + (d + "\n") + (e + "\n") + (f + "\n") + (g + "\n")
  {
    LineAppended([a, b, c, d, e, f], g);
    LineAppended([a, b, c, d, e], f);
    LineAppended([a, b, c, d], e);
    LineAppended([a, b, c], d);
    LineAppended([a, b], c);
    LineAppended([a], b);
    LineAppended([], a);
    assert FileText([]) == "";
    hide FileText;
    assert [] + [a] == [a] && [a] + [b] == [a, b] && [a, b] + [c] == [a, b, c];
    assert [a, b, c] + [d] == [a, b, c, d] && [a, b, c, d] + [e] == [a, b, c, d, e];
    assert [a, b, c, d, e] + [f] == [a, b, c, d, e, f] && [a, b, c, d, e, f] + [g] == [a, b, c, d, e, f, g];
    assert "" + (a + "\n") == a + "\n";
  }
}
