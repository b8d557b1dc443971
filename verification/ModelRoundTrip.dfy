/** When a behavioural model survives being written and loaded. */
module ModelRoundTrip {
  import opened Sequences
  import opened Options
  import opened Strings
  import opened Decimal
  import opened BehavioralEncoding
  import opened MarkovModels
  import opened ModelFile

  // ---------------------------------------------------------------- lines

  lemma FindAfter(a: string, c: char, rest: string)
    requires Free(a, c)
    ensures Find(a + ([c] + rest), [c], 0) == Some(|a|)
  {
    FindChar(a + ([c] + rest), c, 0, |a|);
  }

  lemma LineSplits(line: string, rest: string)
    requires Free(line, '\n')
    ensures Lines(line + ("\n" + rest)) == [line] + Lines(rest)
  {
    var text := line + ("\n" + rest);
    FindAfter(line, '\n', rest);
    hide Find;
    assert text[..|line|] == line && text[|line| + 1..] == rest;
  }

  lemma {:induction false} LinesReadBack(lines: seq<string>)
    requires forall i | 0 <= i < |lines| :: Free(lines[i], '\n')
    ensures Lines(FileText(lines)) == lines
  {
    hide Lines;
    if lines == [] {
      NoLines();
    } else {
      LineSplits(lines[0], FileText(lines[1..]));
      LinesReadBack(lines[1..]);
    }
  }

  lemma NoLines()
    ensures Lines("") == []
  {
  }

  // ---------------------------------------------------------------- words and numbers

  predicate NoSpace(s: string) {
    forall i | 0 <= i < |s| :: !IsSpace(s[i])
  }

  predicate Ends(rest: string) {
    rest == "" || IsSpace(rest[0])
  }

  lemma {:induction false} WordMeasured(w: string, rest: string)
    requires NoSpace(w) && Ends(rest)
    ensures WordLength(w + rest) == |w|
  {
    if w == "" {
      assert w + rest == rest;
    } else {
      assert (w + rest)[1..] == w[1..] + rest;
      WordMeasured(w[1..], rest);
    }
  }

  lemma SpaceSkipped(s: string)
    requires s != "" ==> !IsSpace(s[0])
    ensures SkipSpaces(" " + s) == s
    ensures SkipSpaces(s) == s
  {
    assert (" " + s)[1..] == s;
  }

  lemma WordRead(w: string, rest: string)
    requires w != "" && NoSpace(w) && Ends(rest)
    ensures NextWord(w + rest) == Extracted(w, rest)
    ensures NextWord(" " + (w + rest)) == Extracted(w, rest)
  {
    assert (w + rest)[0] == w[0];
    SpaceSkipped(w + rest);
    WordMeasured(w, rest);
    assert (w + rest)[..|w|] == w && (w + rest)[|w|..] == rest;
  }

  lemma NothingToRead(s: string)
    requires s == "" || s == " "
    ensures NextWord(s).word == ""
  {
  }

  lemma DigitIsPlain(c: char)
    requires IsDigit(c)
    ensures !IsSpace(c) && c != '-' && c != '+' && c != ':' && c != '\n'
  {
  }

  lemma LongRead(n: nat)
    requires n <= INT64_MAX
    ensures ParseLong(Print(n)) == Ok(n)
  {
    var s := Print(n);
    PrintReadsBack(n);
    DigitIsPlain(s[0]);
    SpaceSkipped(s);
    DigitsCounted(s, "");
    assert s + "" == s && s[0..] == s && s[..|s|] == s;
  }

  lemma SizeIsRead(n: nat, rest: string)
    requires n < UINT64 && (rest == "" || rest[0] == ' ')
    ensures ReadSize(" " + (Print(n) + rest)) == SizeRead(true, n, rest)
  {
    var s, t := Print(n), Print(n) + rest;
    PrintReadsBack(n);
    assert t[0] == s[0];
    DigitIsPlain(s[0]);
    SpaceSkipped(t);
    DigitsCounted(s, rest);
    assert t[0..] == t && t[..|s|] == s && t[|s|..] == rest;
  }

  lemma {:induction false} PrintIsPlain(n: nat)
    ensures NoSpace(Print(n)) && Free(Print(n), '\n') && Free(Print(n), ':')
  {
    PrintReadsBack(n);
    forall i | 0 <= i < |Print(n)|
      ensures !IsSpace(Print(n)[i]) && Print(n)[i] != '\n' && Print(n)[i] != ':'
    {
      DigitIsPlain(Print(n)[i]);
    }
  }

  // ---------------------------------------------------------------- rows

  function AddCells(m: Model, counts: Counts, from: char, tos: seq<char>): Model
    decreases |tos|
  {
    if tos == [] then m
    else AddCells(AddCell(m, from, tos[0], Cell(counts, from, tos[0])), counts, from, tos[1..])
  }

  function AddRows(m: Model, counts: Counts, rows: seq<(char, seq<char>)>): Model
    decreases |rows|
  {
    if rows == [] then m else AddRows(AddCells(m, counts, rows[0].0, rows[0].1), counts, rows[1..])
  }

  lemma TokenRead(m: Model, from: char, to: char, c: int)
    requires to != ':' && 0 <= c <= INT64_MAX
    ensures ReadToken(m, from, [to] + ":" + PrintCount(c)) == Ok(AddCell(m, from, to, c))
  {
    hide ParseLong, AddCell, Find;
    var token := [to] + ":" + Print(c);
    FindAfter([to], ':', Print(c));
    assert token == [to] + ([':'] + Print(c));
    assert token[2..] == Print(c);
    LongRead(c);
  }

  predicate CellsFit(counts: Counts, from: char, tos: seq<char>) {
    forall t | t in tos :: !IsSpace(t) && 0 <= Cell(counts, from, t) <= INT64_MAX
  }

  lemma CellTextIsWord(counts: Counts, from: char, to: char)
    requires !IsSpace(to) && 0 <= Cell(counts, from, to)
    ensures NoSpace(CellText(counts, from, to)) && CellText(counts, from, to) != ""
  {
    PrintIsPlain(Cell(counts, from, to));
  }

  lemma CellsTextEnds(counts: Counts, from: char, tos: seq<char>)
    ensures Ends(CellsText(counts, from, tos))
    ensures CellsText(counts, from, tos) == "" || CellsText(counts, from, tos)[0] == ' '
  {
  }

  lemma TokensStep(m: Model, from: char, s: string, n: Model)
    requires NextWord(s).word != "" && ReadToken(m, from, NextWord(s).word) == Ok(n)
    ensures ReadTokens(m, from, s) == ReadTokens(n, from, NextWord(s).rest)
  {
  }

  lemma {:induction false} CellsRead(m: Model, counts: Counts, from: char, tos: seq<char>)
    requires CellsFit(counts, from, tos) && ':' !in tos
    ensures ReadTokens(m, from, CellsText(counts, from, tos)) == Ok(AddCells(m, counts, from, tos))
    decreases |tos|
  {
    if tos == [] {
      NothingToRead("");
    } else {
      hide ReadTokens, ReadToken, NextWord, AddCell, Cell, CellText, CellsText, CellsFit, NoSpace, Ends, IsSpace;
      var to, rest := tos[0], CellsText(counts, from, tos[1..]);
      CellsFitFirst(counts, from, tos);
      CellTextIsWord(counts, from, to);
      CellsTextEnds(counts, from, tos[1..]);
      WordRead(CellText(counts, from, to), rest);
      CellsTextStep(counts, from, tos);
      TokenOfCell(m, counts, from, to);
      TokensStep(m, from, CellsText(counts, from, tos), AddCell(m, from, to, Cell(counts, from, to)));
      CellsRead(AddCell(m, from, to, Cell(counts, from, to)), counts, from, tos[1..]);
    }
  }

  lemma CellsFitFirst(counts: Counts, from: char, tos: seq<char>)
    requires CellsFit(counts, from, tos) && tos != []
    ensures !IsSpace(tos[0]) && 0 <= Cell(counts, from, tos[0]) <= INT64_MAX
    ensures CellsFit(counts, from, tos[1..])
  {
    assert tos[0] in tos;
  }

  lemma CellsTextStep(counts: Counts, from: char, tos: seq<char>)
    requires tos != []
    ensures CellsText(counts, from, tos) == " " + (CellText(counts, from, tos[0]) + CellsText(counts, from, tos[1..]))
  {
    hide CellText;
  }

  lemma TokenOfCell(m: Model, counts: Counts, from: char, to: char)
    requires to != ':' && 0 <= Cell(counts, from, to) <= INT64_MAX
    ensures ReadToken(m, from, CellText(counts, from, to)) == Ok(AddCell(m, from, to, Cell(counts, from, to)))
  {
    hide ReadToken, AddCell, Cell;
    TokenRead(m, from, to, Cell(counts, from, to));
  }

  lemma RowRead(m: Model, counts: Counts, row: (char, seq<char>))
    requires !IsSpace(row.0) && CellsFit(counts, row.0, row.1) && |row.1| < UINT64 && ':' !in row.1
    ensures ReadRow(m, RowText(counts, row)) == Ok(AddCells(m, counts, row.0, row.1))
  {
    hide ReadTokens, CellsText, ReadSize, SkipSpaces, CellsFit;
    var line, cells := RowText(counts, row), CellsText(counts, row.0, row.1);
    assert line[0] == row.0;
    SpaceSkipped(line);
    assert line[1..] == " " + (Print(|row.1|) + cells);
    CellsTextEnds(counts, row.0, row.1);
    SizeIsRead(|row.1|, cells);
    CellsRead(m, counts, row.0, row.1);
  }

  predicate RowsFit(counts: Counts, rows: seq<(char, seq<char>)>) {
    forall row | row in rows :: !IsSpace(row.0) && CellsFit(counts, row.0, row.1) && |row.1| < UINT64
  }

  /** No cell of these rows is for a transition to a colon. */
  predicate ColonFree(rows: seq<(char, seq<char>)>) {
    forall row | row in rows :: ':' !in row.1
  }

  lemma {:induction false} RowsRead(m: Model, counts: Counts, rows: seq<(char, seq<char>)>, lines: seq<string>, i: nat)
    requires RowsFit(counts, rows) && ColonFree(rows)
    requires i <= |lines| && lines[i..] == RowTexts(counts, rows)
    ensures ReadRows(m, lines, i, |rows|) == Ok(AddRows(m, counts, rows))
    decreases |rows|
  {
    hide ReadRow, AddCells, RowText, CellsFit;
    if rows != [] {
      assert rows[0] in rows;
      assert lines[i] == lines[i..][0];
      RowRead(m, counts, rows[0]);
      assert lines[i + 1..] == lines[i..][1..];
      RowsRead(AddCells(m, counts, rows[0].0, rows[0].1), counts, rows[1..], lines, i + 1);
    }
  }

  lemma {:induction false} RowTextsSize(counts: Counts, rows: seq<(char, seq<char>)>)
    ensures |RowTexts(counts, rows)| == |rows|
  {
    if rows != [] {
      RowTextsSize(counts, rows[1..]);
    }
  }

  // ---------------------------------------------------------------- the file

  lemma PlainLine(key: string, value: string, l: Loaded, readK: string -> real)
    requires key != "" && NoSpace(key) && NoSpace(value)
    ensures var k := NextWord(key + (" " + value));
            k.word == key && k.rest == " " + value && NextWord(k.rest).word == value
  {
    hide NextWord;
    WordRead(key, " " + value);
    if value == "" {
      NothingToRead(" " + value);
    } else {
      WordRead(value, "");
      assert value + "" == value;
    }
  }

  lemma ConfigLine(fingerprint: string)
    ensures NextWord("config " + fingerprint) == Extracted("config", " " + fingerprint)
  {
    hide NextWord;
    WordRead("config", " " + fingerprint);
    assert "config" + (" " + fingerprint) == "config " + fingerprint;
  }

  lemma TransitionsLine(rows: nat)
    requires rows < UINT64
    ensures var k := NextWord("transitions " + Print(rows)); k.word == "transitions" && ReadSize(k.rest).value == rows
  {
    hide NextWord, ReadSize;
    WordRead("transitions", " " + Print(rows));
    assert "transitions" + (" " + Print(rows)) == "transitions " + Print(rows);
    SizeIsRead(rows, "");
    assert Print(rows) + "" == Print(rows);
  }

  lemma FieldStep(l: Loaded, lines: seq<string>, i: nat, readK: string -> real)
    requires i < |lines| && NextWord(lines[i]).word != "transitions"
    ensures LoadFrom(l, lines, i, readK) == LoadFrom(ReadField(l, lines[i], readK), lines, i + 1, readK)
  {
  }

  lemma NameField(l: Loaded, name: string, readK: string -> real)
    requires l.model.name == ""
    ensures NextWord("label " + name).word == "label"
    ensures ReadField(l, "label " + name, readK) == l.(model := l.model.(name := FirstWord(name)))
  {
    hide NextWord;
    assert "label" + (" " + name) == "label " + name;
    WordRead("label", " " + name);
  }

  lemma KField(l: Loaded, printedK: string, readK: string -> real)
    requires NoSpace(printedK) && printedK != ""
    ensures NextWord("k " + printedK).word == "k"
    ensures ReadField(l, "k " + printedK, readK) == l.(model := l.model.(k := readK(printedK)))
  {
    hide NextWord;
    assert "k" + (" " + printedK) == "k " + printedK;
    PlainLine("k", printedK, l, readK);
  }

  lemma ConfigField(l: Loaded, fingerprint: string, readK: string -> real)
    ensures NextWord("config " + fingerprint).word == "config"
    ensures ReadField(l, "config " + fingerprint, readK) == l.(fingerprint := fingerprint)
  {
    hide NextWord;
    ConfigLine(fingerprint);
    assert (" " + fingerprint)[1..] == fingerprint;
  }

  lemma AlphabetField(l: Loaded, listed: string, readK: string -> real)
    requires NoSpace(listed)
    ensures NextWord("alphabet " + listed).word == "alphabet"
    ensures ReadField(l, "alphabet " + listed, readK)
            == l.(model := l.model.(alphabet := l.model.alphabet + CharSet(listed)))
  {
    hide NextWord;
    assert "alphabet" + (" " + listed) == "alphabet " + listed;
    PlainLine("alphabet", listed, l, readK);
  }

  /** What is read of a label. */
  function FirstWord(name: string): string {
    NextWord(" " + name).word
  }

  lemma FirstOfOne(name: string)
    requires NoSpace(name)
    ensures FirstWord(name) == name
  {
    hide NextWord;
    if name == "" {
      NothingToRead(" " + name);
    } else {
      WordRead(name, "");
      assert name + "" == name;
    }
  }

  /** What the fields before the rows leave in the model. */
  function Base(m: Model, printedK: string, layout: Layout, readK: string -> real): Model {
    Model(FirstWord(m.name), readK(printedK), map[], map[], CharSet(layout.alphabet), 0)
  }

  predicate Storable(m: Model, printedK: string, fingerprint: string, layout: Layout) {
    && Free(m.name, '\n') && NoSpace(printedK) && printedK != "" && Free(fingerprint, '\n')
    && NoSpace(layout.alphabet) && RowsFit(m.counts, layout.rows) && |layout.rows| < UINT64
  }

  lemma FieldsLoad(m: Model, printedK: string, fingerprint: string, layout: Layout, l: Loaded, readK: string -> real)
    requires Storable(m, printedK, fingerprint, layout) && l.model == Untrained("", l.model.k)
    ensures var lines := FileLines(m, printedK, fingerprint, layout);
            LoadFrom(l, lines, 1, readK)
            == LoadFrom(Loaded(Base(m, printedK, layout, readK), fingerprint), lines, 5, readK)
  {
    hide LoadFrom, ReadField, NextWord, FirstWord, RowTexts, Print, NoSpace, RowsFit, Free;
    var lines := FileLines(m, printedK, fingerprint, layout);
    NameField(l, m.name, readK);
    FieldStep(l, lines, 1, readK);
    var l1 := l.(model := l.model.(name := FirstWord(m.name)));
    KField(l1, printedK, readK);
    FieldStep(l1, lines, 2, readK);
    var l2 := l1.(model := l1.model.(k := readK(printedK)));
    ConfigField(l2, fingerprint, readK);
    FieldStep(l2, lines, 3, readK);
    var l3 := l2.(fingerprint := fingerprint);
    AlphabetField(l3, layout.alphabet, readK);
    FieldStep(l3, lines, 4, readK);
    assert {} + CharSet(layout.alphabet) == CharSet(layout.alphabet);
    assert l3.(model := l3.model.(alphabet := {} + CharSet(layout.alphabet)))
        == Loaded(Base(m, printedK, layout, readK), fingerprint);
  }

  lemma RowsLoad(m: Model, printedK: string, fingerprint: string, layout: Layout, l: Loaded, readK: string -> real)
    requires Storable(m, printedK, fingerprint, layout)
    ensures var lines := FileLines(m, printedK, fingerprint, layout);
            && |lines| >= 6 && lines[6..] == RowTexts(m.counts, layout.rows)
            && LoadFrom(l, lines, 5, readK)
               == match ReadRows(l.model, lines, 6, |layout.rows|)
                  case Thrown => Thrown
                  case Ok(n) => Ok(l.(model := n))
  {
    hide ReadRows, AddRows, ReadSize, NextWord, RowTexts, Print, NoSpace, RowsFit, Free;
    var lines, rows := FileLines(m, printedK, fingerprint, layout), |layout.rows|;
    RowTextsSize(m.counts, layout.rows);
    assert |lines| == 6 + rows;
    assert lines[5] == "transitions " + Print(rows);
    TransitionsLine(rows);
    assert lines[6..] == RowTexts(m.counts, layout.rows);
    assert NextIndex(lines, 5, rows) == |lines|;
  }

  lemma {:induction false} CellsTextFree(counts: Counts, from: char, tos: seq<char>)
    requires CellsFit(counts, from, tos)
    ensures Free(CellsText(counts, from, tos), '\n')
    decreases |tos|
  {
    if tos != [] {
      hide Cell, CellsText;
      CellsFitFirst(counts, from, tos);
      CellsTextFree(counts, from, tos[1..]);
      CellsTextStep(counts, from, tos);
      PrintIsPlain(Cell(counts, from, tos[0]));
    }
  }

  lemma {:induction false} RowTextsFree(counts: Counts, rows: seq<(char, seq<char>)>)
    requires RowsFit(counts, rows)
    ensures forall i | 0 <= i < |RowTexts(counts, rows)| :: Free(RowTexts(counts, rows)[i], '\n')
  {
    if rows != [] {
      hide CellsText, CellsFit;
      assert rows[0] in rows;
      PrintIsPlain(|rows[0].1|);
      CellsTextFree(counts, rows[0].0, rows[0].1);
      RowTextsFree(counts, rows[1..]);
    }
  }

  lemma NoSpaceIsFree(s: string)
    requires NoSpace(s)
    ensures Free(s, '\n')
  {
  }

  lemma FileLinesFree(m: Model, printedK: string, fingerprint: string, layout: Layout)
    requires Storable(m, printedK, fingerprint, layout)
    ensures forall i | 0 <= i < |FileLines(m, printedK, fingerprint, layout)| ::
              Free(FileLines(m, printedK, fingerprint, layout)[i], '\n')
  {
    hide RowTexts, Print, NoSpace, RowsFit;
    NoSpaceIsFree(printedK);
    NoSpaceIsFree(layout.alphabet);
    PrintIsPlain(|layout.rows|);
    RowTextsFree(m.counts, layout.rows);
  }

  /** Loading a written file comes down to reading its rows. */
  lemma FileRead(m: Model, printedK: string, fingerprint: string, layout: Layout, k: real, before: string,
                 readK: string -> real)
    requires Storable(m, printedK, fingerprint, layout)
    ensures var lines := FileLines(m, printedK, fingerprint, layout);
            && |lines| >= 6 && lines[6..] == RowTexts(m.counts, layout.rows)
            && Load(Serialized(m, printedK, fingerprint, layout), k, before, readK)
               == match ReadRows(Base(m, printedK, layout, readK), lines, 6, |layout.rows|)
                  case Thrown => Thrown
                  case Ok(n) => Ok(Loaded(n, fingerprint))
  {
    hide FileLines, FileText, Lines, LoadFrom, Storable, Free, ReadRows, Base;
    FileLinesFree(m, printedK, fingerprint, layout);
    LinesReadBack(FileLines(m, printedK, fingerprint, layout));
    FieldsLoad(m, printedK, fingerprint, layout, Loaded(Untrained("", k), before), readK);
    RowsLoad(m, printedK, fingerprint, layout, Loaded(Base(m, printedK, layout, readK), fingerprint), readK);
  }

  lemma FileLoads(m: Model, printedK: string, fingerprint: string, layout: Layout, k: real, before: string,
                  readK: string -> real)
    requires Storable(m, printedK, fingerprint, layout) && ColonFree(layout.rows)
    ensures Load(Serialized(m, printedK, fingerprint, layout), k, before, readK)
            == Ok(Loaded(AddRows(Base(m, printedK, layout, readK), m.counts, layout.rows), fingerprint))
  {
    hide FileLines, Load, Serialized, ReadRows, AddRows, Base;
    FileRead(m, printedK, fingerprint, layout, k, before, readK);
    var lines := FileLines(m, printedK, fingerprint, layout);
    RowsRead(Base(m, printedK, layout, readK), m.counts, layout.rows, lines, 6);
  }

  // ---------------------------------------------------------------- what comes back

  function Picked(counts: Counts, from: char, tos: seq<char>): map<char, int> {
    map t | t in tos :: Cell(counts, from, t)
  }

  predicate Distinct(s: seq<char>) {
    forall i, j | 0 <= i < j < |s| :: s[i] != s[j]
  }

  /** The model with one more row, where `row` is read in full. */
  function WithRow(m: Model, from: char, row: map<char, int>, sum: int, tos: set<char>): Model {
    m.(counts := m.counts[from := RowOf(m.counts, from) + row],
       rowTotals := m.rowTotals[from := Lookup(m.rowTotals, from) + sum],
       alphabet := m.alphabet + {from} + tos,
       total := m.total + sum)
  }

  lemma AddCellIsRow(m: Model, from: char, to: char, c: int)
    ensures AddCell(m, from, to, c) == WithRow(m, from, map[to := c], c, {to})
  {
    assert RowOf(m.counts, from)[to := c] == RowOf(m.counts, from) + map[to := c];
    assert m.alphabet + {from, to} == m.alphabet + {from} + {to};
  }

  lemma RowsMerge(m: Model, from: char, a: map<char, int>, b: map<char, int>, s: int, t: int,
                  x: set<char>, y: set<char>)
    ensures WithRow(WithRow(m, from, a, s, x), from, b, t, y) == WithRow(m, from, a + b, s + t, x + y)
  {
    var row := RowOf(m.counts, from);
    assert row + a + b == row + (a + b);
    assert m.counts[from := row + a][from := row + a + b] == m.counts[from := row + a + b];
    var sum := Lookup(m.rowTotals, from) + s;
    assert m.rowTotals[from := sum][from := sum + t] == m.rowTotals[from := sum + t];
    assert m.alphabet + {from} + x + {from} + y == m.alphabet + {from} + (x + y);
  }

  lemma {:induction false} CellsAdded(m: Model, counts: Counts, from: char, tos: seq<char>)
    requires tos != []
    ensures AddCells(m, counts, from, tos)
            == WithRow(m, from, Picked(counts, from, tos), SumCells(counts, from, tos), CharSet(tos))
    decreases |tos|
  {
    hide Cell, WithRow, AddCell, CharSet, Picked;
    var to, rest := tos[0], tos[1..];
    var c := Cell(counts, from, to);
    AddCellIsRow(m, from, to, c);
    PickedSplits(counts, from, tos);
    if rest == [] {
      assert AddCells(AddCell(m, from, to, c), counts, from, rest) == AddCell(m, from, to, c);
      assert SumCells(counts, from, rest) == 0;
    } else {
      CellsAdded(AddCell(m, from, to, c), counts, from, rest);
      RowsMerge(m, from, map[to := c], Picked(counts, from, rest), c, SumCells(counts, from, rest),
                {to}, CharSet(rest));
    }
  }

  lemma PickedSplits(counts: Counts, from: char, tos: seq<char>)
    requires tos != []
    ensures var to, rest, c := tos[0], tos[1..], Cell(counts, from, tos[0]);
            && Picked(counts, from, tos) == map[to := c] + Picked(counts, from, rest)
            && CharSet(tos) == {to} + CharSet(rest)
            && (rest == [] ==> Picked(counts, from, tos) == map[to := c] && CharSet(tos) == {to})
  {
    hide Cell;
    assert tos == [tos[0]] + tos[1..];
  }

  /** A row of `src`, all of it, as the file lists it. */
  predicate RowOfModel(src: Model, row: (char, seq<char>)) {
    && row.0 in src.counts && row.0 in src.rowTotals && row.1 != []
    && CharSet(row.1) == src.counts[row.0].Keys
    && SumCells(src.counts, row.0, row.1) == src.rowTotals[row.0]
    && {row.0} + CharSet(row.1) <= src.alphabet
  }

  /** The model restricted to some rows. */
  predicate HasRows(m: Model, src: Model, done: set<char>) {
    && m.alphabet == src.alphabet && m.name == src.name && m.k == src.k
    && m.counts.Keys == done && m.rowTotals.Keys == done && done <= src.counts.Keys && done <= src.rowTotals.Keys
    && (forall f | f in done :: m.counts[f] == src.counts[f] && m.rowTotals[f] == src.rowTotals[f])
  }

  lemma PickedIsRow(src: Model, row: (char, seq<char>))
    requires RowOfModel(src, row)
    ensures Picked(src.counts, row.0, row.1) == src.counts[row.0]
  {
    var picked := Picked(src.counts, row.0, row.1);
    assert picked.Keys == CharSet(row.1);
  }

  lemma RowAdded(m: Model, src: Model, done: set<char>, row: (char, seq<char>))
    requires HasRows(m, src, done) && RowOfModel(src, row) && row.0 !in done
    ensures var n := AddCells(m, src.counts, row.0, row.1);
            HasRows(n, src, done + {row.0}) && n.total == m.total + src.rowTotals[row.0]
  {
    hide AddCells, SumCells, Picked, CharSet;
    CellsAdded(m, src.counts, row.0, row.1);
    PickedIsRow(src, row);
    assert map[] + src.counts[row.0] == src.counts[row.0];
    assert m.alphabet + {row.0} + CharSet(row.1) == src.alphabet;
  }

  function SumRows(src: Model, keys: seq<char>): int {
    if keys == [] then 0 else Lookup(src.rowTotals, keys[0]) + SumRows(src, keys[1..])
  }

  lemma {:induction false} RowsAdded(m: Model, src: Model, done: set<char>, rows: seq<(char, seq<char>)>)
    requires HasRows(m, src, done) && Distinct(RowKeys(rows)) && forall row | row in rows :: RowOfModel(src, row)
    requires forall f | f in RowKeys(rows) :: f !in done
    ensures var n := AddRows(m, src.counts, rows);
            HasRows(n, src, done + CharSet(RowKeys(rows))) && n.total == m.total + SumRows(src, RowKeys(rows))
    decreases |rows|
  {
    hide HasRows, RowOfModel, AddCells;
    var keys := RowKeys(rows);
    if rows == [] {
      assert done + CharSet(keys) == done;
    } else {
      var row, rest := rows[0], rows[1..];
      assert row in rows && keys[0] == row.0;
      assert RowKeys(rest) == keys[1..];
      assert keys == [row.0] + keys[1..];
      RowInModel(src, row);
      RowAdded(m, src, done, row);
      RowsAdded(AddCells(m, src.counts, row.0, row.1), src, done + {row.0}, rest);
      assert done + {row.0} + CharSet(keys[1..]) == done + CharSet(keys);
    }
  }

  lemma RowInModel(src: Model, row: (char, seq<char>))
    requires RowOfModel(src, row)
    ensures row.0 in src.rowTotals
  {
  }

  // ---------------------------------------------------------------- totals

  lemma CellsPresent(m: Model, pairs: seq<(char, char)>, p: (char, char))
    requires Agrees(m, pairs) && p in pairs
    ensures p.0 in m.counts && p.1 in m.counts[p.0]
  {
    assert multiset(pairs)[p] > 0;
    assert Cell(m.counts, p.0, p.1) == multiset(pairs)[(p.0, p.1)];
  }

  lemma PairFromCell(m: Model, pairs: seq<(char, char)>, f: char, t: char)
    requires Agrees(m, pairs) && f in m.counts && t in m.counts[f]
    ensures (f, t) in pairs
  {
    assert Cell(m.counts, f, t) == multiset(pairs)[(f, t)];
  }

  lemma RowSum(m: Model, pairs: seq<(char, char)>, from: char, tos: seq<char>)
    requires Agrees(m, pairs) && from in m.counts && Enumerates(tos, m.counts[from].Keys)
    ensures SumCells(m.counts, from, tos) == Lookup(m.rowTotals, from)
  {
    hide Froms, SumCells, SumTo;
    forall p | p in pairs && p.0 == from
      ensures p.1 in tos
    {
      CellsPresent(m, pairs, p);
    }
    SumToIsRow(pairs, from, tos);
    CellsAreOccurrences(m.counts, pairs, from, tos);
  }

  /** How often the listed characters occur. */
  function Occurrences(s: seq<char>, keys: seq<char>): nat {
    if keys == [] then 0 else multiset(s)[keys[0]] + Occurrences(s, keys[1..])
  }

  lemma {:induction false} OccurrencesAppend(s: seq<char>, x: char, keys: seq<char>)
    requires Distinct(keys)
    ensures Occurrences(s + [x], keys) == Occurrences(s, keys) + if x in keys then 1 else 0
  {
    if keys != [] {
      OneMore(s, x, keys[0]);
      OccurrencesAppend(s, x, keys[1..]);
      assert keys == [keys[0]] + keys[1..] && keys[0] !in keys[1..];
    }
  }

  lemma {:induction false} NoOccurrences(keys: seq<char>)
    ensures Occurrences([], keys) == 0
  {
    if keys != [] {
      NoOccurrences(keys[1..]);
    }
  }

  lemma {:induction false} OccurrencesAreAll(s: seq<char>, keys: seq<char>)
    requires Distinct(keys) && forall c | c in s :: c in keys
    ensures Occurrences(s, keys) == |s|
    decreases |s|
  {
    if s == [] {
      NoOccurrences(keys);
    } else {
      var before := s[..|s| - 1];
      assert s == before + [s[|s| - 1]];
      OccurrencesAreAll(before, keys);
      OccurrencesAppend(before, s[|s| - 1], keys);
    }
  }

  lemma {:induction false} FromsAre(pairs: seq<(char, char)>)
    ensures |Froms(pairs)| == |pairs|
    ensures forall i | 0 <= i < |pairs| :: Froms(pairs)[i] == pairs[i].0
  {
    if pairs != [] {
      FromsAre(pairs[..|pairs| - 1]);
    }
  }

  lemma {:induction false} RowsAreOccurrences(m: Model, pairs: seq<(char, char)>, keys: seq<char>)
    requires RowsAgree(m.rowTotals, pairs)
    ensures SumRows(m, keys) == Occurrences(Froms(pairs), keys)
  {
    hide Froms;
    if keys != [] {
      RowsAreOccurrences(m, pairs, keys[1..]);
    }
  }

  lemma TotalIsRows(m: Model, pairs: seq<(char, char)>, keys: seq<char>)
    requires Agrees(m, pairs) && Enumerates(keys, m.counts.Keys)
    ensures SumRows(m, keys) == m.total
  {
    hide Froms, SumRows, Occurrences;
    RowsAreOccurrences(m, pairs, keys);
    FromsAre(pairs);
    forall c | c in Froms(pairs)
      ensures c in keys
    {
      var i :| 0 <= i < |pairs| && Froms(pairs)[i] == c;
      CellsPresent(m, pairs, pairs[i]);
    }
    OccurrencesAreAll(Froms(pairs), keys);
  }

  // ---------------------------------------------------------------- the round trip

  function CharsBelow(n: nat): (s: set<char>)
    requires n <= 256
    ensures |s| <= n
  {
    if n == 0 then {} else CharsBelow(n - 1) + {(n - 1) as char}
  }

  lemma {:induction false} BelowIsListed(n: nat, c: char)
    requires n <= 256 && c as int < n
    ensures c in CharsBelow(n)
  {
    if c as int < n - 1 {
      BelowIsListed(n - 1, c);
    }
  }

  /** Characters are bytes, so there are at most 256 of them. */
  predicate Bytes(chars: set<char>) {
    forall c | c in chars :: c as int < 256
  }

  lemma FewKeys(keys: seq<char>, chars: set<char>, alphabet: set<char>)
    requires Enumerates(keys, chars) && chars <= alphabet && Bytes(alphabet)
    ensures |keys| <= 256
  {
    EnumerationSize(keys, chars);
    forall c | c in chars
      ensures c in CharsBelow(256)
    {
      BelowIsListed(256, c);
    }
    SubsetSize(chars, CharsBelow(256));
  }

  /** What training leaves in a model: its cells lie in its alphabet. */
  predicate Inside(m: Model) {
    m.counts.Keys <= m.alphabet && forall f | f in m.counts :: m.counts[f].Keys <= m.alphabet
  }

  lemma TrainedIsInside(m: Model, pairs: seq<(char, char)>)
    requires Agrees(m, pairs) && forall p | p in pairs :: p.0 in m.alphabet && p.1 in m.alphabet
    ensures Inside(m)
  {
    forall f, t | f in m.counts && t in m.counts[f]
      ensures f in m.alphabet && t in m.alphabet
    {
      PairFromCell(m, pairs, f, t);
    }
    forall f | f in m.counts
      ensures f in m.alphabet
    {
      var t :| t in m.counts[f];
      PairFromCell(m, pairs, f, t);
    }
  }

  lemma LaidOutRow(m: Model, pairs: seq<(char, char)>, layout: Layout, row: (char, seq<char>))
    requires Agrees(m, pairs) && Inside(m) && Lists(layout, m) && row in layout.rows
    ensures RowOfModel(m, row)
    ensures Enumerates(row.1, m.counts[row.0].Keys)
  {
    hide CountsAgree, RowsAgree, SumCells;
    var i :| 0 <= i < |layout.rows| && layout.rows[i] == row;
    assert RowKeys(layout.rows)[i] == row.0;
    assert row.0 in m.counts;
    RowSum(m, pairs, row.0, row.1);
    assert CharSet(row.1) == m.counts[row.0].Keys;
    assert row.1 != [];
  }

  lemma CellBounds(m: Model, pairs: seq<(char, char)>, f: char, t: char)
    requires Agrees(m, pairs)
    ensures 0 <= Cell(m.counts, f, t) <= |pairs|
  {
    assert Cell(m.counts, f, t) == multiset(pairs)[(f, t)];
    Multiplicity(pairs, (f, t));
  }

  lemma {:induction false} Multiplicity<T>(s: seq<T>, x: T)
    ensures multiset(s)[x] <= |s|
    decreases |s|
  {
    if s != [] {
      var before := s[..|s| - 1];
      assert s == before + [s[|s| - 1]];
      Multiplicity(before, x);
      OneMore(before, s[|s| - 1], x);
    }
  }

  lemma LaidOutRowFits(m: Model, pairs: seq<(char, char)>, row: (char, seq<char>))
    requires Agrees(m, pairs) && Inside(m) && RowOfModel(m, row) && Enumerates(row.1, m.counts[row.0].Keys)
    requires Bytes(m.alphabet) && (forall c | c in m.alphabet :: !IsSpace(c)) && |pairs| <= INT64_MAX
    ensures !IsSpace(row.0) && CellsFit(m.counts, row.0, row.1) && |row.1| < UINT64
  {
    hide Agrees, IsSpace, SumCells;
    FewKeys(row.1, m.counts[row.0].Keys, m.alphabet);
    forall t | t in row.1
      ensures !IsSpace(t) && 0 <= Cell(m.counts, row.0, t) <= INT64_MAX
    {
      assert t in CharSet(row.1);
      CellBounds(m, pairs, row.0, t);
    }
  }

  lemma RestoredIsWhole(m: Model, n: Model, pairs: seq<(char, char)>, keys: seq<char>)
    requires Agrees(m, pairs) && Enumerates(keys, m.counts.Keys)
    requires HasRows(n, m, CharSet(keys)) && n.total == SumRows(m, keys)
    ensures n == m
  {
    hide SumRows, RowsAgree, CountsAgree;
    TotalIsRows(m, pairs, keys);
    assert n.counts == m.counts;
    assert n.rowTotals == m.rowTotals;
  }

  /** What a model file can carry at all: a label on one line, a fingerprint on one line, characters
      other than spaces. */
  predicate Carried(m: Model, printedK: string, fingerprint: string) {
    && Free(m.name, '\n') && NoSpace(printedK) && printedK != "" && Free(fingerprint, '\n')
    && (forall c | c in m.alphabet :: !IsSpace(c)) && Bytes(m.alphabet)
  }

  lemma LaidOutFits(m: Model, pairs: seq<(char, char)>, printedK: string, fingerprint: string, layout: Layout)
    requires Agrees(m, pairs) && Inside(m) && Lists(layout, m) && |pairs| <= INT64_MAX
    requires Carried(m, printedK, fingerprint)
    ensures Storable(m, printedK, fingerprint, layout)
    ensures forall row | row in layout.rows :: RowOfModel(m, row) && Enumerates(row.1, m.counts[row.0].Keys)
  {
    var keys := RowKeys(layout.rows);
    hide Agrees, Inside, CellsFit, Free, SumCells;
    forall row | row in layout.rows
      ensures RowOfModel(m, row) && !IsSpace(row.0) && CellsFit(m.counts, row.0, row.1) && |row.1| < UINT64
      ensures row.0 in m.counts && Enumerates(row.1, m.counts[row.0].Keys)
    {
      LaidOutRow(m, pairs, layout, row);
      LaidOutRowFits(m, pairs, row);
    }
    KeysInside(m);
    FewKeys(keys, m.counts.Keys, m.alphabet);
    forall i | 0 <= i < |layout.alphabet|
      ensures !IsSpace(layout.alphabet[i])
    {
      assert layout.alphabet[i] in CharSet(layout.alphabet);
    }
  }

  predicate NoPairToColon(pairs: seq<(char, char)>) {
    forall p | p in pairs :: p.1 != ':'
  }

  lemma NoColonInRow(m: Model, pairs: seq<(char, char)>, row: (char, seq<char>))
    requires Agrees(m, pairs) && NoPairToColon(pairs)
    requires RowOfModel(m, row)
    ensures ':' !in row.1
  {
    if ':' in row.1 {
      assert ':' in CharSet(row.1);
      PairFromCell(m, pairs, row.0, ':');
      assert false;
    }
  }

  /** All comes back, of the label its first word. */
  lemma CarriedComesBack(m: Model, pairs: seq<(char, char)>, printedK: string, fingerprint: string, layout: Layout,
                         k: real, before: string, readK: string -> real)
    requires Agrees(m, pairs) && Inside(m) && Lists(layout, m) && |pairs| <= INT64_MAX
    requires Carried(m, printedK, fingerprint) && readK(printedK) == m.k && NoPairToColon(pairs)
    ensures Load(Serialized(m, printedK, fingerprint, layout), k, before, readK)
            == Ok(Loaded(m.(name := FirstWord(m.name)), fingerprint))
  {
    var keys, named := RowKeys(layout.rows), m.(name := FirstWord(m.name));
    hide Agrees, Inside, RowOfModel, CellsFit, Serialized, Load, SumRows, AddRows, FirstWord, NoPairToColon;
    hide Carried, Storable;
    LaidOutFits(m, pairs, printedK, fingerprint, layout);
    forall row | row in layout.rows
      ensures ':' !in row.1 && RowOfModel(named, row)
    {
      NoColonInRow(m, pairs, row);
      NameIrrelevant(m, pairs, row, named.name);
    }
    FileLoads(m, printedK, fingerprint, layout, k, before, readK);
    var base := Base(m, printedK, layout, readK);
    RowsAdded(base, named, {}, layout.rows);
    assert {} + CharSet(keys) == CharSet(keys);
    AgreesWhateverName(m, pairs, named.name);
    RestoredIsWhole(named, AddRows(base, m.counts, layout.rows), pairs, keys);
  }

  lemma NameIrrelevant(m: Model, pairs: seq<(char, char)>, row: (char, seq<char>), name: string)
    requires RowOfModel(m, row)
    ensures RowOfModel(m.(name := name), row)
  {
  }

  lemma AgreesWhateverName(m: Model, pairs: seq<(char, char)>, name: string)
    requires Agrees(m, pairs)
    ensures Agrees(m.(name := name), pairs)
  {
  }

  lemma KeysInside(m: Model)
    requires Inside(m)
    ensures m.counts.Keys <= m.alphabet
  {
  }

  // ---------------------------------------------------------------- what cannot come back

  lemma StoredColonThrows(m: Model, from: char, c: int)
    requires 0 <= c
    ensures ReadToken(m, from, [':'] + ":" + PrintCount(c)) == Thrown
  {
    var token := [':'] + ":" + Print(c);
    FindAfter("", ':', ":" + Print(c));
    assert token == "" + ([':'] + (":" + Print(c)));
    hide Find;
    assert token[1..] == ":" + Print(c);
    assert token[1..][0] == ':';
  }

  lemma TokensThrow(m: Model, from: char, s: string)
    requires NextWord(s).word != "" && ReadToken(m, from, NextWord(s).word).Thrown?
    ensures ReadTokens(m, from, s) == Thrown
  {
  }

  lemma {:induction false} CellsThrow(m: Model, counts: Counts, from: char, tos: seq<char>)
    requires CellsFit(counts, from, tos) && ':' in tos
    ensures ReadTokens(m, from, CellsText(counts, from, tos)) == Thrown
    decreases |tos|
  {
    hide ReadTokens, ReadToken, NextWord, AddCell, Cell, CellsText, CellsFit, NoSpace, Ends, IsSpace;
    var to, rest := tos[0], CellsText(counts, from, tos[1..]);
    CellsFitFirst(counts, from, tos);
    CellTextIsWord(counts, from, to);
    CellsTextEnds(counts, from, tos[1..]);
    WordRead(CellText(counts, from, to), rest);
    CellsTextStep(counts, from, tos);
    if to == ':' {
      StoredColonThrows(m, from, Cell(counts, from, to));
      TokensThrow(m, from, CellsText(counts, from, tos));
    } else {
      TokenOfCell(m, counts, from, to);
      TokensStep(m, from, CellsText(counts, from, tos), AddCell(m, from, to, Cell(counts, from, to)));
      CellsThrow(AddCell(m, from, to, Cell(counts, from, to)), counts, from, tos[1..]);
    }
  }

  lemma RowThrows(m: Model, counts: Counts, row: (char, seq<char>))
    requires !IsSpace(row.0) && CellsFit(counts, row.0, row.1) && |row.1| < UINT64 && ':' in row.1
    ensures ReadRow(m, RowText(counts, row)) == Thrown
  {
    hide ReadTokens, CellsText, ReadSize, SkipSpaces, CellsFit;
    var line, cells := RowText(counts, row), CellsText(counts, row.0, row.1);
    assert line[0] == row.0;
    SpaceSkipped(line);
    assert line[1..] == " " + (Print(|row.1|) + cells);
    CellsTextEnds(counts, row.0, row.1);
    SizeIsRead(|row.1|, cells);
    CellsThrow(m, counts, row.0, row.1);
  }

  lemma {:induction false} RowsThrow(m: Model, counts: Counts, rows: seq<(char, seq<char>)>, lines: seq<string>, i: nat)
    requires RowsFit(counts, rows) && !ColonFree(rows)
    requires i <= |lines| && lines[i..] == RowTexts(counts, rows)
    ensures ReadRows(m, lines, i, |rows|) == Thrown
    decreases |rows|
  {
    hide ReadRow, AddCells, RowText, CellsFit;
    assert rows != [];
    assert rows[0] in rows;
    assert lines[i] == lines[i..][0];
    if ':' in rows[0].1 {
      RowThrows(m, counts, rows[0]);
    } else {
      RowRead(m, counts, rows[0]);
      assert lines[i + 1..] == lines[i..][1..];
      assert !ColonFree(rows[1..]) by {
        var row :| row in rows && ':' in row.1;
        assert row in rows[1..];
      }
      RowsThrow(AddCells(m, counts, rows[0].0, rows[0].1), counts, rows[1..], lines, i + 1);
    }
  }

  lemma ColonInSomeRow(m: Model, pairs: seq<(char, char)>, layout: Layout)
    requires Agrees(m, pairs) && Lists(layout, m) && !NoPairToColon(pairs)
    ensures !ColonFree(layout.rows)
  {
    var p :| p in pairs && p.1 == ':';
    CellsPresent(m, pairs, p);
    assert p.0 in CharSet(RowKeys(layout.rows));
    var i :| 0 <= i < |layout.rows| && RowKeys(layout.rows)[i] == p.0;
    var row := layout.rows[i];
    assert row in layout.rows && p.1 in CharSet(row.1);
  }

  /** A model that observed a transition to a colon is written in a form that cannot be loaded: the
      conversion of that count throws. */
  lemma ColonThrows(m: Model, pairs: seq<(char, char)>, printedK: string, fingerprint: string, layout: Layout,
                    k: real, before: string, readK: string -> real)
    requires Agrees(m, pairs) && Inside(m) && Lists(layout, m) && |pairs| <= INT64_MAX
    requires Carried(m, printedK, fingerprint) && !NoPairToColon(pairs)
    ensures Load(Serialized(m, printedK, fingerprint, layout), k, before, readK) == Thrown
  {
    hide Agrees, Inside, FileLines, Load, Serialized, ReadRows, Base, Lists, Carried, ColonFree, NoPairToColon;
    LaidOutFits(m, pairs, printedK, fingerprint, layout);
    ColonInSomeRow(m, pairs, layout);
    FileRead(m, printedK, fingerprint, layout, k, before, readK);
    var lines := FileLines(m, printedK, fingerprint, layout);
    RowsThrow(Base(m, printedK, layout, readK), m.counts, layout.rows, lines, 6);
  }

  // ---------------------------------------------------------------- whatever is loaded

  lemma {:induction false} WordIsPlain(s: string)
    ensures NoSpace(s[..WordLength(s)])
  {
    if s != "" && !IsSpace(s[0]) {
      WordIsPlain(s[1..]);
      assert s[..WordLength(s)] == [s[0]] + s[1..][..WordLength(s[1..])];
    }
  }

  /** Labels and characters that come out of a file hold no spaces. */
  predicate Plain(m: Model) {
    NoSpace(m.name) && forall c | c in m.alphabet :: !IsSpace(c)
  }

  lemma CellKeepsPlain(m: Model, from: char, to: char, c: int)
    requires Plain(m) && !IsSpace(from) && !IsSpace(to)
    ensures Plain(AddCell(m, from, to, c))
  {
  }

  lemma TokenKeepsPlain(m: Model, from: char, token: string)
    requires Plain(m) && !IsSpace(from) && token != "" && NoSpace(token)
    ensures var r := ReadToken(m, from, token); r.Ok? ==> Plain(r.value)
  {
    hide AddCell, Plain, ParseLong, Find;
    if Find(token, ":", 0).Some? {
      FindInRange(token, ":", 0);
      var c := ParseLong(token[Find(token, ":", 0).value + 1..]);
      if c.Ok? {
        CellKeepsPlain(m, from, token[0], c.value);
      }
    }
  }

  lemma {:induction false} TokensKeepPlain(m: Model, from: char, s: string)
    requires Plain(m) && !IsSpace(from)
    ensures var r := ReadTokens(m, from, s); r.Ok? ==> Plain(r.value)
    decreases |s|
  {
    hide Plain, ReadToken;
    var w := NextWord(s);
    if w.word != "" {
      WordIsPlain(SkipSpaces(s));
      hide SkipSpaces, WordLength, NoSpace;
      TokenKeepsPlain(m, from, w.word);
      var n := ReadToken(m, from, w.word);
      if n.Ok? {
        TokensKeepPlain(n.value, from, w.rest);
      }
    }
  }

  lemma {:induction false} RowsKeepPlain(m: Model, lines: seq<string>, i: nat, rows: int)
    requires Plain(m)
    ensures var r := ReadRows(m, lines, i, rows); r.Ok? ==> Plain(r.value)
    decreases |lines| - i
  {
    hide Plain, ReadTokens, ReadSize;
    if rows > 0 && i < |lines| {
      var t := SkipSpaces(lines[i]);
      if t != "" {
        TokensKeepPlain(m, t[0], ReadSize(t[1..]).rest);
      }
      hide SkipSpaces;
      var n := ReadRow(m, lines[i]);
      if n.Ok? {
        RowsKeepPlain(n.value, lines, i + 1, rows - 1);
      }
    }
  }

  lemma FieldKeepsPlain(l: Loaded, line: string, readK: string -> real)
    requires Plain(l.model)
    ensures Plain(ReadField(l, line, readK).model)
  {
    hide SkipSpaces, WordLength;
    var key := NextWord(line);
    WordIsPlain(SkipSpaces(key.rest));
  }

  lemma {:induction false} LoadKeepsPlain(l: Loaded, lines: seq<string>, i: nat, readK: string -> real)
    requires Plain(l.model)
    ensures var r := LoadFrom(l, lines, i, readK); r.Ok? ==> Plain(r.value.model)
    decreases |lines| - i
  {
    hide Plain, ReadField, ReadRows, NextWord, ReadSize;
    if i < |lines| {
      if NextWord(lines[i]).word == "transitions" {
        var rows := ReadSize(NextWord(lines[i]).rest).value;
        RowsKeepPlain(l.model, lines, i + 1, rows);
        var m := ReadRows(l.model, lines, i + 1, rows);
        if m.Ok? {
          LoadKeepsPlain(l.(model := m.value), lines, NextIndex(lines, i, rows), readK);
        }
      } else {
        FieldKeepsPlain(l, lines[i], readK);
        LoadKeepsPlain(ReadField(l, lines[i], readK), lines, i + 1, readK);
      }
    }
  }

  lemma {:induction false} SkipKeepsFree(s: string, c: char)
    requires Free(s, c)
    ensures Free(SkipSpaces(s), c)
  {
    if s != "" && IsSpace(s[0]) {
      SkipKeepsFree(s[1..], c);
    }
  }

  lemma RestIsFree(s: string, c: char)
    requires Free(s, c)
    ensures Free(NextWord(s).rest, c)
  {
    SkipKeepsFree(s, c);
  }

  lemma FieldKeepsFree(l: Loaded, line: string, readK: string -> real)
    requires Free(line, '\n')
    requires Free(l.fingerprint, '\n') || NextWord(line).word == "config"
    ensures Free(ReadField(l, line, readK).fingerprint, '\n')
  {
    RestIsFree(line, '\n');
    hide NextWord;
  }

  lemma {:induction false} LoadKeepsFree(l: Loaded, lines: seq<string>, i: nat, readK: string -> real)
    requires Free(l.fingerprint, '\n') && forall j | 0 <= j < |lines| :: Free(lines[j], '\n')
    ensures var r := LoadFrom(l, lines, i, readK); r.Ok? ==> Free(r.value.fingerprint, '\n')
    decreases |lines| - i
  {
    hide Free, ReadField, ReadRows, NextWord, ReadSize;
    if i < |lines| {
      if NextWord(lines[i]).word == "transitions" {
        var rows := ReadSize(NextWord(lines[i]).rest).value;
        var m := ReadRows(l.model, lines, i + 1, rows);
        if m.Ok? {
          LoadKeepsFree(l.(model := m.value), lines, NextIndex(lines, i, rows), readK);
        }
      } else {
        FieldKeepsFree(l, lines[i], readK);
        LoadKeepsFree(ReadField(l, lines[i], readK), lines, i + 1, readK);
      }
    }
  }

  lemma BeforeFound(s: string, c: char)
    ensures match Find(s, [c], 0)
            case None => Free(s, c)
            case Some(n) => n < |s| && s[n] == c && Free(s[..n], c)
  {
    FindIsFirst(s, [c], 0);
    hide Find;
    forall i | 0 <= i < |s| && !MatchesAt(s, [c], i)
      ensures s[i] != c
    {
      assert s[i..i + 1] == [s[i]];
    }
    if Find(s, [c], 0).Some? {
      var n := Find(s, [c], 0).value;
      assert s[n..n + 1][0] == s[n];
    }
  }

  lemma {:induction false} LinesAreFree(text: string)
    ensures forall i | 0 <= i < |Lines(text)| :: Free(Lines(text)[i], '\n')
    decreases |text|
  {
    BeforeFound(text, '\n');
    hide Find, Free;
    if text != "" && Find(text, "\n", 0).Some? {
      LinesAreFree(text[Find(text, "\n", 0).value + 1..]);
    }
  }

  lemma FirstLineStarts(prefix: string, text: string)
    requires prefix != "" && Free(prefix, '\n') && prefix <= text
    ensures Lines(text) != [] && prefix <= Lines(text)[0]
  {
    BeforeFound(text, '\n');
    hide Find;
    if Find(text, "\n", 0).Some? {
      var n := Find(text, "\n", 0).value;
      assert text[..n][..|prefix|] == text[..|prefix|];
    }
  }

  lemma FirstFourLines(m: Model, printedK: string, fingerprint: string, layout: Layout) returns (rest: string)
    requires Free(m.name, '\n') && Free(printedK, '\n')
    ensures var lines := Lines(Serialized(m, printedK, fingerprint, layout));
            |lines| >= 4 && lines[1] == "label " + m.name && lines[2] == "k " + printedK
            && lines[3] == "config " + rest
  {
    hide Lines, RowTexts, Print;
    var all := FileLines(m, printedK, fingerprint, layout);
    var tail := FileText(all[3..]);
    assert FileText(all) == HEADER + ("\n" + FileText(all[1..]));
    assert all[1..][0] == "label " + m.name && all[1..][1..] == all[2..];
    assert all[2..][0] == "k " + printedK && all[2..][1..] == all[3..];
    assert all[3..][0] == "config " + fingerprint;
    LineSplits(HEADER, FileText(all[1..]));
    LineSplits("label " + m.name, FileText(all[2..]));
    LineSplits("k " + printedK, tail);
    Associate("config ", fingerprint, "\n" + FileText(all[3..][1..]));
    assert tail == "config " + (fingerprint + ("\n" + FileText(all[3..][1..])));
    FirstLineStarts("config ", tail);
    hide FileText;
    rest := Lines(tail)[0][7..];
  }

  /** The fingerprint is always taken from one line. */
  lemma FingerprintIsOneLine(m: Model, printedK: string, fingerprint: string, layout: Layout, k: real, before: string,
                             readK: string -> real)
    requires Free(m.name, '\n') && NoSpace(printedK) && printedK != ""
    ensures var r := Load(Serialized(m, printedK, fingerprint, layout), k, before, readK);
            r.Ok? ==> Free(r.value.fingerprint, '\n')
  {
    NoSpaceIsFree(printedK);
    hide Serialized, Lines, LoadFrom, ReadField, NextWord, Free, NoSpace, FirstWord;
    var rest := FirstFourLines(m, printedK, fingerprint, layout);
    var lines := Lines(Serialized(m, printedK, fingerprint, layout));
    LinesAreFree(Serialized(m, printedK, fingerprint, layout));
    var l := Loaded(Untrained("", k), before);
    NameField(l, m.name, readK);
    FieldStep(l, lines, 1, readK);
    var l1 := ReadField(l, lines[1], readK);
    KField(l1, printedK, readK);
    FieldStep(l1, lines, 2, readK);
    var l2 := ReadField(l1, lines[2], readK);
    ConfigLine(rest);
    FieldStep(l2, lines, 3, readK);
    FieldKeepsFree(l2, lines[3], readK);
    LoadKeepsFree(ReadField(l2, lines[3], readK), lines, 4, readK);
  }

  lemma NothingIsPlain(k: real)
    ensures Plain(Untrained("", k))
  {
  }

  // ---------------------------------------------------------------- the exact condition

  lemma AgreeingRoundTripExactly(m: Model, pairs: seq<(char, char)>, printedK: string, fingerprint: string,
                                 layout: Layout, k: real, before: string, readK: string -> real)
    requires Agrees(m, pairs) && Inside(m) && Lists(layout, m) && |pairs| <= INT64_MAX && Bytes(m.alphabet)
    requires NoSpace(printedK) && printedK != "" && readK(printedK) == m.k
    ensures Load(Serialized(m, printedK, fingerprint, layout), k, before, readK) == Ok(Loaded(m, fingerprint)) <==>
            && NoSpace(m.name) && Free(fingerprint, '\n')
            && (forall c | c in m.alphabet :: !IsSpace(c)) && NoPairToColon(pairs)
  {
    var text := Serialized(m, printedK, fingerprint, layout);
    NothingIsPlain(k);
    LoadKeepsPlain(Loaded(Untrained("", k), before), Lines(text), 1, readK);
    var r := Load(text, k, before, readK);
    assert r.Ok? ==> Plain(r.value.model);
    hide Load, Serialized, Agrees, Inside, Lists, NoPairToColon, Bytes, FirstWord, IsSpace;
    if NoSpace(m.name) {
      NoSpaceIsFree(m.name);
      FirstOfOne(m.name);
      FingerprintIsOneLine(m, printedK, fingerprint, layout, k, before, readK);
      if Carried(m, printedK, fingerprint) {
        if NoPairToColon(pairs) {
          CarriedComesBack(m, pairs, printedK, fingerprint, layout, k, before, readK);
        } else {
          ColonThrows(m, pairs, printedK, fingerprint, layout, k, before, readK);
        }
      }
    }
  }

  /** Loading what was written restores label, k, alphabet, every count, the totals and the fingerprint, in
      whatever order the maps were walked, exactly when the label holds no space and the fingerprint no line
      end, no observed character is a space, and no observed pair ends in a colon; a colon that only ever
      starts pairs does no harm. */
  lemma ModelRoundTripExactly(name: string, k: real, strings: seq<string>, printedK: string, fingerprint: string,
                              layout: Layout, otherK: real, before: string, readK: string -> real)
    requires NoSpace(printedK) && printedK != "" && readK(printedK) == k
    requires Bytes(AllChars(strings)) && |AllPairs(strings)| <= INT64_MAX
    requires Lists(layout, Trained(Untrained(name, k), strings))
    ensures var m := Trained(Untrained(name, k), strings);
            Load(Serialized(m, printedK, fingerprint, layout), otherK, before, readK) == Ok(Loaded(m, fingerprint)) <==>
            && NoSpace(name) && Free(fingerprint, '\n')
            && (forall c | c in AllChars(strings) :: !IsSpace(c)) && NoPairToColon(AllPairs(strings))
  {
    hide Agrees, Lists, Inside, Load, Serialized, Trained, AllPairs, AllChars, Free, NoPairToColon, IsSpace;
    TrainingCounts(name, k, strings);
    AllPairsInside(strings);
    var m := Trained(Untrained(name, k), strings);
    TrainedIsInside(m, AllPairs(strings));
    AgreeingRoundTripExactly(m, AllPairs(strings), printedK, fingerprint, layout, otherK, before, readK);
  }

  /** Of a label on one line, whatever else it holds, the first word comes back; the rest is as it was. */
  lemma LabelIsCut(name: string, k: real, strings: seq<string>, printedK: string, fingerprint: string,
                   layout: Layout, otherK: real, before: string, readK: string -> real)
    requires NoSpace(printedK) && printedK != "" && readK(printedK) == k
    requires Bytes(AllChars(strings)) && |AllPairs(strings)| <= INT64_MAX
    requires Lists(layout, Trained(Untrained(name, k), strings))
    requires Free(name, '\n') && Free(fingerprint, '\n')
    requires (forall c | c in AllChars(strings) :: !IsSpace(c)) && NoPairToColon(AllPairs(strings))
    ensures var m := Trained(Untrained(name, k), strings);
            Load(Serialized(m, printedK, fingerprint, layout), otherK, before, readK)
            == Ok(Loaded(m.(name := FirstWord(name)), fingerprint))
  {
    hide Agrees, Lists, Inside, Load, Serialized, Trained, AllPairs, AllChars, Free, NoPairToColon, IsSpace, FirstWord;
    TrainingCounts(name, k, strings);
    AllPairsInside(strings);
    var m := Trained(Untrained(name, k), strings);
    TrainedIsInside(m, AllPairs(strings));
    CarriedComesBack(m, AllPairs(strings), printedK, fingerprint, layout, otherK, before, readK);
  }

  // ---------------------------------------------------------------- models of encoded connections

  lemma EncodedChars(sorted: seq<Flow>, cfg: Config)
    requires LetterCount(cfg) <= 168
    ensures forall c | c in Chars(Encode(sorted, cfg)) :: Printable(c) && c as int < 256
  {
    hide Printable, EncodeFirst;
    EncodedIsPrintable(sorted, |sorted|, cfg);
    EncodedIsBytes(sorted, |sorted|, cfg);
    EncodedIsPrintable(sorted, 0, cfg);
  }

  lemma {:induction false} EncodedIsBytes(sorted: seq<Flow>, n: nat, cfg: Config)
    requires n <= |sorted|
    ensures forall i | 0 <= i < 2 * n :: EncodeFirst(sorted, n, cfg)[i] as int < 256
  {
    hide LetterIndex;
    if n > 0 {
      EncodedIsBytes(sorted, n - 1, cfg);
      assert Letter(sorted[n - 1], cfg) as int < 256;
      SymbolIsByte(sorted, n - 1, cfg);
      hide Letter, SymbolAt;
    }
  }

  lemma SymbolIsByte(sorted: seq<Flow>, i: nat, cfg: Config)
    requires i < |sorted|
    ensures SymbolAt(sorted, i, cfg) as int < 256
  {
    hide Bucket;
    assert forall k | 0 <= k < |SYMBOLS| :: SYMBOLS[k] as int < 256;
  }

  function Encodings(connections: seq<seq<Flow>>, cfg: Config): seq<string> {
    if connections == [] then []
    else Encodings(connections[..|connections| - 1], cfg) + [Encode(connections[|connections| - 1], cfg)]
  }

  lemma {:induction false} EncodingsChars(connections: seq<seq<Flow>>, cfg: Config)
    requires LetterCount(cfg) <= 168
    ensures forall c | c in AllChars(Encodings(connections, cfg)) :: Printable(c) && c as int < 256
  {
    hide Printable, Encode, Chars, LetterCount;
    if connections != [] {
      var before, last := connections[..|connections| - 1], connections[|connections| - 1];
      EncodingsChars(before, cfg);
      EncodedChars(last, cfg);
      var s := Encodings(connections, cfg);
      assert s[..|s| - 1] == Encodings(before, cfg) && s[|s| - 1] == Encode(last, cfg);
      assert AllChars(s) == AllChars(Encodings(before, cfg)) + Chars(Encode(last, cfg));
    }
  }

  /** Every model trained on encoded connections survives being written and loaded, under any configuration
      with at most 168 letters; the default one has 15. */
  lemma EncodedModelRoundTrip(name: string, k: real, connections: seq<seq<Flow>>, cfg: Config, printedK: string,
                              fingerprint: string, layout: Layout, otherK: real, before: string, readK: string -> real)
    requires LetterCount(cfg) <= 168
    requires NoSpace(name) && Free(fingerprint, '\n')
    requires NoSpace(printedK) && printedK != "" && readK(printedK) == k
    requires |AllPairs(Encodings(connections, cfg))| <= INT64_MAX
    requires Lists(layout, Trained(Untrained(name, k), Encodings(connections, cfg)))
    ensures var m := Trained(Untrained(name, k), Encodings(connections, cfg));
            Load(Serialized(m, printedK, fingerprint, layout), otherK, before, readK) == Ok(Loaded(m, fingerprint))
  {
    hide Lists, Load, Serialized, Trained, AllPairs, AllChars, Encodings, NoSpace, Free, LetterCount, IsSpace;
    EncodingsChars(connections, cfg);
    AllPairsInside(Encodings(connections, cfg));
    ModelRoundTripExactly(name, k, Encodings(connections, cfg), printedK, fingerprint, layout, otherK, before, readK);
  }
}
