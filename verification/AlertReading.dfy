/** Reading a field of an alert out of any text, told by where its parts stand. */
module AlertReading {
  import opened Options
  import opened Strings
  import opened AlertJson

  /** A character of a value as it is written: itself, or behind a backslash. */
  datatype Piece = Plain(c: char) | Escaped(c: char)

  predicate Readable(ps: seq<Piece>) {
    forall p | p in ps :: p.Plain? ==> p.c != '"' && p.c != '\\'
  }

  function Sign(p: Piece): string {
    match p
    case Plain(c) => [c]
    case Escaped(c) => ['\\', c]
  }

  /** Behind a backslash n, r and t are control characters and everything else is itself. */
  function Sense(p: Piece): char {
    match p
    case Plain(c) => c
    case Escaped(c) => if c == 'n' then 10 as char else if c == 'r' then 13 as char else if c == 't' then 9 as char
                       else c
  }

  function Written(ps: seq<Piece>): string {
    if ps == [] then "" else Sign(ps[0]) + Written(ps[1..])
  }

  function Meant(ps: seq<Piece>): string {
    if ps == [] then "" else [Sense(ps[0])] + Meant(ps[1..])
  }

  lemma PieceRead(p: Piece, more: string)
    requires p.Plain? ==> p.c != '"' && p.c != '\\'
    ensures ReadString(Sign(p) + more) == Prepend([Sense(p)], ReadString(more))
  {
    hide ReadString;
    match p
    case Plain(c) => ReadPlain(c, more);
    case Escaped(c) => ReadEscaped(c, more);
  }

  lemma FirstPiece(ps: seq<Piece>, behind: string)
    requires ps != []
    ensures Written(ps) + behind == Sign(ps[0]) + (Written(ps[1..]) + behind)
    ensures ps[0] in ps
  {
    assert Sign(ps[0]) + Written(ps[1..]) + behind == Sign(ps[0]) + (Written(ps[1..]) + behind);
  }

  lemma {:induction false} ReadPieces(ps: seq<Piece>, rest: string)
    requires Readable(ps)
    ensures ReadString(Written(ps) + ("\"" + rest)) == Some(Meant(ps))
  {
    var behind := "\"" + rest;
    if ps == [] {
      assert Written(ps) + behind == behind;
    } else {
      hide ReadString, Written, Sign, Sense;
      ReadPieces(ps[1..], rest);
      FirstPiece(ps, behind);
      PieceRead(ps[0], Written(ps[1..]) + behind);
    }
  }

  /** Without a closing quote nothing is read, whether or not a backslash is left at the end. */
  lemma {:induction false} ReadUnclosed(ps: seq<Piece>, end: string)
    requires Readable(ps) && (end == "" || end == "\\")
    ensures ReadString(Written(ps) + end) == None
  {
    if ps == [] {
      assert Written(ps) + end == end;
      assert end != "" ==> end[1..] == "";
    } else {
      hide ReadString, Written, Sign, Sense;
      ReadUnclosed(ps[1..], end);
      FirstPiece(ps, end);
      PieceRead(ps[0], Written(ps[1..]) + end);
    }
  }

  /** The first key in quotes stands at `at`, behind it the first colon at `colon`, and behind that the first
      quote at `open`. */
  ghost predicate Located(json: string, key: string, at: nat, colon: nat, open: nat) {
    && MatchesAt(json, "\"" + key + "\"", at) && (forall i: nat | i < at :: !MatchesAt(json, "\"" + key + "\"", i))
    && at + |key| + 2 <= colon < open < |json|
    && json[colon] == ':' && (forall i: nat | at + |key| + 2 <= i < colon :: json[i] != ':')
    && json[open] == '"' && (forall i: nat | colon < i < open :: json[i] != '"')
  }

  /** The value that follows is what is extracted. */
  lemma ValueExtracted(json: string, key: string, at: nat, colon: nat, open: nat, ps: seq<Piece>, rest: string)
    requires Located(json, key, at, colon, open)
    requires Readable(ps) && json[open + 1..] == Written(ps) + ("\"" + rest)
    ensures Extract(json, key) == Meant(ps)
  {
    hide MatchesAt, ReadString;
    ValueStartAt(json, key, at, colon, open);
    ReadPieces(ps, rest);
  }

  /** Nothing is extracted if it has no end, */
  lemma UnclosedExtractsNothing(json: string, key: string, at: nat, colon: nat, open: nat, ps: seq<Piece>, end: string)
    requires Located(json, key, at, colon, open)
    requires Readable(ps) && (end == "" || end == "\\") && json[open + 1..] == Written(ps) + end
    ensures Extract(json, key) == ""
  {
    hide MatchesAt, ReadString;
    ValueStartAt(json, key, at, colon, open);
    ReadUnclosed(ps, end);
  }

  predicate FirstAt(json: string, c: char, from: nat, at: nat) {
    from <= at < |json| && json[at] == c && forall i: nat | from <= i < at :: json[i] != c
  }

  predicate NoneFrom(json: string, c: char, from: nat) {
    forall i: nat | from <= i < |json| :: json[i] != c
  }

  lemma StartNeedsKey(json: string, key: string)
    requires forall i: nat :: !MatchesAt(json, "\"" + key + "\"", i)
    ensures ValueStart(json, key) == None
  {
    FindIsFirst(json, Quoted(key), 0);
    hide Find, MatchesAt;
  }

  lemma StartNeedsColonAndQuote(json: string, key: string, at: nat, colon: nat)
    requires MatchesAt(json, "\"" + key + "\"", at) && forall i: nat | i < at :: !MatchesAt(json, "\"" + key + "\"", i)
    requires || NoneFrom(json, ':', at + |key| + 2)
             || (FirstAt(json, ':', at + |key| + 2, colon) && NoneFrom(json, '"', colon + 1))
    ensures ValueStart(json, key) == None
  {
    FindIs(json, Quoted(key), 0, at);
    hide Find, MatchesAt;
    if NoneFrom(json, ':', at + |key| + 2) {
      FindNothing(json, ':', at + |key| + 2);
    } else {
      FindChar(json, ':', at + |key| + 2, colon);
      FindNothing(json, '"', colon + 1);
    }
  }

  /** or if the key, the colon behind it or the quote behind that is missing. */
  lemma MissingExtractsNothing(json: string, key: string, at: nat, colon: nat)
    requires || (forall i: nat :: !MatchesAt(json, "\"" + key + "\"", i))
             || (&& MatchesAt(json, "\"" + key + "\"", at)
                 && (forall i: nat | i < at :: !MatchesAt(json, "\"" + key + "\"", i))
                 && (|| NoneFrom(json, ':', at + |key| + 2)
                     || (FirstAt(json, ':', at + |key| + 2, colon) && NoneFrom(json, '"', colon + 1))))
    ensures Extract(json, key) == ""
  {
    hide MatchesAt, ValueStart, FirstAt, NoneFrom;
    if forall i: nat :: !MatchesAt(json, "\"" + key + "\"", i) {
      StartNeedsKey(json, key);
    } else {
      StartNeedsColonAndQuote(json, key, at, colon);
    }
  }

  /** How a severity is shown. */
  lemma SeverityShown()
    ensures Severity("High", "8.9", "HIGH", "8.900000").Format() == "High (CVSS 4.0: 8.9/HIGH)"
  {
  }
}
