/** First-order Markov models of state strings: training and smoothed probabilities. */
module MarkovModels {
  import opened Sequences

  type Counts = map<char, map<char, int>>

  datatype Model = Model(name: string, k: real, counts: Counts, rowTotals: map<char, int>, alphabet: set<char>,
                         total: int)

  function Untrained(name: string, k: real): Model {
    Model(name, k, map[], map[], {}, 0)
  }

  function RowOf(counts: Counts, from: char): map<char, int> {
    if from in counts then counts[from] else map[]
  }

  function Lookup(row: map<char, int>, c: char): int {
    if c in row then row[c] else 0
  }

  function Bumped(counts: Counts, from: char, to: char): Counts {
    counts[from := RowOf(counts, from)[to := Lookup(RowOf(counts, from), to) + 1]]
  }

  /** One transition observed. */
  function AddPair(m: Model, from: char, to: char): Model {
    m.(counts := Bumped(m.counts, from, to),
       rowTotals := m.rowTotals[from := Lookup(m.rowTotals, from) + 1],
       alphabet := m.alphabet + {to},
       total := m.total + 1)
  }

  /** The first n transitions of a string observed. */
  function AddFirst(m: Model, s: string, n: nat): Model
    requires n < |s|
  {
    if n == 0 then m.(alphabet := m.alphabet + {s[0]}) else AddPair(AddFirst(m, s, n - 1), s[n - 1], s[n])
  }

  function Observed(m: Model, s: string): Model {
    if |s| < 2 then m else AddFirst(m, s, |s| - 1)
  }

  function Trained(m: Model, strings: seq<string>): Model {
    if strings == [] then m else Observed(Trained(m, strings[..|strings| - 1]), strings[|strings| - 1])
  }

  class MarkovModel {
    var name: string
    var k: real
    var counts: Counts
    var rowTotals: map<char, int>
    var alphabet: set<char>
    var total: int

    function Contents(): Model
      reads this
    {
      Model(name, k, counts, rowTotals, alphabet, total)
    }

    constructor (name: string, k: real)
      ensures Contents() == Untrained(name, k)
    {
      this.name, this.k := name, k;
      counts, rowTotals, alphabet, total := map[], map[], {}, 0;
    }

    method Bump(from: char, to: char)
      modifies this
      ensures Contents() == AddPair(old(Contents()), from, to)
    {
      counts := Bumped(counts, from, to);
      rowTotals := rowTotals[from := Lookup(rowTotals, from) + 1];
      alphabet := alphabet + {to};
      total := total + 1;
    }

    method Observe(s: string)
      modifies this
      ensures Contents() == Observed(old(Contents()), s)
    {
      hide AddPair;
      if |s| < 2 {
        return;
      }
      alphabet := alphabet + {s[0]};
      var i := 1;
      while i < |s|
        invariant 1 <= i <= |s|
        invariant Contents() == AddFirst(old(Contents()), s, i - 1)
      {
        Bump(s[i - 1], s[i]);
        i := i + 1;
      }
    }

    method Train(strings: seq<string>)
      modifies this
      ensures Contents() == Trained(old(Contents()), strings)
    {
      hide Observed;
      var i := 0;
      while i < |strings|
        invariant 0 <= i <= |strings|
        invariant Contents() == Trained(old(Contents()), strings[..i])
      {
        assert strings[..i + 1][..i] == strings[..i];
        Observe(strings[i]);
        i := i + 1;
      }
      assert strings[..i] == strings;
    }
  }

  // ---------------------------------------------------------------- what training counts

  function Pairs(s: string, n: nat): seq<(char, char)>
    requires n < |s|
  {
    if n == 0 then [] else Pairs(s, n - 1) + [(s[n - 1], s[n])]
  }

  /** The adjacent characters of one string. */
  function PairsOf(s: string): seq<(char, char)> {
    if |s| < 2 then [] else Pairs(s, |s| - 1)
  }

  function AllPairs(strings: seq<string>): seq<(char, char)> {
    if strings == [] then []
    else AllPairs(strings[..|strings| - 1]) + PairsOf(strings[|strings| - 1])
  }

  function Chars(s: string): set<char> {
    if |s| < 2 then {} else set i | 0 <= i < |s| :: s[i]
  }

  function AllChars(strings: seq<string>): set<char> {
    if strings == [] then {} else AllChars(strings[..|strings| - 1]) + Chars(strings[|strings| - 1])
  }

  function Froms(pairs: seq<(char, char)>): seq<char> {
    if pairs == [] then [] else Froms(pairs[..|pairs| - 1]) + [pairs[|pairs| - 1].0]
  }

  function Cell(counts: Counts, from: char, to: char): int {
    Lookup(RowOf(counts, from), to)
  }

  predicate CountsAgree(counts: Counts, pairs: seq<(char, char)>) {
    forall f, t :: Cell(counts, f, t) == multiset(pairs)[(f, t)]
  }

  /** Nothing is stored for a pair that did not occur. */
  predicate OnlySeen(counts: Counts) {
    forall f | f in counts :: counts[f] != map[] && forall t | t in counts[f] :: counts[f][t] > 0
  }

  predicate RowsAgree(rowTotals: map<char, int>, pairs: seq<(char, char)>) {
    forall f :: Lookup(rowTotals, f) == multiset(Froms(pairs))[f]
  }

  /** Each count is how often the pair occurs, row totals count the pairs that start with a character,
      and the total counts them all. */
  predicate Agrees(m: Model, pairs: seq<(char, char)>) {
    && CountsAgree(m.counts, pairs) && OnlySeen(m.counts)
    && m.rowTotals.Keys == m.counts.Keys && RowsAgree(m.rowTotals, pairs)
    && m.total == |pairs|
  }

  lemma BumpedCell(counts: Counts, from: char, to: char, f: char, t: char)
    ensures Cell(Bumped(counts, from, to), f, t) == Cell(counts, f, t) + if f == from && t == to then 1 else 0
  {
  }

  lemma BumpedAgrees(counts: Counts, pairs: seq<(char, char)>, from: char, to: char)
    requires CountsAgree(counts, pairs)
    ensures CountsAgree(Bumped(counts, from, to), pairs + [(from, to)])
  {
    hide Cell, Bumped;
    forall f, t
      ensures Cell(Bumped(counts, from, to), f, t) == multiset(pairs + [(from, to)])[(f, t)]
    {
      BumpedCell(counts, from, to, f, t);
      OneMore(pairs, (from, to), (f, t));
    }
  }

  lemma BumpedOnlySeen(counts: Counts, from: char, to: char)
    requires OnlySeen(counts)
    ensures OnlySeen(Bumped(counts, from, to))
    ensures Bumped(counts, from, to).Keys == counts.Keys + {from}
  {
    var n := Bumped(counts, from, to);
    assert Lookup(RowOf(counts, from), to) >= 0;
    forall f | f in n
      ensures n[f] != map[] && forall t | t in n[f] :: n[f][t] > 0
    {
      if f == from {
        assert to in n[f];
      }
    }
  }

  lemma RowBumped(rowTotals: map<char, int>, pairs: seq<(char, char)>, from: char, to: char)
    requires RowsAgree(rowTotals, pairs)
    ensures RowsAgree(rowTotals[from := Lookup(rowTotals, from) + 1], pairs + [(from, to)])
  {
    var more := pairs + [(from, to)];
    assert more[..|more| - 1] == pairs;
    assert Froms(more) == Froms(pairs) + [from];
    hide Froms;
    forall f
      ensures Lookup(rowTotals[from := Lookup(rowTotals, from) + 1], f) == multiset(Froms(more))[f]
    {
      OneMore(Froms(pairs), from, f);
    }
  }

  lemma AddedAgrees(m: Model, pairs: seq<(char, char)>, from: char, to: char)
    requires Agrees(m, pairs)
    ensures Agrees(AddPair(m, from, to), pairs + [(from, to)])
  {
    hide CountsAgree, OnlySeen, RowsAgree, Bumped;
    BumpedAgrees(m.counts, pairs, from, to);
    BumpedOnlySeen(m.counts, from, to);
    RowBumped(m.rowTotals, pairs, from, to);
  }

  lemma AlphabetIrrelevant(m: Model, pairs: seq<(char, char)>, alphabet: set<char>)
    requires Agrees(m, pairs)
    ensures Agrees(m.(alphabet := alphabet), pairs)
  {
  }

  lemma {:induction false} AddFirstAgrees(m: Model, pairs: seq<(char, char)>, s: string, n: nat)
    requires Agrees(m, pairs) && n < |s|
    ensures Agrees(AddFirst(m, s, n), pairs + Pairs(s, n))
  {
    hide Agrees, AddPair;
    if n == 0 {
      AlphabetIrrelevant(m, pairs, m.alphabet + {s[0]});
      assert pairs + [] == pairs;
    } else {
      AddFirstAgrees(m, pairs, s, n - 1);
      AddedAgrees(AddFirst(m, s, n - 1), pairs + Pairs(s, n - 1), s[n - 1], s[n]);
      Associate(pairs, Pairs(s, n - 1), [(s[n - 1], s[n])]);
    }
  }

  lemma ObservedAgrees(m: Model, pairs: seq<(char, char)>, s: string)
    requires Agrees(m, pairs)
    ensures Agrees(Observed(m, s), pairs + PairsOf(s))
  {
    hide Agrees;
    if |s| < 2 {
      assert pairs + [] == pairs;
    } else {
      AddFirstAgrees(m, pairs, s, |s| - 1);
    }
  }

  lemma {:induction false} AddFirstAlphabet(m: Model, s: string, n: nat)
    requires n < |s|
    ensures AddFirst(m, s, n).alphabet == m.alphabet + set i | 0 <= i <= n :: s[i]
    ensures AddFirst(m, s, n).name == m.name && AddFirst(m, s, n).k == m.k
  {
    if n > 0 {
      AddFirstAlphabet(m, s, n - 1);
      assert (set i | 0 <= i <= n :: s[i]) == (set i | 0 <= i <= n - 1 :: s[i]) + {s[n]};
    } else {
      assert (set i | 0 <= i <= n :: s[i]) == {s[0]};
    }
  }

  lemma ObservedAlphabet(m: Model, s: string)
    ensures Observed(m, s).alphabet == m.alphabet + Chars(s)
    ensures Observed(m, s).name == m.name && Observed(m, s).k == m.k
  {
    if |s| >= 2 {
      AddFirstAlphabet(m, s, |s| - 1);
      assert (set i | 0 <= i <= |s| - 1 :: s[i]) == Chars(s);
    }
  }

  /** After any training run the model holds exactly the adjacent pairs of the strings, and its alphabet
      exactly their characters. */
  lemma {:induction false} TrainingCounts(name: string, k: real, strings: seq<string>)
    ensures var m := Trained(Untrained(name, k), strings);
            Agrees(m, AllPairs(strings)) && m.alphabet == AllChars(strings) && m.name == name && m.k == k
  {
    if strings == [] {
      assert CountsAgree(map[], []) && OnlySeen(map[]) && RowsAgree(map[], []);
    } else {
      hide Agrees, Observed;
      var before, s := strings[..|strings| - 1], strings[|strings| - 1];
      TrainingCounts(name, k, before);
      ObservedAgrees(Trained(Untrained(name, k), before), AllPairs(before), s);
      ObservedAlphabet(Trained(Untrained(name, k), before), s);
    }
  }

  // ---------------------------------------------------------------- the order of training

  lemma AgreeingModelsAreEqual(m: Model, n: Model, ps: seq<(char, char)>, qs: seq<(char, char)>)
    requires Agrees(m, ps) && Agrees(n, qs)
    requires multiset(ps) == multiset(qs) && multiset(Froms(ps)) == multiset(Froms(qs))
    requires m.name == n.name && m.k == n.k && m.alphabet == n.alphabet
    ensures m == n
  {
    hide Froms;
    SizesMatch(ps, qs);
    SameCounts(m.counts, n.counts, ps, qs);
    assert m.rowTotals == n.rowTotals by {
      forall f | f in m.rowTotals
        ensures m.rowTotals[f] == n.rowTotals[f]
      {
        assert Lookup(m.rowTotals, f) == Lookup(n.rowTotals, f);
      }
    }
  }

  lemma SeenHasCell(counts: Counts, f: char)
    requires OnlySeen(counts)
    ensures f in counts <==> exists t :: Cell(counts, f, t) > 0
  {
    if f in counts {
      assert exists t :: t in counts[f];
      var t :| t in counts[f];
      assert Cell(counts, f, t) > 0;
    }
  }

  lemma SameCounts(a: Counts, b: Counts, ps: seq<(char, char)>, qs: seq<(char, char)>)
    requires CountsAgree(a, ps) && OnlySeen(a) && CountsAgree(b, qs) && OnlySeen(b)
    requires multiset(ps) == multiset(qs)
    ensures a == b
  {
    assert forall f, t :: Cell(a, f, t) == Cell(b, f, t);
    forall f
      ensures f in a <==> f in b
    {
      SeenHasCell(a, f);
      SeenHasCell(b, f);
    }
    forall f | f in a
      ensures a[f] == b[f]
    {
      RowsEqual(a, b, f);
    }
  }

  lemma RowsEqual(a: Counts, b: Counts, f: char)
    requires OnlySeen(a) && OnlySeen(b) && f in a && f in b
    requires forall t :: Cell(a, f, t) == Cell(b, f, t)
    ensures a[f] == b[f]
  {
    forall t
      ensures t in a[f] <==> t in b[f]
      ensures t in a[f] ==> Cell(a, f, t) == a[f][t]
      ensures t in b[f] ==> Cell(b, f, t) == b[f][t]
    {
      assert Cell(a, f, t) > 0 <==> t in a[f];
      assert Cell(b, f, t) > 0 <==> t in b[f];
    }
  }

  lemma {:induction false} FromsConcat(a: seq<(char, char)>, b: seq<(char, char)>)
    ensures Froms(a + b) == Froms(a) + Froms(b)
    decreases |b|
  {
    if b == [] {
      assert a + b == a;
    } else {
      assert (a + b)[..|a + b| - 1] == a + b[..|b| - 1];
      FromsConcat(a, b[..|b| - 1]);
    }
  }

  lemma {:induction false} FromsPermute(ps: seq<(char, char)>, qs: seq<(char, char)>)
    requires multiset(ps) == multiset(qs)
    ensures multiset(Froms(ps)) == multiset(Froms(qs))
    decreases |ps|
  {
    SizesMatch(ps, qs);
    if ps != [] {
      var x, before := ps[|ps| - 1], ps[..|ps| - 1];
      SplitLast(ps);
      assert x in multiset(qs);
      var i :| 0 <= i < |qs| && qs[i] == x;
      SplitAt(qs, i);
      Cancel(x, multiset(before), multiset(qs[..i] + qs[i + 1..]));
      FromsPermute(before, qs[..i] + qs[i + 1..]);
      FromsSplit(qs, i);
    }
  }

  lemma FromsSplit(qs: seq<(char, char)>, i: nat)
    requires i < |qs|
    ensures multiset(Froms(qs)) == multiset(Froms(qs[..i] + qs[i + 1..])) + multiset{qs[i].0}
  {
    SplitAt(qs, i);
    FromsConcat(qs[..i] + [qs[i]], qs[i + 1..]);
    FromsConcat(qs[..i], [qs[i]]);
    FromsConcat(qs[..i], qs[i + 1..]);
    assert Froms([qs[i]]) == [qs[i].0];
  }

  lemma {:induction false} AllConcat(a: seq<string>, b: seq<string>)
    ensures AllPairs(a + b) == AllPairs(a) + AllPairs(b)
    ensures AllChars(a + b) == AllChars(a) + AllChars(b)
    decreases |b|
  {
    if b == [] {
      assert a + b == a;
    } else {
      assert (a + b)[..|a + b| - 1] == a + b[..|b| - 1];
      AllConcat(a, b[..|b| - 1]);
      Associate(AllPairs(a), AllPairs(b[..|b| - 1]), PairsOf(b[|b| - 1]));
    }
  }

  lemma AllSplit(b: seq<string>, i: nat)
    requires i < |b|
    ensures multiset(AllPairs(b)) == multiset(AllPairs(b[..i] + b[i + 1..])) + multiset(PairsOf(b[i]))
    ensures AllChars(b) == AllChars(b[..i] + b[i + 1..]) + Chars(b[i])
  {
    hide PairsOf, Chars;
    SplitAt(b, i);
    AllConcat(b[..i] + [b[i]], b[i + 1..]);
    AllConcat(b[..i], [b[i]]);
    AllConcat(b[..i], b[i + 1..]);
    AllOfOne(b[i]);
    hide AllPairs, AllChars;
  }

  lemma AllOfOne(s: string)
    ensures AllPairs([s]) == PairsOf(s) && AllChars([s]) == Chars(s)
  {
    hide PairsOf, Chars;
    assert [s][..0] == [];
  }

  lemma {:induction false} AllPermute(a: seq<string>, b: seq<string>)
    requires multiset(a) == multiset(b)
    ensures multiset(AllPairs(a)) == multiset(AllPairs(b))
    ensures AllChars(a) == AllChars(b)
    decreases |a|
  {
    SizesMatch(a, b);
    if a != [] {
      var x, before := a[|a| - 1], a[..|a| - 1];
      SplitLast(a);
      assert x in multiset(b);
      var i :| 0 <= i < |b| && b[i] == x;
      SplitAt(b, i);
      Cancel(x, multiset(before), multiset(b[..i] + b[i + 1..]));
      AllPermute(before, b[..i] + b[i + 1..]);
      AllSplit(b, i);
    }
  }

  /** The model depends on which strings were observed, not on their order. */
  lemma TrainingOrderIrrelevant(name: string, k: real, a: seq<string>, b: seq<string>)
    requires multiset(a) == multiset(b)
    ensures Trained(Untrained(name, k), a) == Trained(Untrained(name, k), b)
  {
    hide Agrees;
    TrainingCounts(name, k, a);
    TrainingCounts(name, k, b);
    AllPermute(a, b);
    FromsPermute(AllPairs(a), AllPairs(b));
    AgreeingModelsAreEqual(Trained(Untrained(name, k), a), Trained(Untrained(name, k), b), AllPairs(a), AllPairs(b));
  }

  // ---------------------------------------------------------------- smoothing

  function Denominator(m: Model, from: char): real {
    Lookup(m.rowTotals, from) as real + m.k * |m.alphabet| as real
  }

  /** The add-k probability whose logarithm scores a transition. */
  function Probability(m: Model, from: char, to: char): real
    requires Denominator(m, from) != 0.0
  {
    (Cell(m.counts, from, to) as real + m.k) / Denominator(m, from)
  }

  predicate Enumerates(listed: seq<char>, chars: set<char>) {
    (forall i, j | 0 <= i < j < |listed| :: listed[i] != listed[j]) && (set c | c in listed) == chars
  }

  function SumCells(counts: Counts, from: char, listed: seq<char>): int {
    if listed == [] then 0 else Cell(counts, from, listed[0]) + SumCells(counts, from, listed[1..])
  }

  function SumProbabilities(m: Model, from: char, listed: seq<char>): real
    requires Denominator(m, from) != 0.0
  {
    if listed == [] then 0.0 else Probability(m, from, listed[0]) + SumProbabilities(m, from, listed[1..])
  }

  lemma {:induction false} EnumerationSize(listed: seq<char>, chars: set<char>)
    requires Enumerates(listed, chars)
    ensures |listed| == |chars|
  {
    if listed != [] {
      var c, rest := listed[0], listed[1..];
      assert c in listed;
      assert (set d | d in rest) == chars - {c} by {
        assert c !in rest;
        forall d
          ensures d in listed <==> d == c || d in rest
        {
          assert listed == [c] + rest;
        }
      }
      EnumerationSize(rest, chars - {c});
    }
  }

  function Numerator(m: Model, from: char, listed: seq<char>): real {
    SumCells(m.counts, from, listed) as real + m.k * |listed| as real
  }

  lemma NumeratorStep(m: Model, from: char, listed: seq<char>)
    requires listed != []
    ensures Numerator(m, from, listed)
            == Cell(m.counts, from, listed[0]) as real + m.k + Numerator(m, from, listed[1..])
  {
    assert m.k * |listed| as real == m.k + m.k * |listed[1..]| as real;
  }

  lemma AddFractions(a: real, b: real, d: real)
    requires d != 0.0
    ensures a / d + b / d == (a + b) / d
  {
  }

  lemma {:induction false} SumIsFraction(m: Model, from: char, listed: seq<char>)
    requires Denominator(m, from) != 0.0
    ensures SumProbabilities(m, from, listed) == Numerator(m, from, listed) / Denominator(m, from)
  {
    hide Denominator, Numerator;
    if listed == [] {
      NumeratorOfNone(m, from);
    } else {
      SumIsFraction(m, from, listed[1..]);
      NumeratorStep(m, from, listed);
      AddFractions(Cell(m.counts, from, listed[0]) as real + m.k, Numerator(m, from, listed[1..]),
                   Denominator(m, from));
    }
  }

  lemma NumeratorOfNone(m: Model, from: char)
    ensures Numerator(m, from, []) == 0.0
  {
  }

  /** Occurrences of the pairs that lead from one character to the listed ones. */
  function SumTo(pairs: seq<(char, char)>, from: char, listed: seq<char>): nat {
    if listed == [] then 0 else multiset(pairs)[(from, listed[0])] + SumTo(pairs, from, listed[1..])
  }

  lemma {:induction false} CellsAreOccurrences(counts: Counts, pairs: seq<(char, char)>, from: char, listed: seq<char>)
    requires CountsAgree(counts, pairs)
    ensures SumCells(counts, from, listed) == SumTo(pairs, from, listed)
  {
    if listed != [] {
      CellsAreOccurrences(counts, pairs, from, listed[1..]);
    }
  }

  lemma {:induction false} SumToAppend(pairs: seq<(char, char)>, pair: (char, char), from: char, listed: seq<char>)
    requires forall i, j | 0 <= i < j < |listed| :: listed[i] != listed[j]
    ensures SumTo(pairs + [pair], from, listed)
            == SumTo(pairs, from, listed) + if pair.0 == from && pair.1 in listed then 1 else 0
  {
    if listed != [] {
      var c, rest := listed[0], listed[1..];
      SumToAppend(pairs, pair, from, rest);
      OneMore(pairs, pair, (from, c));
      assert listed == [c] + rest && c !in rest;
    }
  }

  lemma {:induction false} SumToIsRow(pairs: seq<(char, char)>, from: char, listed: seq<char>)
    requires forall i, j | 0 <= i < j < |listed| :: listed[i] != listed[j]
    requires forall p | p in pairs && p.0 == from :: p.1 in listed
    ensures SumTo(pairs, from, listed) == multiset(Froms(pairs))[from]
    decreases |pairs|
  {
    if pairs == [] {
      SumToNothing(from, listed);
    } else {
      var before, last := pairs[..|pairs| - 1], pairs[|pairs| - 1];
      SplitLast(pairs);
      SumToIsRow(before, from, listed);
      SumToAppend(before, last, from, listed);
      OneMore(Froms(before), last.0, from);
    }
  }

  lemma {:induction false} SumToNothing(from: char, listed: seq<char>)
    ensures SumTo([], from, listed) == 0
  {
    if listed != [] {
      SumToNothing(from, listed[1..]);
    }
  }

  lemma {:induction false} PairsInside(s: string, n: nat)
    requires n < |s|
    ensures forall p | p in Pairs(s, n) :: p.0 in s && p.1 in s
  {
    if n > 0 {
      PairsInside(s, n - 1);
    }
  }

  lemma {:induction false} AllPairsInside(strings: seq<string>)
    ensures forall p | p in AllPairs(strings) :: p.0 in AllChars(strings) && p.1 in AllChars(strings)
  {
    if strings != [] {
      var s := strings[|strings| - 1];
      AllPairsInside(strings[..|strings| - 1]);
      if |s| >= 2 {
        PairsInside(s, |s| - 1);
        forall c | c in s
          ensures c in Chars(s)
        {
          var i :| 0 <= i < |s| && s[i] == c;
        }
      }
    }
  }

  lemma RowTotal(m: Model, pairs: seq<(char, char)>, from: char, listed: seq<char>)
    requires Agrees(m, pairs) && Enumerates(listed, m.alphabet)
    requires forall p | p in pairs :: p.1 in m.alphabet
    ensures SumCells(m.counts, from, listed) == Lookup(m.rowTotals, from)
    ensures |listed| == |m.alphabet|
  {
    hide Froms;
    EnumerationSize(listed, m.alphabet);
    SumToIsRow(pairs, from, listed);
    CellsAreOccurrences(m.counts, pairs, from, listed);
  }

  lemma DenominatorPositive(m: Model, pairs: seq<(char, char)>, from: char)
    requires Agrees(m, pairs) && m.k > 0.0 && m.alphabet != {}
    ensures Denominator(m, from) >= Lookup(m.rowTotals, from) as real + m.k > 0.0
  {
    assert |m.alphabet| >= 1;
    Scaled(m.k, |m.alphabet|);
  }

  lemma NumeratorIsDenominator(m: Model, from: char, listed: seq<char>)
    requires SumCells(m.counts, from, listed) == Lookup(m.rowTotals, from)
    requires |listed| == |m.alphabet|
    ensures Numerator(m, from, listed) == Denominator(m, from)
  {
  }

  lemma RowSumsToOne(m: Model, pairs: seq<(char, char)>, from: char, listed: seq<char>)
    requires Agrees(m, pairs) && m.k > 0.0 && m.alphabet != {} && Enumerates(listed, m.alphabet)
    requires forall p | p in pairs :: p.1 in m.alphabet
    ensures Denominator(m, from) > 0.0 && SumProbabilities(m, from, listed) == 1.0
  {
    hide *;
    RowTotal(m, pairs, from, listed);
    DenominatorPositive(m, pairs, from);
    NumeratorIsDenominator(m, from, listed);
    SumIsFraction(m, from, listed);
    SelfRatio(Denominator(m, from));
  }

  /** After any training the smoothed probabilities of each row add up to one over the alphabet. */
  lemma SmoothedRowSumsToOne(name: string, k: real, strings: seq<string>, from: char, listed: seq<char>)
    requires k > 0.0 && AllChars(strings) != {}
    requires Enumerates(listed, AllChars(strings))
    ensures var m := Trained(Untrained(name, k), strings);
            Denominator(m, from) > 0.0 && SumProbabilities(m, from, listed) == 1.0
  {
    hide Trained, AllPairs, AllChars, Agrees, Enumerates;
    TrainingCounts(name, k, strings);
    AllPairsInside(strings);
    RowSumsToOne(Trained(Untrained(name, k), strings), AllPairs(strings), from, listed);
  }

  lemma Scaled(k: real, n: nat)
    requires k > 0.0 && n > 0
    ensures k * n as real >= k
  {
    assert k * n as real == k + k * (n - 1) as real;
    assert k * (n - 1) as real >= 0.0;
  }

  lemma SelfRatio(d: real)
    requires d > 0.0
    ensures d / d == 1.0
  {
  }

  lemma ProperFraction(x: real, d: real)
    requires 0.0 < x <= d
    ensures 0.0 < x / d <= 1.0
  {
  }

  /** Every transition, seen or not, gets a probability its logarithm exists for and is not positive. */
  lemma ScoresAreFinite(name: string, k: real, strings: seq<string>, from: char, to: char)
    requires k > 0.0 && AllChars(strings) != {}
    ensures var m := Trained(Untrained(name, k), strings);
            Denominator(m, from) > 0.0 && 0.0 < Probability(m, from, to) <= 1.0
  {
    hide Trained, AllPairs, AllChars, Froms;
    var m, pairs := Trained(Untrained(name, k), strings), AllPairs(strings);
    TrainingCounts(name, k, strings);
    DenominatorPositive(m, pairs, from);
    CellAtMostRow(pairs, from, to);
    assert 0 <= Cell(m.counts, from, to) <= Lookup(m.rowTotals, from);
    hide Agrees, Denominator;
    ProperFraction(Cell(m.counts, from, to) as real + k, Denominator(m, from));
  }

  lemma MultiplyBack(x: real, d: real)
    requires d > 0.0
    ensures x / d * d == x
  {
  }

  lemma ProbabilityIs(m: Model, pairs: seq<(char, char)>, from: char, to: char)
    requires Agrees(m, pairs) && Denominator(m, from) > 0.0
    ensures Denominator(m, from) == multiset(Froms(pairs))[from] as real + m.k * |m.alphabet| as real
    ensures Probability(m, from, to) * Denominator(m, from) == multiset(pairs)[(from, to)] as real + m.k
  {
    hide Froms;
    assert Cell(m.counts, from, to) == multiset(pairs)[(from, to)];
    hide Agrees, Cell, Lookup;
    MultiplyBack(multiset(pairs)[(from, to)] as real + m.k, Denominator(m, from));
  }

  /** The probability is the number of times the pair occurs in the strings plus k, over the number of pairs
      that start with its first character plus k for each character of the alphabet. */
  lemma SmoothedByOccurrences(name: string, k: real, strings: seq<string>, from: char, to: char)
    requires k > 0.0 && AllChars(strings) != {}
    ensures var m := Trained(Untrained(name, k), strings);
            Denominator(m, from) > 0.0 &&
            Probability(m, from, to)
            * (multiset(Froms(AllPairs(strings)))[from] as real + k * |AllChars(strings)| as real)
            == multiset(AllPairs(strings))[(from, to)] as real + k
  {
    hide *;
    ScoresAreFinite(name, k, strings, from, to);
    TrainingCounts(name, k, strings);
    ProbabilityIs(Trained(Untrained(name, k), strings), AllPairs(strings), from, to);
  }

  lemma {:induction false} CellAtMostRow(pairs: seq<(char, char)>, from: char, to: char)
    ensures multiset(pairs)[(from, to)] <= multiset(Froms(pairs))[from]
    decreases |pairs|
  {
    if pairs != [] {
      var before, last := pairs[..|pairs| - 1], pairs[|pairs| - 1];
      SplitLast(pairs);
      CellAtMostRow(before, from, to);
      OneMore(before, last, (from, to));
      OneMore(Froms(before), last.0, from);
    }
  }
}