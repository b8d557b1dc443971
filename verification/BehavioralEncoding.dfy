/** Encoding the flows of one connection as a state string. */
module BehavioralEncoding {
  import opened Sequences

  datatype Flow = Flow(startTime: real, duration: real, totalBytes: nat)

  datatype Config = Config(byteBuckets: seq<real>, durationBuckets: seq<real>, gapBuckets: seq<real>)

  const DEFAULTS: Config := Config([128.0, 1024.0, 8192.0, 65536.0], [1.0, 10.0], [2.0, 60.0, 3600.0])

  const SYMBOLS: string := ".-+*#%@"

  // ---------------------------------------------------------------- buckets

  function Bucket(v: real, bounds: seq<real>): (b: nat)
    ensures b <= |bounds|
  {
    if bounds == [] || v < bounds[0] then 0 else 1 + Bucket(v, bounds[1..])
  }

  lemma BucketStep(v: real, bounds: seq<real>, i: nat)
    requires i < |bounds|
    ensures Bucket(v, bounds[i..]) == if v < bounds[i] then 0 else 1 + Bucket(v, bounds[i + 1..])
  {
    assert bounds[i..][1..] == bounds[i + 1..];
  }

  method BucketOf(v: real, bounds: seq<real>) returns (b: nat)
    ensures b == Bucket(v, bounds)
  {
    hide Bucket;
    var i: nat := 0;
    assert bounds[0..] == bounds;
    while i < |bounds|
      invariant i <= |bounds|
      invariant Bucket(v, bounds) == i + Bucket(v, bounds[i..])
    {
      BucketStep(v, bounds, i);
      if v < bounds[i] {
        return i;
      }
      i := i + 1;
    }
    BucketOfNone(v);
    assert bounds[i..] == [];
    return i;
  }

  lemma BucketOfNone(v: real)
    ensures Bucket(v, []) == 0
  {
  }

  predicate Ascending(bounds: seq<real>) {
    forall i, j | 0 <= i < j < |bounds| :: bounds[i] < bounds[j]
  }

  /** The bucket is the interval the value lies in, and with ascending bounds there is no other. */
  lemma {:induction false} BucketIsInterval(v: real, bounds: seq<real>, b: nat)
    requires Ascending(bounds) && b <= |bounds|
    ensures b == Bucket(v, bounds) <==> (b == 0 || bounds[b - 1] <= v) && (b == |bounds| || v < bounds[b])
    decreases |bounds|
  {
    if bounds != [] && v >= bounds[0] && b > 0 {
      BucketIsInterval(v, bounds[1..], b - 1);
    }
  }

  // ---------------------------------------------------------------- letters and symbols

  /** How many letters a configuration asks for. */
  function LetterCount(cfg: Config): nat {
    (|cfg.byteBuckets| + 1) * (|cfg.durationBuckets| + 1)
  }

  function LetterIndex(f: Flow, cfg: Config): (k: nat)
    ensures k < LetterCount(cfg)
  {
    var size, duration := Bucket(f.totalBytes as real, cfg.byteBuckets), Bucket(f.duration, cfg.durationBuckets);
    IndexInRange(size, duration, |cfg.byteBuckets| + 1, |cfg.durationBuckets| + 1);
    size * (|cfg.durationBuckets| + 1) + duration
  }

  lemma IndexInRange(a: nat, b: nat, m: nat, n: nat)
    requires a < m && b < n
    ensures a * n + b < m * n
    ensures (a * n + b) / n == a && (a * n + b) % n == b
  {
    hide *;
    Multiples(n, m - a);
    Distributes(n, m, a);
    QuotientIs(a * n + b, n, a, b);
  }

  lemma QuotientIs(x: int, n: int, q: int, r: int)
    requires n > 0 && 0 <= r < n && x == n * q + r
    ensures x / n == q && x % n == r
  {
    hide *;
    var q', r' := x / n, x % n;
    assert x == n * q' + r' && 0 <= r' < n;
    if q > q' {
      Multiples(n, q - q');
    } else if q < q' {
      Multiples(n, q' - q);
    }
    Distributes(n, q, q');
  }

  lemma Multiples(n: int, k: int)
    requires n > 0 && k >= 1
    ensures n * k >= n
  {
  }

  lemma Distributes(n: int, a: int, b: int)
    ensures n * (a - b) == n * a - n * b
    ensures n * (b - a) == n * b - n * a
  {
  }

  /** The character code 'a' + k, kept to eight bits. */
  function LetterOf(k: nat): char {
    ((97 + k) % 256) as char
  }

  function Letter(f: Flow, cfg: Config): char {
    LetterOf(LetterIndex(f, cfg))
  }

  function Clamped(index: nat): (k: nat)
    ensures k < |SYMBOLS|
  {
    if index >= |SYMBOLS| then |SYMBOLS| - 1 else index
  }

  /** The first symbol is kept for the first flow. */
  function SymbolOf(bucket: nat): char {
    SYMBOLS[Clamped(1 + bucket)]
  }

  /** The symbol of a flow that starts `gap` after the one before it. */
  function GapSymbol(gap: real, cfg: Config): char {
    SymbolOf(Bucket(if gap < 0.0 then 0.0 else gap, cfg.gapBuckets))
  }

  // ---------------------------------------------------------------- the encoder

  predicate Sorted(flows: seq<Flow>) {
    forall i, j | 0 <= i < j < |flows| :: flows[i].startTime <= flows[j].startTime
  }

  /** What sorting by start time may return: flows that start together may come in any order. */
  predicate IsSortOf(sorted: seq<Flow>, flows: seq<Flow>) {
    Sorted(sorted) && multiset(sorted) == multiset(flows)
  }

  function SymbolAt(sorted: seq<Flow>, i: nat, cfg: Config): char
    requires i < |sorted|
  {
    if i == 0 then '.' else GapSymbol(sorted[i].startTime - sorted[i - 1].startTime, cfg)
  }

  /** The first n flows, two characters each. */
  function EncodeFirst(sorted: seq<Flow>, n: nat, cfg: Config): (s: string)
    requires n <= |sorted|
    ensures |s| == 2 * n
  {
    if n == 0 then ""
    else EncodeFirst(sorted, n - 1, cfg) + [Letter(sorted[n - 1], cfg)] + [SymbolAt(sorted, n - 1, cfg)]
  }

  function Encode(sorted: seq<Flow>, cfg: Config): string {
    if |sorted| < 2 then "" else EncodeFirst(sorted, |sorted|, cfg)
  }

  method EncodeConnection(flows: seq<Flow>, sorted: seq<Flow>, cfg: Config) returns (out: string)
    requires IsSortOf(sorted, flows)
    ensures out == Encode(sorted, cfg)
  {
    hide Bucket, EncodeFirst;
    assert |multiset(sorted)| == |sorted| && |multiset(flows)| == |flows|;
    if |flows| < 2 {
      return "";
    }
    out := "";
    var prevStart := 0.0;
    var havePrev := false;
    var i: nat := 0;
    EncodeNone(sorted, cfg);
    while i < |sorted|
      invariant i <= |sorted|
      invariant out == EncodeFirst(sorted, i, cfg)
      invariant havePrev == (i > 0) && (havePrev ==> prevStart == sorted[i - 1].startTime)
    {
      var f := sorted[i];
      var letter, symbol := EncodeFlow(f, havePrev, prevStart, cfg);
      EncodeMore(sorted, i, cfg);
      out := out + [letter];
      out := out + [symbol];
      prevStart := f.startTime;
      havePrev := true;
      i := i + 1;
    }
  }

  lemma EncodeNone(sorted: seq<Flow>, cfg: Config)
    ensures EncodeFirst(sorted, 0, cfg) == ""
  {
  }

  lemma EncodeMore(sorted: seq<Flow>, n: nat, cfg: Config)
    requires n < |sorted|
    ensures EncodeFirst(sorted, n + 1, cfg)
            == EncodeFirst(sorted, n, cfg) + [Letter(sorted[n], cfg)] + [SymbolAt(sorted, n, cfg)]
  {
  }

  method EncodeFlow(f: Flow, havePrev: bool, prevStart: real, cfg: Config) returns (letter: char, symbol: char)
    ensures letter == Letter(f, cfg)
    ensures symbol == if havePrev then GapSymbol(f.startTime - prevStart, cfg) else '.'
  {
    hide Bucket;
    var size := BucketOf(f.totalBytes as real, cfg.byteBuckets);
    var duration := BucketOf(f.duration, cfg.durationBuckets);
    letter := LetterOf(size * (|cfg.durationBuckets| + 1) + duration);
    var index: nat := 0;
    if havePrev {
      var gap := f.startTime - prevStart;
      if gap < 0.0 {
        gap := 0.0;
      }
      var b := BucketOf(gap, cfg.gapBuckets);
      index := 1 + b;
    }
    if index >= |SYMBOLS| {
      index := |SYMBOLS| - 1;
    }
    symbol := SYMBOLS[index];
  }

  // ---------------------------------------------------------------- decoding

  lemma {:induction false} EncodedAt(sorted: seq<Flow>, n: nat, i: nat, cfg: Config)
    requires i < n <= |sorted|
    ensures var s := EncodeFirst(sorted, n, cfg);
            s[2 * i] == Letter(sorted[i], cfg) && s[2 * i + 1] == SymbolAt(sorted, i, cfg)
  {
    if i < n - 1 {
      EncodedAt(sorted, n - 1, i, cfg);
    }
  }

  function SizeOf(letter: char, cfg: Config): nat {
    (letter as int + 159) % 256 / (|cfg.durationBuckets| + 1)
  }

  function DurationOf(letter: char, cfg: Config): nat {
    (letter as int + 159) % 256 % (|cfg.durationBuckets| + 1)
  }

  lemma LetterReadsBack(k: nat)
    requires k < 256
    ensures (LetterOf(k) as int + 159) % 256 == k
  {
  }

  /** Position in the symbol list. */
  function SymbolIndex(symbol: char): nat {
    if symbol == '.' then 0 else if symbol == '-' then 1 else if symbol == '+' then 2 else if symbol == '*' then 3
    else if symbol == '#' then 4 else if symbol == '%' then 5 else 6
  }

  lemma SymbolReadsBack(k: nat)
    requires k < |SYMBOLS|
    ensures SymbolIndex(SYMBOLS[k]) == k
  {
  }

  /** Every flow's buckets can be read off its two characters, as long as there are letters enough. */
  lemma EncodingDecodes(sorted: seq<Flow>, i: nat, cfg: Config)
    requires |sorted| >= 2 && i < |sorted| && Sorted(sorted)
    requires LetterCount(cfg) <= 256 && |cfg.gapBuckets| <= 5
    ensures var s := Encode(sorted, cfg);
            && |s| == 2 * |sorted|
            && SizeOf(s[2 * i], cfg) == Bucket(sorted[i].totalBytes as real, cfg.byteBuckets)
            && DurationOf(s[2 * i], cfg) == Bucket(sorted[i].duration, cfg.durationBuckets)
            && SymbolIndex(s[2 * i + 1])
               == if i == 0 then 0 else 1 + Bucket(sorted[i].startTime - sorted[i - 1].startTime, cfg.gapBuckets)
  {
    hide Bucket, EncodeFirst, SymbolIndex, LetterOf;
    EncodedAt(sorted, |sorted|, i, cfg);
    var f := sorted[i];
    LetterReadsBack(LetterIndex(f, cfg));
    IndexInRange(Bucket(f.totalBytes as real, cfg.byteBuckets), Bucket(f.duration, cfg.durationBuckets),
                 |cfg.byteBuckets| + 1, |cfg.durationBuckets| + 1);
    SymbolReadsBack(0);
    if i > 0 {
      SymbolReadsBack(1 + Bucket(sorted[i].startTime - sorted[i - 1].startTime, cfg.gapBuckets));
    }
  }

  /** Letters tell all size and duration pairs apart exactly when there are at most 256 pairs. */
  lemma LettersDistinctExactly(cfg: Config)
    ensures (forall j: nat, k: nat | j < k < LetterCount(cfg) :: LetterOf(j) != LetterOf(k))
            <==> LetterCount(cfg) <= 256
  {
    if LetterCount(cfg) > 256 {
      assert LetterOf(0) == LetterOf(256);
    } else {
      forall j: nat, k: nat | j < k < LetterCount(cfg)
        ensures LetterOf(j) != LetterOf(k)
      {
        LetterReadsBack(j);
        LetterReadsBack(k);
      }
    }
  }

  /** Symbols tell all gap buckets apart exactly when there are at most five bounds; the last one is
      shared by all further buckets. */
  lemma SymbolsDistinctExactly(cfg: Config)
    ensures (forall j: nat, k: nat | j < k <= |cfg.gapBuckets| :: SymbolOf(j) != SymbolOf(k))
            <==> |cfg.gapBuckets| <= 5
  {
    if |cfg.gapBuckets| > 5 {
      assert SymbolOf(5) == SymbolOf(6);
    } else {
      forall j: nat, k: nat | j < k <= |cfg.gapBuckets|
        ensures SymbolOf(j) != SymbolOf(k)
      {
        SymbolReadsBack(1 + j);
        SymbolReadsBack(1 + k);
      }
    }
  }

  lemma DefaultsDecode()
    ensures Ascending(DEFAULTS.byteBuckets) && Ascending(DEFAULTS.durationBuckets) && Ascending(DEFAULTS.gapBuckets)
    ensures LetterCount(DEFAULTS) == 15 && |DEFAULTS.gapBuckets| <= 5
  {
  }

  /** The value lies in the b-th of the intervals that the bounds make. */
  predicate InInterval(v: real, bounds: seq<real>, b: nat) {
    b <= |bounds| && (b == 0 || bounds[b - 1] <= v) && (b == |bounds| || v < bounds[b])
  }

  /** The two characters of a flow, for any configuration: the letters run through the durations for each
      size, and the symbols through the gaps, the last of them for all that are left. */
  lemma EncodedExactly(sorted: seq<Flow>, i: nat, cfg: Config, size: nat, duration: nat, gap: nat)
    requires |sorted| >= 2 && i < |sorted| && Sorted(sorted)
    requires Ascending(cfg.byteBuckets) && Ascending(cfg.durationBuckets) && Ascending(cfg.gapBuckets)
    requires InInterval(sorted[i].totalBytes as real, cfg.byteBuckets, size)
    requires InInterval(sorted[i].duration, cfg.durationBuckets, duration)
    requires i > 0 ==> InInterval(sorted[i].startTime - sorted[i - 1].startTime, cfg.gapBuckets, gap)
    ensures var s := Encode(sorted, cfg);
            && |s| == 2 * |sorted|
            && s[2 * i] as int == ('a' as int + size * (|cfg.durationBuckets| + 1) + duration) % 256
            && s[2 * i + 1] == if i == 0 then '.' else if gap >= 6 then '@' else "-+*#%@"[gap]
  {
    hide Ascending, EncodeFirst, Bucket;
    EncodedAt(sorted, |sorted|, i, cfg);
    BucketIsInterval(sorted[i].totalBytes as real, cfg.byteBuckets, size);
    BucketIsInterval(sorted[i].duration, cfg.durationBuckets, duration);
    if i > 0 {
      BucketIsInterval(sorted[i].startTime - sorted[i - 1].startTime, cfg.gapBuckets, gap);
    }
  }

  /** The fifteen letters of the default configuration. */
  lemma DefaultLetters(f: Flow)
    ensures var size := if f.totalBytes < 128 then 0 else if f.totalBytes < 1024 then 1
                        else if f.totalBytes < 8192 then 2 else if f.totalBytes < 65536 then 3 else 4;
            var duration := if f.duration < 1.0 then 0 else if f.duration < 10.0 then 1 else 2;
            Letter(f, DEFAULTS) == "abcdefghijklmno"[3 * size + duration]
  {
    DefaultsDecode();
    var size := if f.totalBytes < 128 then 0 else if f.totalBytes < 1024 then 1
                else if f.totalBytes < 8192 then 2 else if f.totalBytes < 65536 then 3 else 4;
    var duration := if f.duration < 1.0 then 0 else if f.duration < 10.0 then 1 else 2;
    hide Bucket, Ascending;
    BucketIsInterval(f.totalBytes as real, DEFAULTS.byteBuckets, size);
    BucketIsInterval(f.duration, DEFAULTS.durationBuckets, duration);
    assert "abcdefghijklmno"[3 * size + duration] as int == 'a' as int + 3 * size + duration;
  }

  /** And its symbols. */
  lemma DefaultSymbols(gap: real)
    ensures GapSymbol(gap, DEFAULTS)
            == if gap < 2.0 then '-' else if gap < 60.0 then '+' else if gap < 3600.0 then '*' else '#'
  {
    DefaultsDecode();
    var b := if gap < 2.0 then 0 else if gap < 60.0 then 1 else if gap < 3600.0 then 2 else 3;
    hide Bucket, Ascending;
    BucketIsInterval(if gap < 0.0 then 0.0 else gap, DEFAULTS.gapBuckets, b);
  }

  // ---------------------------------------------------------------- ties

  function Starts(flows: seq<Flow>): seq<real> {
    if flows == [] then [] else [flows[0].startTime] + Starts(flows[1..])
  }

  lemma {:induction false} StartsAt(flows: seq<Flow>)
    ensures |Starts(flows)| == |flows|
    ensures forall i | 0 <= i < |flows| :: Starts(flows)[i] == flows[i].startTime
  {
    if flows != [] {
      StartsAt(flows[1..]);
    }
  }

  lemma {:induction false} StartsConcat(a: seq<Flow>, b: seq<Flow>)
    ensures Starts(a + b) == Starts(a) + Starts(b)
  {
    if a == [] {
      assert a + b == b;
    } else {
      assert (a + b)[1..] == a[1..] + b;
      StartsConcat(a[1..], b);
    }
  }

  lemma LeastFirst(s: seq<real>, t: seq<real>)
    requires Increasing(s) && multiset(s) == multiset(t) && t != []
    ensures s != [] && s[0] <= t[0]
  {
    assert t[0] in multiset(s);
    var i :| 0 <= i < |s| && s[i] == t[0];
    if i > 0 {
      assert s[0] <= s[i];
    }
  }

  lemma {:induction false} SameFlowsSameStarts(p: seq<Flow>, q: seq<Flow>)
    requires multiset(p) == multiset(q)
    ensures multiset(Starts(p)) == multiset(Starts(q))
    decreases |p|
  {
    assert |multiset(p)| == |p| && |multiset(q)| == |q|;
    if p != [] {
      assert p[0] in multiset(q);
      var i :| 0 <= i < |q| && q[i] == p[0];
      var rest := q[..i] + q[i + 1..];
      SplitFirst(p);
      SplitAt(q, i);
      Cancel(p[0], multiset(p[1..]), multiset(rest));
      SameFlowsSameStarts(p[1..], rest);
      SplitFirst(Starts(p));
      assert Starts(p)[1..] == Starts(p[1..]);
      StartsSplit(q, i);
    }
  }

  lemma StartsSplit(q: seq<Flow>, i: nat)
    requires i < |q|
    ensures multiset(Starts(q)) == multiset(Starts(q[..i] + q[i + 1..])) + multiset{q[i].startTime}
  {
    SplitAt(q, i);
    StartsConcat(q[..i] + [q[i]], q[i + 1..]);
    StartsConcat(q[..i], [q[i]]);
    StartsConcat(q[..i], q[i + 1..]);
    assert Starts([q[i]]) == [q[i].startTime];
  }

  predicate Increasing(s: seq<real>) {
    forall i, j | 0 <= i < j < |s| :: s[i] <= s[j]
  }

  lemma {:induction false} SortedIsUnique(s: seq<real>, t: seq<real>)
    requires Increasing(s) && Increasing(t) && multiset(s) == multiset(t)
    ensures s == t
  {
    assert |multiset(s)| == |s| && |multiset(t)| == |t|;
    if s != [] {
      LeastFirst(s, t);
      LeastFirst(t, s);
      SplitFirst(s);
      SplitFirst(t);
      Cancel(s[0], multiset(s[1..]), multiset(t[1..]));
      SortedIsUnique(s[1..], t[1..]);
      assert s == [s[0]] + s[1..] && t == [t[0]] + t[1..];
    }
  }

  /** Two sorts of the same flows start at the same times, place by place. */
  lemma SortsShareStarts(p: seq<Flow>, q: seq<Flow>)
    requires Sorted(p) && Sorted(q) && multiset(p) == multiset(q)
    ensures |p| == |q|
    ensures forall i | 0 <= i < |p| :: p[i].startTime == q[i].startTime
  {
    StartsAt(p);
    StartsAt(q);
    SameFlowsSameStarts(p, q);
    SortedIsUnique(Starts(p), Starts(q));
  }

  /** Flows that start together look alike. */
  predicate TiesShareLetter(flows: seq<Flow>, cfg: Config) {
    forall i, j | 0 <= i < j < |flows| && flows[i].startTime == flows[j].startTime ::
      Letter(flows[i], cfg) == Letter(flows[j], cfg)
  }

  lemma {:induction false} SameCharacters(p: seq<Flow>, q: seq<Flow>, n: nat, cfg: Config)
    requires |p| == |q| && n <= |p|
    requires forall i | 0 <= i < |p| :: p[i].startTime == q[i].startTime && Letter(p[i], cfg) == Letter(q[i], cfg)
    ensures EncodeFirst(p, n, cfg) == EncodeFirst(q, n, cfg)
  {
    hide Letter;
    if n > 0 {
      SameCharacters(p, q, n - 1, cfg);
    }
  }

  lemma TiedLettersAgree(p: seq<Flow>, q: seq<Flow>, i: nat, cfg: Config)
    requires Sorted(p) && Sorted(q) && multiset(p) == multiset(q) && TiesShareLetter(p, cfg) && i < |p| == |q|
    ensures Letter(p[i], cfg) == Letter(q[i], cfg)
  {
    hide Letter;
    SortsShareStarts(p, q);
    assert q[i] in multiset(p);
    var j :| 0 <= j < |p| && p[j] == q[i];
    assert p[j].startTime == p[i].startTime;
  }

  function Swapped(p: seq<Flow>, i: nat, j: nat): seq<Flow>
    requires i < j < |p|
  {
    p[i := p[j]][j := p[i]]
  }

  lemma SwapKeepsFlows(p: seq<Flow>, i: nat, j: nat)
    requires i < j < |p|
    ensures multiset(Swapped(p, i, j)) == multiset(p)
  {
  }

  lemma SwappedTiesAreSorted(p: seq<Flow>, i: nat, j: nat)
    requires i < j < |p| && Sorted(p) && p[i].startTime == p[j].startTime
    ensures Sorted(Swapped(p, i, j))
  {
    var q := Swapped(p, i, j);
    assert forall k | 0 <= k < |p| :: q[k].startTime == p[k].startTime;
  }

  lemma SwappedTiesDiffer(p: seq<Flow>, i: nat, j: nat, cfg: Config)
    requires i < j < |p| && Letter(p[i], cfg) != Letter(p[j], cfg)
    ensures Encode(Swapped(p, i, j), cfg) != Encode(p, cfg)
  {
    hide Letter, EncodeFirst;
    EncodedAt(p, |p|, i, cfg);
    EncodedAt(Swapped(p, i, j), |p|, i, cfg);
  }

  /** However a sort breaks ties, and so in whatever order the flows were given, the state string is
      the same exactly when flows that start together share their letter; with distinct start times
      it always is. */
  lemma OrderIrrelevantExactly(p: seq<Flow>, cfg: Config)
    requires Sorted(p)
    ensures (forall q | IsSortOf(q, p) :: Encode(q, cfg) == Encode(p, cfg)) <==> TiesShareLetter(p, cfg)
  {
    hide Letter, Encode, TiesShareLetter;
    if TiesShareLetter(p, cfg) {
      forall q | IsSortOf(q, p)
        ensures Encode(q, cfg) == Encode(p, cfg)
      {
        SortsEncodeAlike(p, q, cfg);
      }
    } else {
      var i, j := DifferingTie(p, cfg);
      SwapKeepsFlows(p, i, j);
      SwappedTiesAreSorted(p, i, j);
      SwappedTiesDiffer(p, i, j, cfg);
      assert IsSortOf(Swapped(p, i, j), p);
    }
  }

  lemma SortsEncodeAlike(p: seq<Flow>, q: seq<Flow>, cfg: Config)
    requires Sorted(p) && IsSortOf(q, p) && TiesShareLetter(p, cfg)
    ensures Encode(q, cfg) == Encode(p, cfg)
  {
    hide Letter, EncodeFirst, TiesShareLetter;
    SortsShareStarts(p, q);
    forall i | 0 <= i < |p|
      ensures Letter(p[i], cfg) == Letter(q[i], cfg)
    {
      TiedLettersAgree(p, q, i, cfg);
    }
    SameCharacters(p, q, |p|, cfg);
  }

  lemma DifferingTie(p: seq<Flow>, cfg: Config) returns (i: nat, j: nat)
    requires !TiesShareLetter(p, cfg)
    ensures i < j < |p| && p[i].startTime == p[j].startTime && Letter(p[i], cfg) != Letter(p[j], cfg)
  {
    i, j :| i < j < |p| && p[i].startTime == p[j].startTime && Letter(p[i], cfg) != Letter(p[j], cfg);
  }

  // ---------------------------------------------------------------- characters fit for a model file

  predicate IsSpace(c: char) {
    c == ' ' || '\t' <= c <= '\r'
  }

  /** A character the model file can carry: not a space, and not the separator of counts. */
  predicate Printable(c: char) {
    !IsSpace(c) && c != ':'
  }

  /** Letters are fit for the file exactly when there are at most 168: the next one wraps to a tab. */
  lemma LettersPrintableExactly(cfg: Config)
    ensures (forall k: nat | k < LetterCount(cfg) :: Printable(LetterOf(k))) <==> LetterCount(cfg) <= 168
  {
    if LetterCount(cfg) > 168 {
      assert !Printable(LetterOf(168));
    }
  }

  lemma {:induction false} EncodedIsPrintable(sorted: seq<Flow>, n: nat, cfg: Config)
    requires n <= |sorted| && LetterCount(cfg) <= 168
    ensures forall i | 0 <= i < 2 * n :: Printable(EncodeFirst(sorted, n, cfg)[i])
  {
    hide GapSymbol, LetterOf, Printable, LetterIndex;
    if n > 0 {
      EncodedIsPrintable(sorted, n - 1, cfg);
      LettersPrintableExactly(cfg);
      assert Printable(Letter(sorted[n - 1], cfg));
      SymbolPrintable(sorted, n - 1, cfg);
    }
  }

  lemma SymbolPrintable(sorted: seq<Flow>, i: nat, cfg: Config)
    requires i < |sorted|
    ensures Printable(SymbolAt(sorted, i, cfg))
  {
    hide Bucket;
    assert forall k | 0 <= k < |SYMBOLS| :: Printable(SYMBOLS[k]);
  }
}