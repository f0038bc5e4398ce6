/**
 * `searchText`: the two-tier matcher over the index. Queries of two or three
 * normalised characters are a plain substring scan capped at 25 records;
 * longer queries are split into terms, filtered by term coverage, scored,
 * stably sorted by descending score and capped at 60 records.
 */
module Search {
  import opened Js
  import opened ArabicText
  import opened Corpus

  const SHORT_LIMIT: nat := 25
  const LONG_LIMIT: nat := 60
  const EXACT_BONUS: real := 2.5
  const COMPACT_BONUS: real := 1.5
  const ANCHOR_BONUS: real := 0.3

  /** A long-tier result: the record with its `score` attached. */
  datatype Scored = Scored(record: Record, score: real)

  /** What `searchText` returns: index records as they are (short tier) or
      with their score (long tier). */
  datatype Hit = Plain(record: Record) | Ranked(record: Record, score: real)

  /** `s.slice(0, n)`. */
  function Take<T>(s: seq<T>, n: nat): (r: seq<T>)
    ensures |r| == if |s| <= n then |s| else n
    ensures r <= s
  {
    if |s| <= n then s else s[..n]
  }

  // ---------------------------------------------------------------------
  // Short tier
  // ---------------------------------------------------------------------

  /** The records whose normalised text contains `nq`, in index order. */
  function ShortMatches(index: seq<Record>, nq: string): seq<Record> {
    if |index| == 0 then []
    else
      var m := ShortMatches(index[..|index| - 1], nq);
      if Includes(index[|index| - 1].textNorm, nq) then m + [index[|index| - 1]] else m
  }

  /** A record is a short-tier match exactly when it is in the index and its
      normalised text contains the query. */
  lemma {:induction false} ShortMatchesMembers(index: seq<Record>, nq: string)
    ensures forall x :: x in ShortMatches(index, nq) <==> x in index && Includes(x.textNorm, nq)
  {
    if |index| > 0 {
      var init := index[..|index| - 1];
      ShortMatchesMembers(init, nq);
      assert index == init + [index[|index| - 1]];
    }
  }

  /** Scanning a prefix of the index finds a prefix of the matches. */
  lemma {:induction false} ShortMatchesPrefix(index: seq<Record>, nq: string, i: nat)
    requires i <= |index|
    ensures ShortMatches(index[..i], nq) <= ShortMatches(index, nq)
    decreases |index| - i
  {
    if i < |index| {
      var init := index[..|index| - 1];
      assert init[..i] == index[..i];
      ShortMatchesPrefix(init, nq, i);
    } else {
      assert index[..i] == index;
    }
  }

  /** The short tier: the loop of `searchText` for queries of two or three
      characters. */
  method ShortTier(index: seq<Record>, nq: string) returns (out: seq<Record>)
    ensures out == Take(ShortMatches(index, nq), SHORT_LIMIT)
  {
    out := [];
    var i := 0;
    while i < |index|
      invariant 0 <= i <= |index|
      invariant out == ShortMatches(index[..i], nq)
      invariant |out| < SHORT_LIMIT
    {
      assert index[..i + 1][..i] == index[..i];
      if Includes(index[i].textNorm, nq) {
        out := out + [index[i]];
      }
      if |out| >= SHORT_LIMIT {
        ShortMatchesPrefix(index, nq, i + 1);
        return;
      }
      i := i + 1;
    }
    assert index[..i] == index;
  }

  // ---------------------------------------------------------------------
  // Long tier: terms and anchor
  // ---------------------------------------------------------------------

  /** `.map(t => t.trim())`. */
  function TrimAll(ps: seq<string>): (r: seq<string>)
    ensures |r| == |ps| && forall i :: 0 <= i < |ps| ==> r[i] == Trim(ps[i])
  {
    seq(|ps|, i requires 0 <= i < |ps| => Trim(ps[i]))
  }

  /** `.filter(t => t.length > 1)`. */
  function KeepLong(ps: seq<string>): seq<string> {
    if |ps| == 0 then []
    else
      var k := KeepLong(ps[..|ps| - 1]);
      if |ps[|ps| - 1]| > 1 then k + [ps[|ps| - 1]] else k
  }

  /** `[...new Set(ps)]`: the distinct elements in order of first occurrence. */
  function Dedup(ps: seq<string>): seq<string> {
    if |ps| == 0 then []
    else
      var d := Dedup(ps[..|ps| - 1]);
      if ps[|ps| - 1] in d then d else d + [ps[|ps| - 1]]
  }

  /** Position of the first occurrence of `x` in `ps`, or `|ps|` when there
      is none. */
  function FirstIndex(ps: seq<string>, x: string): (r: nat)
    ensures r <= |ps| && x !in ps[..r]
    ensures r < |ps| ==> ps[r] == x
  {
    if |ps| == 0 then 0
    else
      var n := |ps| - 1;
      if x in ps[..n] then
        var r := FirstIndex(ps[..n], x);
        assert ps[..n][..r] == ps[..r];
        r
      else if ps[n] == x then n
      else
        assert ps[..|ps|] == ps;
        |ps|
  }

  /** The space-separated pieces of the normalised query, trimmed. */
  function Pieces(nq: string): seq<string> {
    TrimAll(Split(nq, ' '))
  }

  /** The query terms: the pieces longer than one character, without
      repeats. */
  function Terms(nq: string): seq<string> {
    Dedup(KeepLong(Pieces(nq)))
  }

  lemma {:induction false} KeepLongMembers(ps: seq<string>)
    ensures forall x :: x in KeepLong(ps) <==> x in ps && |x| > 1
  {
    if |ps| > 0 {
      KeepLongMembers(ps[..|ps| - 1]);
      assert ps == ps[..|ps| - 1] + [ps[|ps| - 1]];
    }
  }

  /** An element of a prefix has its first occurrence inside that prefix. */
  lemma FirstIndexOfPrefix(ps: seq<string>, n: nat, x: string)
    requires n <= |ps| && x in ps[..n]
    ensures FirstIndex(ps, x) == FirstIndex(ps[..n], x)
  {
    var b := FirstIndex(ps[..n], x);
    assert ps[..n][..b] == ps[..b];
  }

  /** `Dedup` keeps every element once, in order of first occurrence. */
  lemma {:induction false} DedupSpec(ps: seq<string>)
    ensures forall x :: x in Dedup(ps) <==> x in ps
    ensures forall i, j :: 0 <= i < j < |Dedup(ps)| ==> Dedup(ps)[i] != Dedup(ps)[j]
    ensures forall i, j :: 0 <= i < j < |Dedup(ps)| ==>
              FirstIndex(ps, Dedup(ps)[i]) < FirstIndex(ps, Dedup(ps)[j])
  {
    if |ps| > 0 {
      var n := |ps| - 1;
      var init := ps[..n];
      var d := Dedup(init);
      DedupSpec(init);
      assert ps == init + [ps[n]];
      forall y | y in init ensures FirstIndex(ps, y) == FirstIndex(init, y) {
        FirstIndexOfPrefix(ps, n, y);
      }
      if ps[n] !in d {
        assert FirstIndex(ps, ps[n]) == n;
      }
    }
  }

  /** The distinct long pieces, in order of first occurrence. */
  lemma LongDistinct(ps: seq<string>)
    ensures forall t :: t in Dedup(KeepLong(ps)) <==> t in ps && |t| > 1
    ensures forall i, j :: 0 <= i < j < |Dedup(KeepLong(ps))| ==> Dedup(KeepLong(ps))[i] != Dedup(KeepLong(ps))[j]
    ensures forall i, j :: 0 <= i < j < |Dedup(KeepLong(ps))| ==>
              FirstIndex(KeepLong(ps), Dedup(KeepLong(ps))[i]) < FirstIndex(KeepLong(ps), Dedup(KeepLong(ps))[j])
  {
    KeepLongMembers(ps);
    DedupSpec(KeepLong(ps));
  }

  /** The terms are distinct, each longer than one character, each a trimmed
      piece of the query, every such piece is a term, and they come in order
      of first occurrence among the long pieces. */
  lemma TermsSpec(nq: string)
    ensures forall t :: t in Terms(nq) <==> t in Pieces(nq) && |t| > 1
    ensures forall i, j :: 0 <= i < j < |Terms(nq)| ==> Terms(nq)[i] != Terms(nq)[j]
    ensures forall i, j :: 0 <= i < j < |Terms(nq)| ==>
              FirstIndex(KeepLong(Pieces(nq)), Terms(nq)[i]) < FirstIndex(KeepLong(Pieces(nq)), Terms(nq)[j])
  {
    LongDistinct(Pieces(nq));
  }

  /** `terms.reduce((a, b) => b.length > a.length ? b : a, init)`. */
  function Longest(ts: seq<string>, init: string): string {
    if |ts| == 0 then init
    else
      var a := Longest(ts[..|ts| - 1], init);
      if |ts[|ts| - 1]| > |a| then ts[|ts| - 1] else a
  }

  /** The anchor term: the reduction seeded with the first term. */
  function Anchor(terms: seq<string>): string
    requires |terms| > 0
  {
    Longest(terms, terms[0])
  }

  /** `Longest` seeded with the first element keeps the first element of
      maximal length: replacement happens only on a strictly longer term. */
  lemma {:induction false} LongestIsFirstLongest(ts: seq<string>, n: nat) returns (k: nat)
    requires 0 < n <= |ts|
    ensures k < n && Longest(ts[..n], ts[0]) == ts[k]
    ensures forall j :: 0 <= j < n ==> |ts[j]| <= |ts[k]|
    ensures forall j :: 0 <= j < k ==> |ts[j]| < |ts[k]|
  {
    var p := ts[..n];
    assert p[..n - 1] == ts[..n - 1];
    if n == 1 {
      assert Longest(p[..0], ts[0]) == ts[0];
      k := 0;
    } else {
      var k' := LongestIsFirstLongest(ts, n - 1);
      if |ts[n - 1]| > |ts[k']| {
        k := n - 1;
      } else {
        k := k';
      }
    }
  }

  /** The anchor is a term of maximal length, and the first such term. */
  lemma AnchorIsFirstLongest(terms: seq<string>) returns (k: nat)
    requires |terms| > 0
    ensures k < |terms| && Anchor(terms) == terms[k]
    ensures forall j :: 0 <= j < |terms| ==> |terms[j]| <= |Anchor(terms)|
    ensures forall j :: 0 <= j < k ==> |terms[j]| < |Anchor(terms)|
  {
    k := LongestIsFirstLongest(terms, |terms|);
    assert terms[..|terms|] == terms;
  }

  // ---------------------------------------------------------------------
  // Long tier: hits, filter, score
  // ---------------------------------------------------------------------

  /** Number of terms that occur in `text`. */
  function Hits(text: string, terms: seq<string>): (h: nat)
    ensures h <= |terms|
  {
    if |terms| == 0 then 0
    else Hits(text, terms[..|terms| - 1]) + (if Includes(text, terms[|terms| - 1]) then 1 else 0)
  }

  /** The inner loop of `searchText` that counts `hits`. */
  method CountHits(text: string, terms: seq<string>) returns (hits: nat)
    ensures hits == Hits(text, terms)
  {
    hits := 0;
    var i := 0;
    while i < |terms|
      invariant 0 <= i <= |terms|
      invariant hits == Hits(text, terms[..i])
    {
      assert terms[..i + 1][..i] == terms[..i];
      if Includes(text, terms[i]) {
        hits := hits + 1;
      }
      i := i + 1;
    }
    assert terms[..i] == terms;
  }

  function Ratio(hits: nat, termCount: nat): real
    requires termCount > 0
  {
    hits as real / termCount as real
  }

  /** `s.replace(/\s+/g, "")`. */
  function NoSpace(s: string): string {
    RemoveWhere(s, IsSpace)
  }

  /** The filter of the long tier: with three or more terms, at least two
      hits and the anchor present; otherwise a hit ratio of at least one half. */
  predicate Admitted(text: string, terms: seq<string>, anchor: string)
    requires |terms| > 0
  {
    var hits := Hits(text, terms);
    if |terms| >= 3 then hits >= 2 && Includes(text, anchor)
    else !(Ratio(hits, |terms|) < 0.5)
  }

  /** The score of an admitted record. */
  function Score(text: string, nq: string, terms: seq<string>, anchor: string): real
    requires |terms| > 0
  {
    Ratio(Hits(text, terms), |terms|)
    + (if Includes(text, nq) then EXACT_BONUS else 0.0)
    + (if Includes(NoSpace(text), NoSpace(nq)) then COMPACT_BONUS else 0.0)
    + (if Includes(text, anchor) then ANCHOR_BONUS else 0.0)
  }

  /** The records that pass the filter, with their scores, in index order. */
  function Survivors(index: seq<Record>, nq: string, terms: seq<string>, anchor: string): seq<Scored>
    requires |terms| > 0
  {
    if |index| == 0 then []
    else
      var s := Survivors(index[..|index| - 1], nq, terms, anchor);
      var it := index[|index| - 1];
      if Admitted(it.textNorm, terms, anchor) then s + [Scored(it, Score(it.textNorm, nq, terms, anchor))]
      else s
  }

  /** Every survivor is an admitted record of the index carrying its score,
      and every admitted record of the index survives. */
  lemma {:induction false} SurvivorsSpec(index: seq<Record>, nq: string, terms: seq<string>, anchor: string)
    requires |terms| > 0
    ensures forall e :: e in Survivors(index, nq, terms, anchor) ==>
              e.record in index && Admitted(e.record.textNorm, terms, anchor)
              && e.score == Score(e.record.textNorm, nq, terms, anchor)
    ensures forall x :: x in index && Admitted(x.textNorm, terms, anchor) ==>
              Scored(x, Score(x.textNorm, nq, terms, anchor)) in Survivors(index, nq, terms, anchor)
  {
    if |index| > 0 {
      SurvivorsSpec(index[..|index| - 1], nq, terms, anchor);
      assert index == index[..|index| - 1] + [index[|index| - 1]];
    }
  }

  lemma DivMul(h: real, t: real)
    requires t > 0.0
    ensures (h / t) * t == h
  {
  }

  lemma MulLess(a: real, b: real, c: real)
    requires a < b && c > 0.0
    ensures a * c < b * c
  {
  }

  lemma MulAtLeast(a: real, b: real, c: real)
    requires a >= b && c > 0.0
    ensures a * c >= b * c
  {
  }

  /** With one or two terms the ratio test is "at least half the terms hit". */
  lemma RatioTest(hits: nat, termCount: nat)
    requires termCount > 0
    ensures !(Ratio(hits, termCount) < 0.5) <==> 2 * hits >= termCount
  {
    var h, t := hits as real, termCount as real;
    var r := h / t;
    DivMul(h, t);
    if r < 0.5 {
      MulLess(r, 0.5, t);
    } else {
      MulAtLeast(r, 0.5, t);
    }
  }

  // ---------------------------------------------------------------------
  // Long tier: stable descending sort
  // ---------------------------------------------------------------------

  predicate SortedDesc(s: seq<Scored>) {
    forall i, j :: 0 <= i < j < |s| ==> s[i].score >= s[j].score
  }

  /** Inserts `x` after every element whose score is at least its own. */
  function InsertDesc(sorted: seq<Scored>, x: Scored): seq<Scored> {
    if |sorted| == 0 then [x]
    else if sorted[0].score >= x.score then [sorted[0]] + InsertDesc(sorted[1..], x)
    else [x] + sorted
  }

  /** `scored.sort((a, b) => b.score - a.score)`: JavaScript's sort is
      stable, so this is an insertion sort that places each later element
      after the earlier ones of equal score. */
  function SortDesc(s: seq<Scored>): seq<Scored> {
    if |s| == 0 then []
    else InsertDesc(SortDesc(s[..|s| - 1]), s[|s| - 1])
  }

  /** The elements with score `v`, in order. */
  function WithScore(s: seq<Scored>, v: real): seq<Scored> {
    if |s| == 0 then []
    else WithScore(s[..|s| - 1], v) + (if s[|s| - 1].score == v then [s[|s| - 1]] else [])
  }

  lemma {:induction false} WithScoreAppend(a: seq<Scored>, b: seq<Scored>, v: real)
    ensures WithScore(a + b, v) == WithScore(a, v) + WithScore(b, v)
    decreases |b|
  {
    if |b| == 0 {
      assert a + b == a;
    } else {
      var b' := b[..|b| - 1];
      assert (a + b)[..|a + b| - 1] == a + b';
      WithScoreAppend(a, b', v);
    }
  }

  lemma WithScoreSingle(x: Scored, v: real)
    ensures WithScore([x], v) == if x.score == v then [x] else []
  {
    assert [x][..0] == [];
  }

  /** Insertion adds exactly `x`. */
  lemma {:induction false} InsertDescPerm(sorted: seq<Scored>, x: Scored)
    ensures multiset(InsertDesc(sorted, x)) == multiset(sorted) + multiset{x}
  {
    if |sorted| > 0 && sorted[0].score >= x.score {
      InsertDescPerm(sorted[1..], x);
      assert sorted == [sorted[0]] + sorted[1..];
    }
  }

  /** Insertion keeps the order descending. */
  lemma {:induction false} InsertDescSorted(sorted: seq<Scored>, x: Scored)
    requires SortedDesc(sorted)
    ensures SortedDesc(InsertDesc(sorted, x))
  {
    if |sorted| > 0 && sorted[0].score >= x.score {
      var rest := sorted[1..];
      InsertDescSorted(rest, x);
      InsertDescPerm(rest, x);
      var ir := InsertDesc(rest, x);
      var r := [sorted[0]] + ir;
      assert r == InsertDesc(sorted, x);
      forall j | 0 < j < |r| ensures sorted[0].score >= r[j].score {
        assert r[j] == ir[j - 1];
        assert ir[j - 1] in multiset(ir);
        assert r[j] == x || r[j] in multiset(rest);
      }
    }
  }

  /** Insertion places `x` after every element of its score. */
  lemma {:induction false} InsertDescStable(sorted: seq<Scored>, x: Scored, v: real)
    requires SortedDesc(sorted)
    ensures WithScore(InsertDesc(sorted, x), v) == WithScore(sorted, v) + WithScore([x], v)
  {
    if |sorted| == 0 {
      WithScoreSingle(x, v);
    } else if sorted[0].score >= x.score {
      assert SortedDesc(sorted[1..]);
      InsertDescStable(sorted[1..], x, v);
      InsertDescStableHead(sorted, x, v);
    } else {
      InsertDescStableFront(sorted, x, v);
    }
  }

  /** The step of `InsertDescStable` when `x` goes past the head. */
  lemma InsertDescStableHead(sorted: seq<Scored>, x: Scored, v: real)
    requires |sorted| > 0 && sorted[0].score >= x.score
    requires WithScore(InsertDesc(sorted[1..], x), v) == WithScore(sorted[1..], v) + WithScore([x], v)
    ensures WithScore(InsertDesc(sorted, x), v) == WithScore(sorted, v) + WithScore([x], v)
  {
    var rest := sorted[1..];
    var ir := InsertDesc(rest, x);
    assert InsertDesc(sorted, x) == [sorted[0]] + ir;
    assert sorted == [sorted[0]] + rest;
    WithScoreAppend([sorted[0]], ir, v);
    WithScoreAppend([sorted[0]], rest, v);
  }

  /** The step of `InsertDescStable` when `x` goes in front. */
  lemma InsertDescStableFront(sorted: seq<Scored>, x: Scored, v: real)
    requires SortedDesc(sorted) && |sorted| > 0 && sorted[0].score < x.score
    ensures WithScore(InsertDesc(sorted, x), v) == WithScore(sorted, v) + WithScore([x], v)
  {
    WithScoreSingle(x, v);
    assert InsertDesc(sorted, x) == [x] + sorted;
    WithScoreAppend([x], sorted, v);
    if x.score == v {
      WithScoreNone(sorted, v);
    }
  }

  /** In a descending sequence whose head is below `v`, nothing has score `v`. */
  lemma {:induction false} WithScoreNone(s: seq<Scored>, v: real)
    requires SortedDesc(s)
    requires |s| > 0 ==> s[0].score < v
    ensures WithScore(s, v) == []
  {
    if |s| > 0 {
      WithScoreNone(s[..|s| - 1], v);
    }
  }

  /** The sort is a sorted permutation of its input, and stable: the
      elements of each score keep their relative order. */
  lemma {:induction false} SortDescSpec(s: seq<Scored>, v: real)
    ensures SortedDesc(SortDesc(s))
    ensures multiset(SortDesc(s)) == multiset(s)
    ensures WithScore(SortDesc(s), v) == WithScore(s, v)
  {
    if |s| > 0 {
      var init := s[..|s| - 1];
      SortDescSpec(init, v);
      InsertDescSorted(SortDesc(init), s[|s| - 1]);
      InsertDescPerm(SortDesc(init), s[|s| - 1]);
      InsertDescStable(SortDesc(init), s[|s| - 1], v);
      assert s == init + [s[|s| - 1]];
      WithScoreAppend(init, [s[|s| - 1]], v);
    }
  }

  // ---------------------------------------------------------------------
  // The long tier and the whole search
  // ---------------------------------------------------------------------

  /** The result of the long tier for the normalised query `nq`. */
  function LongResults(index: seq<Record>, nq: string): seq<Scored> {
    var terms := Terms(nq);
    if |terms| == 0 then []
    else Take(SortDesc(Survivors(index, nq, terms, Anchor(terms))), LONG_LIMIT)
  }

  /** The body of the scoring loop for one record: whether it passes the
      filter and, if so, its score. */
  method ScoreRecord(text: string, nq: string, terms: seq<string>, anchor: string)
    returns (keep: bool, score: real)
    requires |terms| > 0
    ensures keep == Admitted(text, terms, anchor)
    ensures keep ==> score == Score(text, nq, terms, anchor)
  {
    var hits := CountHits(text, terms);
    var ratio := hits as real / |terms| as real;
    if |terms| >= 3 {
      if hits < 2 {
        return false, 0.0;
      }
      if !Includes(text, anchor) {
        return false, 0.0;
      }
    } else if ratio < 0.5 {
      return false, 0.0;
    }
    keep := true;
    score := ratio;
    if Includes(text, nq) {
      score := score + EXACT_BONUS;
    }
    var noSpaceQ := NoSpace(nq);
    var noSpaceT := NoSpace(text);
    if Includes(noSpaceT, noSpaceQ) {
      score := score + COMPACT_BONUS;
    }
    if Includes(text, anchor) {
      score := score + ANCHOR_BONUS;
    }
  }

  /** The scoring loop of `searchText`: every record of the index that
      passes the filter, with its score, in index order. */
  method ScoreAll(index: seq<Record>, nq: string, terms: seq<string>, anchor: string)
    returns (scored: seq<Scored>)
    requires |terms| > 0
    ensures scored == Survivors(index, nq, terms, anchor)
  {
    scored := [];
    var i := 0;
    while i < |index|
      invariant 0 <= i <= |index|
      invariant scored == Survivors(index[..i], nq, terms, anchor)
    {
      assert index[..i + 1][..i] == index[..i];
      var keep, score := ScoreRecord(index[i].textNorm, nq, terms, anchor);
      if keep {
        scored := scored + [Scored(index[i], score)];
      }
      i := i + 1;
    }
    assert index[..i] == index;
  }

  /** The long tier of `searchText` for queries of four or more characters:
      terms, anchor, scoring, stable sort, the first 60. */
  method LongTier(index: seq<Record>, nq: string) returns (out: seq<Scored>)
    ensures out == LongResults(index, nq)
  {
    var terms := Terms(nq);
    if |terms| == 0 {
      return [];
    }
    var anchor := Anchor(terms);
    var scored := ScoreAll(index, nq, terms, anchor);
    out := Take(SortDesc(scored), LONG_LIMIT);
  }

  function Plains(rs: seq<Record>): (r: seq<Hit>)
    ensures |r| == |rs|
    ensures forall i :: 0 <= i < |r| ==> r[i].Plain? && r[i].record == rs[i]
  {
    seq(|rs|, i requires 0 <= i < |rs| => Plain(rs[i]))
  }

  function Rankeds(ss: seq<Scored>): (r: seq<Hit>)
    ensures |r| == |ss|
    ensures forall i :: 0 <= i < |r| ==> r[i].Ranked? && r[i].record == ss[i].record && r[i].score == ss[i].score
  {
    seq(|ss|, i requires 0 <= i < |ss| => Ranked(ss[i].record, ss[i].score))
  }

  /** `searchText` once the corpus is loaded: nothing for a normalised query
      shorter than two characters, the short tier up to three, the long tier
      from four on. */
  method SearchIndex(index: seq<Record>, q: string) returns (out: seq<Hit>)
    ensures var nq := NormArabic(q);
      && (|nq| < 2 ==> out == [])
      && (2 <= |nq| <= 3 ==> out == Plains(Take(ShortMatches(index, nq), SHORT_LIMIT)))
      && (|nq| >= 4 ==> out == Rankeds(LongResults(index, nq)))
  {
    var nq := NormArabic(q);
    if |nq| < 2 {
      return [];
    }
    if |nq| <= 3 {
      var rs := ShortTier(index, nq);
      return Plains(rs);
    }
    var ss := LongTier(index, nq);
    return Rankeds(ss);
  }

  // ---------------------------------------------------------------------
  // What the two tiers promise
  // ---------------------------------------------------------------------

  /** The short tier returns the first min(25, #matches) matching records
      in index order, each of them containing the query. */
  lemma ShortTierSpec(index: seq<Record>, nq: string)
    ensures var ms, out := ShortMatches(index, nq), Take(ShortMatches(index, nq), SHORT_LIMIT);
      && |out| == (if |ms| <= SHORT_LIMIT then |ms| else SHORT_LIMIT)
      && out <= ms
      && (forall x :: x in out ==> x in index && Includes(x.textNorm, nq))
      && (forall x :: x in index && Includes(x.textNorm, nq) && |ms| <= SHORT_LIMIT ==> x in out)
  {
    ShortMatchesMembers(index, nq);
    var ms := ShortMatches(index, nq);
    var out := Take(ms, SHORT_LIMIT);
    forall x | x in out ensures x in ms {
      var k :| 0 <= k < |out| && out[k] == x;
      assert ms[k] == x;
    }
  }

  /** Queries and verses are normalised by the same function, so a record
      whose raw text contains `t` is among the matches of the normalised
      query `t`. */
  lemma RawInfixMatches(index: seq<Record>, x: Record, u: string, t: string, w: string)
    requires x in index && x.textNorm == NormArabic(x.textRaw) && x.textRaw == u + t + w
    ensures x in ShortMatches(index, NormArabic(t))
  {
    NormArabicInfix(u, t, w);
    ShortMatchesMembers(index, NormArabic(t));
  }

  /** Sorting keeps the number of results. */
  lemma SortDescLength(s: seq<Scored>)
    ensures |SortDesc(s)| == |s|
  {
    SortDescSpec(s, 0.0);
    assert |multiset(SortDesc(s))| == |multiset(s)|;
  }

  /** Taking a prefix keeps, for each score, a prefix of the elements with
      that score. */
  lemma {:induction false} WithScoreTake(s: seq<Scored>, n: nat, v: real)
    ensures WithScore(Take(s, n), v) <= WithScore(s, v)
  {
    if n < |s| {
      WithScoreAppend(s[..n], s[n..], v);
      assert s == s[..n] + s[n..];
    }
  }

  /** The long tier returns at most 60 results with non-increasing scores;
      every result is an admitted record of the index with its score (with
      three or more terms: at least two hits and the anchor present; with
      fewer: at least half the terms hit); and the results of each score
      are the first survivors of that score, in index order. */
  lemma LongTierSpec(index: seq<Record>, nq: string, v: real)
    ensures var out := LongResults(index, nq);
      && |out| <= LONG_LIMIT
      && SortedDesc(out)
      && (|Terms(nq)| == 0 ==> out == [])
      && (|Terms(nq)| > 0 ==>
            var terms := Terms(nq);
            var anchor := Anchor(terms);
            && (forall e :: e in out ==>
                  && e.record in index
                  && e.score == Score(e.record.textNorm, nq, terms, anchor)
                  && (|terms| >= 3 ==> Hits(e.record.textNorm, terms) >= 2 && Includes(e.record.textNorm, anchor))
                  && (|terms| < 3 ==> 2 * Hits(e.record.textNorm, terms) >= |terms|))
            && var sv := Survivors(index, nq, terms, anchor);
            && |out| == (if |sv| <= LONG_LIMIT then |sv| else LONG_LIMIT)
            && out == SortDesc(sv)[..|out|]
            && WithScore(out, v) <= WithScore(sv, v))
  {
    var terms := Terms(nq);
    if |terms| > 0 {
      var anchor := Anchor(terms);
      var sv := Survivors(index, nq, terms, anchor);
      var sorted := SortDesc(sv);
      var out := Take(sorted, LONG_LIMIT);
      SortDescSpec(sv, v);
      SortDescLength(sv);
      SurvivorsSpec(index, nq, terms, anchor);
      WithScoreTake(sorted, LONG_LIMIT, v);
      forall e | e in out
        ensures e.record in index && Admitted(e.record.textNorm, terms, anchor)
                && e.score == Score(e.record.textNorm, nq, terms, anchor)
      {
        var k :| 0 <= k < |out| && out[k] == e;
        assert sorted[k] == e;
        assert e in multiset(sorted);
      }
      forall e | e in out
        ensures |terms| < 3 ==> 2 * Hits(e.record.textNorm, terms) >= |terms|
      {
        RatioTest(Hits(e.record.textNorm, terms), |terms|);
      }
      assert SortedDesc(out) by {
        forall i, j | 0 <= i < j < |out| ensures out[i].score >= out[j].score {
          assert out[i] == sorted[i] && out[j] == sorted[j];
        }
      }
    }
  }
}
