/**
 * The context panel of `showAyahContext`: the surah is found by number, a
 * window of two ayahs before and seven after the chosen one is clamped to
 * the surah, and every number in the window that some ayah carries is
 * listed with its Arabic text, its English line and whether it is the
 * chosen one.
 */
module Context {
  import opened Js
  import opened Corpus
  import English

  const BEFORE: int := 2
  const AFTER: int := 7

  /** `Math.max(1, a - 2) .. Math.min(count, a + 7)`, inclusive. */
  function Window(count: int, a: int): (int, int) {
    (if a - BEFORE > 1 then a - BEFORE else 1, if a + AFTER < count then a + AFTER else count)
  }

  /** A number lies in the window exactly when it is a valid ayah position
      (1 .. count) no more than two below and seven above the chosen one. */
  lemma WindowMembers(count: int, a: int, i: int)
    ensures var (start, end) := Window(count, a);
      start <= i <= end <==> 1 <= i <= count && a - BEFORE <= i <= a + AFTER
  {
  }

  /** For a chosen ayah inside the surah the window contains it, stays in
      the surah and holds at most ten numbers; it is not shifted to keep
      its size at the edges. */
  lemma WindowBounds(count: int, a: int)
    requires 1 <= a <= count
    ensures var (start, end) := Window(count, a);
      1 <= start <= a <= end <= count && end - start + 1 <= BEFORE + AFTER + 1
  {
  }

  /** The window is a full ten numbers exactly when the chosen ayah is at
      least two from the start and seven from the end of the surah. */
  lemma WindowFull(count: int, a: int)
    requires 1 <= a <= count
    ensures var (start, end) := Window(count, a);
      end - start + 1 == BEFORE + AFTER + 1 <==> 1 + BEFORE <= a && a + AFTER <= count
  {
  }

  /** `surahs.find(s => s.number === n)`: the first surah with that number. */
  function FindSurah(surahs: seq<Surah>, n: int): Option<Surah> {
    if |surahs| == 0 then None
    else if surahs[0].number == n then Some(surahs[0])
    else FindSurah(surahs[1..], n)
  }

  /** `find` yields the first surah carrying the number, and nothing only
      when no surah carries it. */
  lemma {:induction false} FindSurahFirst(surahs: seq<Surah>, n: int) returns (k: nat)
    ensures FindSurah(surahs, n).Some? ==>
      k < |surahs| && FindSurah(surahs, n).value == surahs[k] && surahs[k].number == n
      && forall p :: 0 <= p < k ==> surahs[p].number != n
    ensures FindSurah(surahs, n).None? ==> forall p :: 0 <= p < |surahs| ==> surahs[p].number != n
  {
    k := 0;
    if |surahs| > 0 && surahs[0].number != n {
      var k' := FindSurahFirst(surahs[1..], n);
      k := k' + 1;
      forall p | 1 <= p < |surahs| ensures surahs[p] == surahs[1..][p - 1] { }
    }
  }

  /** `surah.ayahs.find(x => x.numberInSurah === i)`. */
  function FindAyah(ayahs: seq<Ayah>, i: int): Option<Ayah> {
    if |ayahs| == 0 then None
    else if ayahs[0].numberInSurah == i then Some(ayahs[0])
    else FindAyah(ayahs[1..], i)
  }

  /** `find` yields the first ayah carrying the number, and nothing only
      when no ayah carries it. */
  lemma {:induction false} FindAyahFirst(ayahs: seq<Ayah>, i: int) returns (k: nat)
    ensures FindAyah(ayahs, i).Some? ==>
      k < |ayahs| && FindAyah(ayahs, i).value == ayahs[k] && ayahs[k].numberInSurah == i
      && forall p :: 0 <= p < k ==> ayahs[p].numberInSurah != i
    ensures FindAyah(ayahs, i).None? ==> forall p :: 0 <= p < |ayahs| ==> ayahs[p].numberInSurah != i
  {
    k := 0;
    if |ayahs| > 0 && ayahs[0].numberInSurah != i {
      var k' := FindAyahFirst(ayahs[1..], i);
      k := k' + 1;
      forall p | 1 <= p < |ayahs| ensures ayahs[p] == ayahs[1..][p - 1] { }
    }
  }

  /** One line of the panel: the ayah number, its Arabic text, its English
      line and whether it is the chosen ayah. */
  datatype Line = Line(number: int, text: string, english: string, active: bool)

  /** What the panel shows: the window's bounds (for the header) and the lines. */
  datatype View = View(start: int, end: int, lines: seq<Line>)

  /** `EN_MAP?.[String(s)]?.[String(i)] || ""`. */
  function EnglishOf(en: Option<English.EnMap>, s: int, i: int): string {
    if en.None? then ""
    else match English.Lookup(en.value, s, i)
      case None => ""
      case Some(t) => t
  }

  /** The lines for numbers `lo .. hi`: numbers without an ayah are skipped. */
  function Lines(ayahs: seq<Ayah>, en: Option<English.EnMap>, s: int, a: int, lo: int, hi: int): seq<Line>
    decreases hi - lo
  {
    if hi < lo then []
    else
      Lines(ayahs, en, s, a, lo, hi - 1)
      + match FindAyah(ayahs, hi)
        case None => []
        case Some(x) => [Line(hi, x.text, EnglishOf(en, s, hi), hi == a)]
  }

  /** The panel `showAyahContext(s, a)` builds; nothing when no surah has
      number `s`. */
  function ContextOf(surahs: seq<Surah>, en: Option<English.EnMap>, s: int, a: int): Option<View> {
    match FindSurah(surahs, s)
    case None => None
    case Some(surah) =>
      var (start, end) := Window(|surah.ayahs|, a);
      Some(View(start, end, Lines(surah.ayahs, en, s, a, start, end)))
  }

  /** `showAyahContext(surahNo, ayahNo)` without the rendering: the loop over
      the window, skipping numbers that no ayah carries. */
  method ShowAyahContext(surahs: seq<Surah>, en: Option<English.EnMap>, surahNo: int, ayahNo: int)
    returns (view: Option<View>)
    ensures view == ContextOf(surahs, en, surahNo, ayahNo)
  {
    var found := FindSurah(surahs, surahNo);
    if found.None? {
      return None;
    }
    var surah := found.value;
    var (start, end) := Window(|surah.ayahs|, ayahNo);
    var lines := [];
    var i := start;
    while i <= end
      invariant start <= i <= if end < start then start else end + 1
      invariant lines == Lines(surah.ayahs, en, surahNo, ayahNo, start, i - 1)
      decreases end - i
    {
      var x := FindAyah(surah.ayahs, i);
      if x.Some? {
        lines := lines + [Line(i, x.value.text, EnglishOf(en, surahNo, i), i == ayahNo)];
      }
      i := i + 1;
    }
    return Some(View(start, end, lines));
  }

  // ---------------------------------------------------------------------
  // What the panel promises
  // ---------------------------------------------------------------------

  /** Every line for `lo .. hi` has a number in range that some ayah
      carries, and shows that ayah's text, its English line and the active
      flag exactly when it is the chosen ayah. */
  lemma {:induction false} LineAt(ayahs: seq<Ayah>, en: Option<English.EnMap>, s: int, a: int, lo: int, hi: int, p: nat)
    requires p < |Lines(ayahs, en, s, a, lo, hi)|
    ensures var l := Lines(ayahs, en, s, a, lo, hi)[p];
      && lo <= l.number <= hi
      && FindAyah(ayahs, l.number).Some?
      && l == Line(l.number, FindAyah(ayahs, l.number).value.text, EnglishOf(en, s, l.number), l.number == a)
    decreases hi - lo
  {
    var init := Lines(ayahs, en, s, a, lo, hi - 1);
    if p < |init| {
      LineAt(ayahs, en, s, a, lo, hi - 1, p);
      assert Lines(ayahs, en, s, a, lo, hi)[p] == init[p];
    }
  }

  /** The lines are in strictly increasing number order. */
  lemma {:induction false} LinesIncreasing(ayahs: seq<Ayah>, en: Option<English.EnMap>, s: int, a: int, lo: int, hi: int,
                                           p: nat, q: nat)
    requires p < q < |Lines(ayahs, en, s, a, lo, hi)|
    ensures Lines(ayahs, en, s, a, lo, hi)[p].number < Lines(ayahs, en, s, a, lo, hi)[q].number
    decreases hi - lo
  {
    var ls := Lines(ayahs, en, s, a, lo, hi);
    var init := Lines(ayahs, en, s, a, lo, hi - 1);
    assert ls[p] == init[p];
    if q < |init| {
      LinesIncreasing(ayahs, en, s, a, lo, hi - 1, p, q);
      assert ls[q] == init[q];
    } else {
      LineAt(ayahs, en, s, a, lo, hi - 1, p);
    }
  }

  /** Every number in range that some ayah carries gets a line. */
  lemma {:induction false} LinesComplete(ayahs: seq<Ayah>, en: Option<English.EnMap>, s: int, a: int, lo: int, hi: int,
                                         i: int) returns (p: nat)
    requires lo <= i <= hi && FindAyah(ayahs, i).Some?
    ensures p < |Lines(ayahs, en, s, a, lo, hi)| && Lines(ayahs, en, s, a, lo, hi)[p].number == i
    decreases hi - lo
  {
    var init := Lines(ayahs, en, s, a, lo, hi - 1);
    if i < hi {
      p := LinesComplete(ayahs, en, s, a, lo, hi - 1, i);
      assert Lines(ayahs, en, s, a, lo, hi)[p] == init[p];
    } else {
      p := |init|;
    }
  }

  /** At most one line is marked active, and it is the chosen ayah's. */
  lemma OneActive(ayahs: seq<Ayah>, en: Option<English.EnMap>, s: int, a: int, lo: int, hi: int, p: nat, q: nat)
    requires var ls := Lines(ayahs, en, s, a, lo, hi);
      p < |ls| && q < |ls| && ls[p].active && ls[q].active
    ensures p == q && Lines(ayahs, en, s, a, lo, hi)[p].number == a
  {
    LineAt(ayahs, en, s, a, lo, hi, p);
    LineAt(ayahs, en, s, a, lo, hi, q);
    if p < q {
      LinesIncreasing(ayahs, en, s, a, lo, hi, p, q);
    } else if q < p {
      LinesIncreasing(ayahs, en, s, a, lo, hi, q, p);
    }
  }

  /** The panel for a chosen ayah inside its surah: at most ten lines, all
      from the window, and the chosen ayah itself among them whenever some
      ayah carries its number. */
  lemma ContextSpec(surahs: seq<Surah>, en: Option<English.EnMap>, s: int, a: int)
    requires ContextOf(surahs, en, s, a).Some?
    ensures var v := ContextOf(surahs, en, s, a).value;
      var surah := FindSurah(surahs, s).value;
      && (forall p :: 0 <= p < |v.lines| ==> v.start <= v.lines[p].number <= v.end)
      && (1 <= a <= |surah.ayahs| ==>
            && |v.lines| <= BEFORE + AFTER + 1
            && (FindAyah(surah.ayahs, a).Some? ==> exists p :: 0 <= p < |v.lines| && v.lines[p].active))
  {
    var v := ContextOf(surahs, en, s, a).value;
    var surah := FindSurah(surahs, s).value;
    forall p | 0 <= p < |v.lines| ensures v.start <= v.lines[p].number <= v.end {
      LineAt(surah.ayahs, en, s, a, v.start, v.end, p);
    }
    if 1 <= a <= |surah.ayahs| {
      WindowBounds(|surah.ayahs|, a);
      LinesCount(surah.ayahs, en, s, a, v.start, v.end);
      if FindAyah(surah.ayahs, a).Some? {
        var p := LinesComplete(surah.ayahs, en, s, a, v.start, v.end, a);
        LineAt(surah.ayahs, en, s, a, v.start, v.end, p);
      }
    }
  }

  /** At most one line per number in range. */
  lemma {:induction false} LinesCount(ayahs: seq<Ayah>, en: Option<English.EnMap>, s: int, a: int, lo: int, hi: int)
    requires lo <= hi + 1
    ensures |Lines(ayahs, en, s, a, lo, hi)| <= hi - lo + 1
    decreases hi - lo
  {
    if hi >= lo {
      LinesCount(ayahs, en, s, a, lo, hi - 1);
    }
  }

  /** No panel exactly when no surah carries the number. */
  lemma ContextNone(surahs: seq<Surah>, en: Option<English.EnMap>, s: int, a: int)
    ensures ContextOf(surahs, en, s, a).None? <==> forall p :: 0 <= p < |surahs| ==> surahs[p].number != s
  {
    var k := FindSurahFirst(surahs, s);
  }

  /** The English line shown is the aligned line of `buildEnglishMap`, or
      "" when there is none or no map was loaded. */
  lemma EnglishOfSpec(en: Option<English.EnMap>, s: int, i: int)
    ensures EnglishOf(en, s, i) != "" ==>
      en.Some? && English.Lookup(en.value, s, i) == Some(EnglishOf(en, s, i))
    ensures en.Some? && English.Lookup(en.value, s, i).Some? ==>
      EnglishOf(en, s, i) == English.Lookup(en.value, s, i).value
  {
  }
}
