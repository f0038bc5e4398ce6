/**
 * `buildEnglishMap`: the English translation file is a plain list of lines
 * in corpus order; it is aligned with the corpus by position, giving the
 * map surah key to ayah key to line.
 */
module English {
  import opened Js
  import opened Corpus

  /** The aligned translation: surah number, ayah number, line. The source
      keys its objects by `String(n)` and reads them back with integers, so
      the map is keyed by the integers themselves; `IntToStringInjective`
      is why no two numbers share an object key. */
  type EnMap = map<int, map<int, string>>

  /** `EN_MAP?.[s]?.[a]`: the line of ayah `a` of surah `s`, if present. */
  function Lookup(m: EnMap, s: int, a: int): Option<string> {
    if s in m && a in m[s] then Some(m[s][a]) else None
  }

  /** `x?.text ?? ""` as a JSON value. */
  function TextField(x: Json): Json {
    var t := Member(x, "text");
    if IsNullish(t) then JStr("") else t.value
  }

  /** The lines in order: the input itself when its first item is a string,
      otherwise the `text` member of every item as a string. */
  function Lines(items: seq<Json>): (arr: seq<Json>)
    ensures |arr| == |items|
    ensures |items| > 0 && items[0].JStr? ==> arr == items
    ensures !(|items| > 0 && items[0].JStr?) ==> forall k :: 0 <= k < |arr| ==> arr[k] == JStr(JsString(TextField(items[k])))
  {
    if |items| > 0 && items[0].JStr? then items
    else seq(|items|, k requires 0 <= k < |items| => JStr(JsString(TextField(items[k]))))
  }

  /** `(arr[i] ?? "").toString().trim()`: the empty string past the end or
      for a null item. */
  function Line(arr: seq<Json>, i: nat): string {
    if i < |arr| && !arr[i].JNull? then Trim(JsString(arr[i])) else ""
  }

  /** Every aligned line is trimmed. */
  lemma LineTrimmed(arr: seq<Json>, i: nat)
    ensures Trim(Line(arr, i)) == Line(arr, i)
  {
    if i < |arr| && !arr[i].JNull? {
      TrimIdempotent(JsString(arr[i]));
    }
  }

  /** The line of every item of the list, in order. */
  function Texts(arr: seq<Json>): (lines: seq<string>)
    ensures |lines| == |arr|
  {
    seq(|arr|, i requires 0 <= i < |arr| => Line(arr, i))
  }

  /** Line `k` of the trimmed lines, the empty string past the end. */
  function LineAt(lines: seq<string>, k: nat): string {
    if k < |lines| then lines[k] else ""
  }

  /** Reading line `i` from the trimmed lines is reading it from the list. */
  lemma TextsAt(arr: seq<Json>, i: nat)
    ensures LineAt(Texts(arr), i) == Line(arr, i)
  {
  }

  /** `out[sKey] ??= {}`. */
  function Ensure(m: EnMap, sKey: int): (r: EnMap)
    ensures sKey in r
  {
    if sKey in m then m else m[sKey := map[]]
  }

  /** `??=` adds the surah key and nothing else, keeps the map of a surah
      already present, and starts a new surah with an empty map. */
  lemma EnsureSpec(m: EnMap, sKey: int)
    ensures Ensure(m, sKey).Keys == m.Keys + {sKey}
    ensures forall k :: k in m ==> Ensure(m, sKey)[k] == m[k]
    ensures sKey !in m ==> Ensure(m, sKey)[sKey] == map[]
  {
  }

  /** The inner loop: ayah `j` of `ayahs` gets line `offset + j`. */
  function AlignAyahs(m: EnMap, sKey: int, ayahs: seq<Ayah>, lines: seq<string>, offset: nat): (r: EnMap)
    requires sKey in m
    ensures sKey in r
  {
    if |ayahs| == 0 then m
    else
      var n := |ayahs| - 1;
      var r := AlignAyahs(m, sKey, ayahs[..n], lines, offset);
      r[sKey := r[sKey][ayahs[n].numberInSurah := LineAt(lines, offset + n)]]
  }

  /** The outer loop: the surahs one after the other, the line counter
      running on across surahs. */
  function AlignSurahs(surahs: seq<Surah>, lines: seq<string>): EnMap {
    if |surahs| == 0 then map[]
    else
      var n := |surahs| - 1;
      var sKey := surahs[n].number;
      AlignAyahs(Ensure(AlignSurahs(surahs[..n], lines), sKey), sKey, surahs[n].ayahs, lines, AyahCount(surahs[..n]))
  }

  /** One more ayah at the end of the inner loop. */
  lemma AlignAyahsSnoc(m: EnMap, sKey: int, ayahs: seq<Ayah>, lines: seq<string>, offset: nat, j: nat)
    requires sKey in m && j < |ayahs|
    ensures var r := AlignAyahs(m, sKey, ayahs[..j], lines, offset);
      AlignAyahs(m, sKey, ayahs[..j + 1], lines, offset)
      == r[sKey := r[sKey][ayahs[j].numberInSurah := LineAt(lines, offset + j)]]
  {
    assert ayahs[..j + 1][..j] == ayahs[..j];
  }

  /** One more surah at the end of the outer loop: the first `k` surahs are
      the first `k - 1` and then `surahs[k - 1]`. */
  lemma AlignSurahsSnoc(surahs: seq<Surah>, lines: seq<string>, k: nat)
    requires 0 < k <= |surahs|
    ensures var sKey := surahs[k - 1].number;
      AlignSurahs(surahs[..k], lines)
      == AlignAyahs(Ensure(AlignSurahs(surahs[..k - 1], lines), sKey), sKey, surahs[k - 1].ayahs, lines,
                    AyahCount(surahs[..k - 1]))
    ensures AyahCount(surahs[..k]) == AyahCount(surahs[..k - 1]) + |surahs[k - 1].ayahs|
  {
    assert surahs[..k][..k - 1] == surahs[..k - 1];
  }

  /** What `buildEnglishMap` returns, given the corpus (None before it is
      loaded) and the parsed translation file. */
  function EnglishMapOf(quran: Option<seq<Surah>>, enRaw: Json): EnMap {
    if !IsTruthy(enRaw) || quran.None? || !enRaw.JArr? then map[]
    else AlignSurahs(quran.value, Texts(Lines(enRaw.items)))
  }

  /** `buildEnglishMap(enRaw)`: a running counter over the ayahs of the
      corpus, surah by surah. */
  method BuildEnglishMap(quran: Option<seq<Surah>>, enRaw: Json) returns (out: EnMap)
    ensures out == EnglishMapOf(quran, enRaw)
    ensures !enRaw.JArr? || quran.None? ==> out == map[]
  {
    out := map[];
    if !IsTruthy(enRaw) || quran.None? {
      return;
    }
    if !enRaw.JArr? {
      return;
    }
    var arr := Lines(enRaw.items);
    var surahs := quran.value;
    var i := 0;
    var si := 0;
    while si < |surahs|
      invariant 0 <= si <= |surahs|
      invariant out == AlignSurahs(surahs[..si], Texts(arr))
      invariant i == AyahCount(surahs[..si])
    {
      var sKey := surahs[si].number;
      out := Ensure(out, sKey);
      out, i := FillAyahs(out, sKey, surahs[si].ayahs, arr, i);
      AlignSurahsSnoc(surahs, Texts(arr), si + 1);
      si := si + 1;
    }
    assert surahs[..si] == surahs;
  }

  /** The inner loop of `buildEnglishMap` over the ayahs of one surah: ayah
      `j` gets line `i0 + j`; returns the advanced counter. */
  method FillAyahs(out0: EnMap, sKey: int, ayahs: seq<Ayah>, arr: seq<Json>, i0: nat)
    returns (out: EnMap, i: nat)
    requires sKey in out0
    ensures out == AlignAyahs(out0, sKey, ayahs, Texts(arr), i0)
    ensures i == i0 + |ayahs|
  {
    out := out0;
    i := i0;
    var j := 0;
    while j < |ayahs|
      invariant 0 <= j <= |ayahs|
      invariant sKey in out
      invariant out == AlignAyahs(out0, sKey, ayahs[..j], Texts(arr), i0)
      invariant i == i0 + j
    {
      var aKey := ayahs[j].numberInSurah;
      var line := Line(arr, i);
      TextsAt(arr, i);
      AlignAyahsSnoc(out0, sKey, ayahs, Texts(arr), i0, j);
      out := out[sKey := out[sKey][aKey := line]];
      i := i + 1;
      j := j + 1;
    }
    assert ayahs[..j] == ayahs;
  }

  // ---------------------------------------------------------------------
  // What the alignment promises
  // ---------------------------------------------------------------------

  /** The inner loop only writes under `sKey`, and there only the keys of
      the given ayahs. */
  lemma {:induction false} AlignAyahsFrame(m: EnMap, sKey: int, ayahs: seq<Ayah>, lines: seq<string>, offset: nat,
                                          x: int, y: int)
    requires sKey in m
    requires x != sKey || forall j :: 0 <= j < |ayahs| ==> ayahs[j].numberInSurah != y
    ensures Lookup(AlignAyahs(m, sKey, ayahs, lines, offset), x, y) == Lookup(m, x, y)
  {
    if |ayahs| > 0 {
      AlignAyahsFrame(m, sKey, ayahs[..|ayahs| - 1], lines, offset, x, y);
    }
  }

  /** The ayah numbers of one surah are distinct. */
  predicate DistinctAyahs(ayahs: seq<Ayah>) {
    forall p, q :: 0 <= p < q < |ayahs| ==> ayahs[p].numberInSurah != ayahs[q].numberInSurah
  }

  /** Within one surah whose ayah numbers are distinct, ayah `j` holds line
      `offset + j`. */
  lemma {:induction false} AlignAyahsAt(m: EnMap, sKey: int, ayahs: seq<Ayah>, lines: seq<string>, offset: nat, j: nat)
    requires sKey in m && j < |ayahs|
    requires DistinctAyahs(ayahs)
    ensures Lookup(AlignAyahs(m, sKey, ayahs, lines, offset), sKey, ayahs[j].numberInSurah)
            == Some(LineAt(lines, offset + j))
  {
    var n := |ayahs| - 1;
    var r := AlignAyahs(m, sKey, ayahs[..n], lines, offset);
    var last := ayahs[n].numberInSurah;
    assert AlignAyahs(m, sKey, ayahs, lines, offset) == r[sKey := r[sKey][last := LineAt(lines, offset + n)]];
    if j < n {
      assert ayahs[..n][j] == ayahs[j];
      AlignAyahsAt(m, sKey, ayahs[..n], lines, offset, j);
    }
  }

  /** The numbers of the surahs. */
  function SurahKeys(surahs: seq<Surah>): set<int> {
    if |surahs| == 0 then {}
    else SurahKeys(surahs[..|surahs| - 1]) + {surahs[|surahs| - 1].number}
  }

  /** Every surah's number, and nothing else, is a key of `SurahKeys`. */
  lemma {:induction false} SurahKeysMembers(surahs: seq<Surah>, k: int) returns (i: nat)
    ensures forall p :: 0 <= p < |surahs| ==> surahs[p].number in SurahKeys(surahs)
    ensures k in SurahKeys(surahs) ==> i < |surahs| && k == surahs[i].number
  {
    i := 0;
    if |surahs| > 0 {
      var n := |surahs| - 1;
      i := SurahKeysMembers(surahs[..n], k);
      forall p | 0 <= p < n ensures surahs[p].number in SurahKeys(surahs) {
        assert surahs[..n][p] == surahs[p];
      }
      if k !in SurahKeys(surahs[..n]) {
        i := n;
      }
    }
  }

  /** The inner loop adds no surah key. */
  lemma {:induction false} AlignAyahsKeys(m: EnMap, sKey: int, ayahs: seq<Ayah>, lines: seq<string>, offset: nat)
    requires sKey in m
    ensures AlignAyahs(m, sKey, ayahs, lines, offset).Keys == m.Keys
  {
    if |ayahs| > 0 {
      AlignAyahsKeys(m, sKey, ayahs[..|ayahs| - 1], lines, offset);
    }
  }

  /** The surah keys of the result are exactly the numbers of the corpus'
      surahs: every surah gets a key, even one without ayahs. */
  lemma {:induction false} AlignSurahsKeys(surahs: seq<Surah>, lines: seq<string>)
    ensures AlignSurahs(surahs, lines).Keys == SurahKeys(surahs)
  {
    if |surahs| > 0 {
      var n := |surahs| - 1;
      var sKey := surahs[n].number;
      AlignSurahsKeys(surahs[..n], lines);
      AlignAyahsKeys(Ensure(AlignSurahs(surahs[..n], lines), sKey), sKey, surahs[n].ayahs, lines, AyahCount(surahs[..n]));
    }
  }

  /** Surah numbers, and ayah numbers within each surah, are distinct. */
  predicate DistinctNumbers(surahs: seq<Surah>) {
    && (forall p, q :: 0 <= p < q < |surahs| ==> surahs[p].number != surahs[q].number)
    && (forall i :: 0 <= i < |surahs| ==> DistinctAyahs(surahs[i].ayahs))
  }

  /** The surah processed last, `surahs[k - 1]`, puts line
      `AyahCount(surahs[..k - 1]) + j` under its ayah `j`. */
  lemma AlignSurahsLastAt(surahs: seq<Surah>, lines: seq<string>, k: nat, j: nat)
    requires 0 < k <= |surahs| && j < |surahs[k - 1].ayahs|
    requires DistinctAyahs(surahs[k - 1].ayahs)
    ensures Lookup(AlignSurahs(surahs[..k], lines), surahs[k - 1].number,
                   surahs[k - 1].ayahs[j].numberInSurah)
            == Some(LineAt(lines, AyahCount(surahs[..k - 1]) + j))
  {
    var sKey := surahs[k - 1].number;
    var aKey := surahs[k - 1].ayahs[j].numberInSurah;
    var m := Ensure(AlignSurahs(surahs[..k - 1], lines), sKey);
    var off := AyahCount(surahs[..k - 1]);
    calc {
      Lookup(AlignSurahs(surahs[..k], lines), sKey, aKey);
      { AlignSurahsSnoc(surahs, lines, k); }
      Lookup(AlignAyahs(m, sKey, surahs[k - 1].ayahs, lines, off), sKey, aKey);
      { AlignAyahsAt(m, sKey, surahs[k - 1].ayahs, lines, off, j); }
      Some(LineAt(lines, off + j));
    }
  }

  /** A later surah `surahs[k - 1]` with another number leaves the earlier
      entries alone. */
  lemma AlignSurahsKeep(surahs: seq<Surah>, lines: seq<string>, k: nat, i: nat, y: int)
    requires 0 < k <= |surahs| && i < |surahs| && surahs[i].number != surahs[k - 1].number
    ensures Lookup(AlignSurahs(surahs[..k], lines), surahs[i].number, y)
            == Lookup(AlignSurahs(surahs[..k - 1], lines), surahs[i].number, y)
  {
    var x := surahs[i].number;
    var sKey := surahs[k - 1].number;
    AlignSurahsSnoc(surahs, lines, k);
    AlignAyahsFrame(Ensure(AlignSurahs(surahs[..k - 1], lines), sKey), sKey, surahs[k - 1].ayahs, lines,
                    AyahCount(surahs[..k - 1]), x, y);
  }

  /** Positional alignment over the first `k` surahs, by induction on `k`. */
  lemma {:induction false} AlignPrefixAt(surahs: seq<Surah>, lines: seq<string>, k: nat, i: nat, j: nat)
    requires DistinctNumbers(surahs)
    requires i < k <= |surahs| && j < |surahs[i].ayahs|
    ensures Lookup(AlignSurahs(surahs[..k], lines), surahs[i].number,
                   surahs[i].ayahs[j].numberInSurah)
            == Some(LineAt(lines, AyahCount(surahs[..i]) + j))
  {
    if i == k - 1 {
      assert DistinctAyahs(surahs[k - 1].ayahs);
      AlignSurahsLastAt(surahs, lines, k, j);
    } else {
      assert surahs[i].number != surahs[k - 1].number by {
        assert i < k - 1 < |surahs|;
      }
      AlignSurahsKeep(surahs, lines, k, i, surahs[i].ayahs[j].numberInSurah);
      AlignPrefixAt(surahs, lines, k - 1, i, j);
    }
  }

  /** Positional alignment: in a corpus with distinct numbers, ayah `j` of
      surah `i`, the `AyahCount(surahs[..i]) + j`-th ayah in corpus order,
      gets the line at that position (the empty string past the end of the
      file). */
  lemma AlignSurahsAt(surahs: seq<Surah>, lines: seq<string>, i: nat, j: nat)
    requires DistinctNumbers(surahs)
    requires i < |surahs| && j < |surahs[i].ayahs|
    ensures Lookup(AlignSurahs(surahs, lines), surahs[i].number,
                   surahs[i].ayahs[j].numberInSurah)
            == Some(LineAt(lines, AyahCount(surahs[..i]) + j))
  {
    AlignPrefixAt(surahs, lines, |surahs|, i, j);
    assert surahs[..|surahs|] == surahs;
  }

  /** `buildEnglishMap` aligns by position: on a corpus with distinct
      numbers, the `k`-th ayah in corpus order (ayah `j` of surah `i`)
      gets the trimmed `k`-th line of the file, or "" past its end. */
  lemma EnglishMapAt(surahs: seq<Surah>, items: seq<Json>, i: nat, j: nat)
    requires DistinctNumbers(surahs)
    requires i < |surahs| && j < |surahs[i].ayahs|
    ensures Lookup(EnglishMapOf(Some(surahs), JArr(items)), surahs[i].number,
                   surahs[i].ayahs[j].numberInSurah)
            == Some(Line(Lines(items), AyahCount(surahs[..i]) + j))
  {
    var lines := Texts(Lines(items));
    var k := AyahCount(surahs[..i]) + j;
    assert EnglishMapOf(Some(surahs), JArr(items)) == AlignSurahs(surahs, lines);
    assert LineAt(lines, k) == Line(Lines(items), k) by {
      TextsAt(Lines(items), k);
    }
    AlignSurahsAt(surahs, lines, i, j);
  }

  /** Lines past the last ayah are never read: the map is the same with the
      lines cut anywhere at or after the number of ayahs. */
  lemma {:induction false} AlignSurahsCut(surahs: seq<Surah>, lines: seq<string>, n: nat)
    requires AyahCount(surahs) <= n <= |lines|
    ensures AlignSurahs(surahs, lines) == AlignSurahs(surahs, lines[..n])
  {
    if |surahs| > 0 {
      var k := |surahs| - 1;
      AyahCountMonotone(surahs, k, |surahs|);
      assert surahs[..|surahs|] == surahs;
      AlignSurahsCut(surahs[..k], lines, n);
      AlignSurahsSnoc(surahs, lines, k + 1);
      AlignSurahsSnoc(surahs, lines[..n], k + 1);
      var sKey := surahs[k].number;
      AlignAyahsCut(Ensure(AlignSurahs(surahs[..k], lines), sKey), sKey, surahs[k].ayahs, lines,
                    AyahCount(surahs[..k]), n);
    }
  }

  /** The inner loop reads lines `offset .. offset + |ayahs|` only. */
  lemma {:induction false} AlignAyahsCut(m: EnMap, sKey: int, ayahs: seq<Ayah>, lines: seq<string>, offset: nat, n: nat)
    requires sKey in m && offset + |ayahs| <= n <= |lines|
    ensures AlignAyahs(m, sKey, ayahs, lines, offset) == AlignAyahs(m, sKey, ayahs, lines[..n], offset)
  {
    if |ayahs| > 0 {
      AlignAyahsCut(m, sKey, ayahs[..|ayahs| - 1], lines, offset, n);
      assert lines[..n][offset + |ayahs| - 1] == lines[offset + |ayahs| - 1];
    }
  }

  /** The lines of a prefix of the file are the prefix of its lines. */
  lemma LinesPrefix(items: seq<Json>, n: nat)
    requires n <= |items|
    ensures Texts(Lines(items[..n])) == Texts(Lines(items))[..n]
  {
    var arr := Lines(items);
    if n > 0 {
      assert items[..n][0] == items[0];
    }
    forall k | 0 <= k < n ensures Lines(items[..n])[k] == arr[k] {
      assert items[..n][k] == items[k];
    }
    assert Lines(items[..n]) == arr[..n];
    forall k | 0 <= k < n ensures Texts(arr[..n])[k] == Texts(arr)[k] {
      assert arr[..n][k] == arr[k];
    }
  }

  /** A translation file that is an array is aligned line by line. */
  lemma EnglishMapOfArray(surahs: seq<Surah>, items: seq<Json>)
    ensures EnglishMapOf(Some(surahs), JArr(items)) == AlignSurahs(surahs, Texts(Lines(items)))
  {
  }

  /** Items of the file past the last ayah do not matter: cutting them off
      gives the same map. */
  lemma EnglishMapIgnoresExtra(surahs: seq<Surah>, items: seq<Json>)
    requires |items| > AyahCount(surahs)
    ensures EnglishMapOf(Some(surahs), JArr(items)) == EnglishMapOf(Some(surahs), JArr(items[..AyahCount(surahs)]))
  {
    var n := AyahCount(surahs);
    var t := Texts(Lines(items));
    LinesPrefix(items, n);
    EnglishMapOfArray(surahs, items);
    EnglishMapOfArray(surahs, items[..n]);
    AlignSurahsCut(surahs, t, n);
  }
}
