/**
 * The page's global state: the corpus `QURAN`, the search index `INDEX`,
 * the primary selection `CURRENT`, the registered commentaries `TAFSIRS`
 * and the aligned translation `EN_MAP`, with the operations that set or
 * read them. File loading is replaced by its parsed result, `None` standing
 * for a file that failed to load.
 */
module App {
  import opened Js
  import opened ArabicText
  import opened Corpus
  import Search
  import Tafsir
  import English
  import Context

  /** A registered commentary: `{label, data}`, the label as `title`. */
  datatype Pack = Pack(title: string, data: Tafsir.Tafsir)

  class Page {
    var quran: Option<seq<Surah>>
    var index: seq<Record>
    var current: Option<(int, int)>
    var tafsirs: map<string, Pack>
    var enMap: Option<English.EnMap>

    /** The index is built from the loaded corpus, a selection exists only
        once the corpus is loaded, and every registered commentary is well
        formed and not empty. */
    predicate Valid()
      reads this
    {
      && (quran.Some? ==> index == Flatten(quran.value))
      && (quran.None? ==> index == [])
      && (current.Some? ==> quran.Some?)
      && (forall k :: k in tafsirs ==> tafsirs[k].data != map[] && Tafsir.WellFormed(tafsirs[k].data))
    }

    /** The state before `init` runs: nothing loaded, nothing selected. */
    constructor ()
      ensures Valid()
      ensures quran == None && index == [] && current == None && tafsirs == map[] && enMap == None
    {
      quran := None;
      index := [];
      current := None;
      tafsirs := map[];
      enMap := None;
    }

    /** `QURAN = normalizeQuran(...)` followed by `buildIndex()`. */
    method LoadCorpus(surahs: seq<Surah>)
      requires Valid()
      modifies this
      ensures Valid()
      ensures quran == Some(surahs) && index == Flatten(surahs)
      ensures current == old(current) && tafsirs == old(tafsirs) && enMap == old(enMap)
    {
      quran := Some(surahs);
      BuildIndex();
    }

    /** `buildIndex()`: one record per ayah, surah by surah. */
    method BuildIndex()
      requires quran.Some?
      modifies this
      ensures quran == old(quran) && current == old(current) && tafsirs == old(tafsirs) && enMap == old(enMap)
      ensures index == Flatten(quran.value)
    {
      var surahs := quran.value;
      index := [];
      var si := 0;
      while si < |surahs|
        invariant 0 <= si <= |surahs|
        invariant quran == old(quran) && current == old(current) && tafsirs == old(tafsirs) && enMap == old(enMap)
        invariant index == Flatten(surahs[..si])
      {
        PushSurah(surahs[si]);
        assert surahs[..si + 1][..si] == surahs[..si];
        si := si + 1;
      }
      assert surahs[..si] == surahs;
    }

    /** The inner loop of `buildIndex`: push one record per ayah of `s`. */
    method PushSurah(s: Surah)
      modifies this
      ensures index == old(index) + SurahRecords(s)
      ensures quran == old(quran) && current == old(current) && tafsirs == old(tafsirs) && enMap == old(enMap)
    {
      var j := 0;
      while j < |s.ayahs|
        invariant 0 <= j <= |s.ayahs|
        invariant quran == old(quran) && current == old(current) && tafsirs == old(tafsirs) && enMap == old(enMap)
        invariant index == old(index) + SurahRecords(s)[..j]
      {
        var a := s.ayahs[j];
        index := index + [Record(s.number, a.numberInSurah, a.text, NormArabic(a.text))];
        assert SurahRecords(s)[..j + 1] == SurahRecords(s)[..j] + [MakeRecord(s.number, a)];
        j := j + 1;
      }
      assert SurahRecords(s)[..j] == SurahRecords(s);
    }

    /** `EN_MAP = buildEnglishMap(enRaw)`, or `null` when the file failed to
        load. */
    method LoadEnglish(enRaw: Option<Json>)
      requires Valid()
      modifies this
      ensures Valid()
      ensures enMap == if enRaw.None? then None else Some(English.EnglishMapOf(quran, enRaw.value))
      ensures quran == old(quran) && index == old(index) && current == old(current) && tafsirs == old(tafsirs)
    {
      if enRaw.None? {
        enMap := None;
      } else {
        var m := English.BuildEnglishMap(quran, enRaw.value);
        enMap := Some(m);
      }
    }

    /** `loadOne(key, file, title)`: the commentary is registered only when
        it loaded and normalising it kept at least one entry. */
    method LoadTafsir(key: string, title: string, raw: Option<Json>) returns (ok: bool)
      requires Valid()
      modifies this
      ensures Valid()
      ensures ok <==> raw.Some? && Tafsir.Normalized(raw.value) != map[]
      ensures tafsirs == if ok then old(tafsirs)[key := Pack(title, Tafsir.Normalized(raw.value))] else old(tafsirs)
      ensures quran == old(quran) && index == old(index) && current == old(current) && enMap == old(enMap)
    {
      if raw.None? {
        return false;
      }
      var norm := Tafsir.NormalizeTafsir(raw.value);
      if norm != map[] {
        Tafsir.NormalizedWellFormed(raw.value);
        tafsirs := tafsirs[key := Pack(title, norm)];
        return true;
      }
      return false;
    }

    /** `loadOne` with the corrected normaliser, which tests the "s:a"
        object fallback before the nested shape
        (`Tafsir.NormalizedIntended`). */
    method LoadTafsirIntended(key: string, title: string, raw: Option<Json>) returns (ok: bool)
      requires Valid()
      modifies this
      ensures Valid()
      ensures ok <==> raw.Some? && Tafsir.NormalizedIntended(raw.value) != map[]
      ensures tafsirs == if ok then old(tafsirs)[key := Pack(title, Tafsir.NormalizedIntended(raw.value))] else old(tafsirs)
      ensures quran == old(quran) && index == old(index) && current == old(current) && enMap == old(enMap)
    {
      if raw.None? {
        return false;
      }
      var norm := Tafsir.NormalizeTafsirIntended(raw.value);
      if norm != map[] {
        Tafsir.NormalizedIntendedWellFormed(raw.value);
        tafsirs := tafsirs[key := Pack(title, norm)];
        return true;
      }
      return false;
    }

    /** `getTafsir(TAFSIRS[key]?.data, s, a)`. */
    function TafsirText(key: string, s: int, a: int): (r: Option<string>)
      reads this
      requires Valid()
      ensures r.Some? <==> key in tafsirs && Tafsir.Lookup(tafsirs[key].data, IntToString(s), IntToString(a)).Some?
      ensures r.Some? ==> r == Tafsir.Lookup(tafsirs[key].data, IntToString(s), IntToString(a))
    {
      Tafsir.GetTafsir(if key in tafsirs then Some(tafsirs[key].data) else None, s, a)
    }

    /** `setPrimaryAyah(s, a)`: record the selection, then show its context
        and the text of the selected commentary `key`. */
    method SetPrimaryAyah(s: int, a: int, key: string) returns (view: Option<Context.View>, text: Option<string>)
      requires Valid() && quran.Some?
      modifies this
      ensures Valid()
      ensures current == Some((s, a))
      ensures view == Context.ContextOf(quran.value, enMap, s, a) && text == TafsirText(key, s, a)
      ensures quran == old(quran) && index == old(index) && tafsirs == old(tafsirs) && enMap == old(enMap)
    {
      current := Some((s, a));
      view := Context.ShowAyahContext(quran.value, enMap, s, a);
      text := TafsirText(key, s, a);
    }

    /** `langSelect.onchange`: redraw the context of the selection, if any. */
    method OnLanguageChange() returns (view: Option<Option<Context.View>>)
      requires Valid()
      ensures view.Some? <==> current.Some?
      ensures current.Some? ==> view == Some(Context.ContextOf(quran.value, enMap, current.value.0, current.value.1))
    {
      if current.None? {
        return None;
      }
      var v := Context.ShowAyahContext(quran.value, enMap, current.value.0, current.value.1);
      return Some(v);
    }

    /** `tafsirSelect.onchange`: show the newly selected commentary for the
        selection, if any. */
    method OnTafsirChange(key: string) returns (text: Option<Option<string>>)
      requires Valid()
      ensures text.Some? <==> current.Some?
      ensures current.Some? ==> text == Some(TafsirText(key, current.value.0, current.value.1))
    {
      if current.None? {
        return None;
      }
      return Some(TafsirText(key, current.value.0, current.value.1));
    }

    /** `searchText(q)`: nothing before the corpus is loaded, otherwise the
        two-tier search over the index of the corpus. */
    method SearchText(q: string) returns (hits: seq<Search.Hit>)
      requires Valid()
      ensures quran.None? ==> hits == []
      ensures quran.Some? ==> var nq := NormArabic(q);
        && (|nq| < 2 ==> hits == [])
        && (2 <= |nq| <= 3 ==>
              hits == Search.Plains(Search.Take(Search.ShortMatches(Flatten(quran.value), nq), Search.SHORT_LIMIT)))
        && (|nq| >= 4 ==> hits == Search.Rankeds(Search.LongResults(Flatten(quran.value), nq)))
    {
      if quran.None? {
        return [];
      }
      hits := Search.SearchIndex(index, q);
    }
  }
}
