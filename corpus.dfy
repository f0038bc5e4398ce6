/**
 * The verse corpus as the page holds it after loading, and the flat search
 * index that `buildIndex` derives from it: one record per verse, surah by
 * surah, verse by verse, each with its normalised text.
 */
module Corpus {
  import opened ArabicText

  /** One verse: its number inside the surah and its text. */
  datatype Ayah = Ayah(numberInSurah: int, text: string)

  /** One surah: its number and its verses, in file order. The display name
      is not part of the model. */
  datatype Surah = Surah(number: int, ayahs: seq<Ayah>)

  /** An index record `{s, a, textRaw, textNorm}`. */
  datatype Record = Record(s: int, a: int, textRaw: string, textNorm: string)

  /** The record `buildIndex` pushes for verse `ayah` of surah `surahNumber`. */
  function MakeRecord(surahNumber: int, ayah: Ayah): Record {
    Record(surahNumber, ayah.numberInSurah, ayah.text, NormArabic(ayah.text))
  }

  /** The records of one surah, in verse order. */
  function SurahRecords(s: Surah): (r: seq<Record>)
    ensures |r| == |s.ayahs|
    ensures forall j :: 0 <= j < |r| ==>
              r[j].s == s.number && r[j].a == s.ayahs[j].numberInSurah && r[j].textRaw == s.ayahs[j].text
  {
    seq(|s.ayahs|, j requires 0 <= j < |s.ayahs| => MakeRecord(s.number, s.ayahs[j]))
  }

  /** Number of verses in the corpus. */
  function AyahCount(surahs: seq<Surah>): nat {
    if |surahs| == 0 then 0
    else AyahCount(surahs[..|surahs| - 1]) + |surahs[|surahs| - 1].ayahs|
  }

  /** The index `buildIndex` builds: the surahs' records one after another. */
  function Flatten(surahs: seq<Surah>): seq<Record> {
    if |surahs| == 0 then []
    else Flatten(surahs[..|surahs| - 1]) + SurahRecords(surahs[|surahs| - 1])
  }

  /** The index holds exactly one record per verse. */
  lemma {:induction false} FlattenLength(surahs: seq<Surah>)
    ensures |Flatten(surahs)| == AyahCount(surahs)
  {
    if |surahs| > 0 {
      FlattenLength(surahs[..|surahs| - 1]);
    }
  }

  /** Counting verses of a longer prefix counts at least as many. */
  lemma {:induction false} AyahCountMonotone(surahs: seq<Surah>, i: nat, n: nat)
    requires i <= n <= |surahs|
    ensures AyahCount(surahs[..i]) <= AyahCount(surahs[..n])
    decreases n - i
  {
    if i < n {
      AyahCountMonotone(surahs, i, n - 1);
      assert surahs[..n][..n - 1] == surahs[..n - 1];
    }
  }

  /** Verse `j` of surah `i` sits at position `AyahCount(surahs[..i]) + j`:
      the index is in surah order, then in verse order, as given. */
  lemma {:induction false} FlattenAt(surahs: seq<Surah>, i: nat, j: nat)
    requires i < |surahs| && j < |surahs[i].ayahs|
    ensures AyahCount(surahs[..i]) + j < |Flatten(surahs)|
    ensures Flatten(surahs)[AyahCount(surahs[..i]) + j] == SurahRecords(surahs[i])[j]
    decreases |surahs|, 1
  {
    if i == |surahs| - 1 {
      FlattenAtLast(surahs, j);
    } else {
      FlattenAtEarlier(surahs, i, j);
    }
  }

  /** `FlattenAt` for a verse of the last surah. */
  lemma FlattenAtLast(surahs: seq<Surah>, j: nat)
    requires |surahs| > 0 && j < |surahs[|surahs| - 1].ayahs|
    ensures AyahCount(surahs[..|surahs| - 1]) + j < |Flatten(surahs)|
    ensures Flatten(surahs)[AyahCount(surahs[..|surahs| - 1]) + j] == SurahRecords(surahs[|surahs| - 1])[j]
  {
    FlattenLength(surahs[..|surahs| - 1]);
  }

  /** `FlattenAt` for a verse of a surah before the last: the position falls
      in the index of the surahs before the last. */
  lemma {:induction false} FlattenAtEarlier(surahs: seq<Surah>, i: nat, j: nat)
    requires i < |surahs| - 1 && j < |surahs[i].ayahs|
    ensures AyahCount(surahs[..i]) + j < |Flatten(surahs)|
    ensures Flatten(surahs)[AyahCount(surahs[..i]) + j] == SurahRecords(surahs[i])[j]
    decreases |surahs|, 0
  {
    var init := surahs[..|surahs| - 1];
    var k := AyahCount(surahs[..i]) + j;
    assert k < |Flatten(init)| && Flatten(init)[k] == SurahRecords(surahs[i])[j] by {
      assert init[..i] == surahs[..i] && init[i] == surahs[i];
      FlattenAt(init, i, j);
    }
    FlattenExtends(surahs, k);
  }

  /** Adding a surah at the end keeps the records before it in place. */
  lemma FlattenExtends(surahs: seq<Surah>, k: nat)
    requires |surahs| > 0 && k < |Flatten(surahs[..|surahs| - 1])|
    ensures k < |Flatten(surahs)| && Flatten(surahs)[k] == Flatten(surahs[..|surahs| - 1])[k]
  {
  }

  /** Every position of the index is some verse `j` of some surah `i`. */
  lemma {:induction false} FlattenPosition(surahs: seq<Surah>, k: nat) returns (i: nat, j: nat)
    requires k < |Flatten(surahs)|
    ensures i < |surahs| && j < |surahs[i].ayahs| && k == AyahCount(surahs[..i]) + j
    decreases |surahs|
  {
    var n := |surahs|;
    var init := surahs[..n - 1];
    FlattenLength(surahs);
    FlattenLength(init);
    if k < AyahCount(init) {
      i, j := FlattenPosition(init, k);
      assert init[..i] == surahs[..i];
    } else {
      assert surahs[..n - 1] == init;
      i, j := n - 1, k - AyahCount(init);
    }
  }

  /** Every record's normalised text is `NormArabic` of its raw text, and so
      has the normal shape. */
  lemma {:induction false} FlattenNormalised(surahs: seq<Surah>, k: nat)
    requires k < |Flatten(surahs)|
    ensures Flatten(surahs)[k].textNorm == NormArabic(Flatten(surahs)[k].textRaw)
    ensures IsNormal(Flatten(surahs)[k].textNorm)
  {
    var i, j := FlattenPosition(surahs, k);
    FlattenAt(surahs, i, j);
    NormArabicIsNormal(Flatten(surahs)[k].textRaw);
  }
}
