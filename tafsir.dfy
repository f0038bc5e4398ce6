/**
 * `normalizeTafsir` and `getTafsir`: a commentary file of unknown shape is
 * read into a sparse two-level map, surah key to ayah key to text. The shape
 * is recognised in a fixed order: an array of rows; an object whose first
 * key is "s:a" with a scalar value; a nested object, possibly inside a
 * wrapper; an object whose first key is "s:a" with an object value.
 * Every entry goes through `put`, which drops incomplete entries and
 * normalises the keys and the text.
 */
module Tafsir {
  import opened Js

  /** The normalised commentary: surah key, ayah key, text. */
  type Tafsir = map<string, map<string, string>>

  /** The three values handed to `put`; None is `undefined`. */
  datatype Entry = Entry(s: Option<Json>, a: Option<Json>, text: Option<Json>)

  /** The text stored under surah key `s` and ayah key `a`, if any. */
  function Lookup(t: Tafsir, s: string, a: string): Option<string> {
    if s in t && a in t[s] then Some(t[s][a]) else None
  }

  // ---------------------------------------------------------------------
  // put
  // ---------------------------------------------------------------------

  /** `s.replace(/^0+/, "")`. */
  function DropZeros(s: string): (r: string)
    ensures |r| <= |s|
    ensures forall k :: 0 <= k < |s| - |r| ==> s[k] == '0'
    ensures |r| > 0 ==> r[0] != '0'
  {
    if |s| > 0 && s[0] == '0' then DropZeros(s[1..]) else s
  }

  /** A key as `put` leaves it: not empty, no leading zero unless it is "0". */
  predicate Stripped(s: string) {
    |s| > 0 && (s[0] == '0' ==> s == "0")
  }

  /** `s.replace(/^0+/, "") || "0"`. */
  function StripZeros(s: string): (r: string)
    ensures Stripped(r)
    ensures r == "0" || forall k :: 0 <= k < |s| - |r| ==> s[k] == '0'
  {
    var d := DropZeros(s);
    if d == "" then "0" else d
  }

  /** Only the leading zeros go: what `DropZeros` keeps is the rest of the
      key, and `StripZeros` gives either that rest or "0". */
  lemma {:induction false} ZerosSuffix(s: string)
    ensures DropZeros(s) == s[|s| - |DropZeros(s)|..]
    ensures StripZeros(s) == "0" || StripZeros(s) == s[|s| - |StripZeros(s)|..]
  {
    if |s| > 0 && s[0] == '0' {
      ZerosSuffix(s[1..]);
    }
  }

  /** A key already stripped is left alone. */
  lemma StrippedFixed(s: string)
    requires Stripped(s)
    ensures StripZeros(s) == s
  {
  }

  /** Decimal integers are stripped keys, so `String(n)` survives `put`. */
  lemma IntKeyStripped(n: int)
    ensures Stripped(IntToString(n))
    ensures StripZeros(IntToString(n)) == IntToString(n)
  {
    var r := IntToString(n);
    IntToStringDigits(n);
    if n >= 0 {
      NatToStringDigits(n);
    }
    if n >= 0 && r[0] == '0' {
      assert NatToString(n) == r;
    }
  }

  /** `String(v).replace(/^0+/, "") || "0"`. */
  function KeyOf(v: Json): string {
    StripZeros(JsString(v))
  }

  /** `text == null ? "" : String(text).trim()`. */
  function TextOf(t: Option<Json>): string {
    if IsNullish(t) then "" else Trim(JsString(t.value))
  }

  /** `put` stores an entry exactly when surah and ayah are present and the
      trimmed text is not empty. */
  predicate Admits(e: Entry) {
    !IsNullish(e.s) && !IsNullish(e.a) && TextOf(e.text) != ""
  }

  /** `put(s, a, text)`: `out[ss] ??= {}; out[ss][aa] = tt` for an admitted
      entry; nothing for any other. */
  function Put(m: Tafsir, e: Entry): (r: Tafsir)
    ensures !Admits(e) ==> r == m
  {
    if !Admits(e) then m
    else
      var ss, aa := KeyOf(e.s.value), KeyOf(e.a.value);
      var inner := if ss in m then m[ss] else map[];
      m[ss := inner[aa := TextOf(e.text)]]
  }

  /** An admitted entry sets the one text under its normalised keys,
      creating the surah's map when missing, and changes no other text. */
  lemma PutLookup(m: Tafsir, e: Entry, x: string, y: string)
    requires Admits(e)
    ensures Put(m, e).Keys == m.Keys + {KeyOf(e.s.value)}
    ensures Lookup(Put(m, e), x, y) ==
              if x == KeyOf(e.s.value) && y == KeyOf(e.a.value) then Some(TextOf(e.text)) else Lookup(m, x, y)
  {
  }

  /** The entries `es` put one after the other into `m`. */
  function PutAll(m: Tafsir, es: seq<Entry>): Tafsir {
    if |es| == 0 then m else Put(PutAll(m, es[..|es| - 1]), es[|es| - 1])
  }

  /** Reference reading of a sequence of puts: the text of the last admitted
      entry whose normalised keys are `x` and `y`. */
  function LastText(es: seq<Entry>, x: string, y: string): Option<string> {
    if |es| == 0 then None
    else
      var e := es[|es| - 1];
      if Admits(e) && KeyOf(e.s.value) == x && KeyOf(e.a.value) == y then Some(TextOf(e.text))
      else LastText(es[..|es| - 1], x, y)
  }

  /** After a sequence of puts, each key pair holds the text of the last
      admitted entry for it, or what it held before when there is none: a
      later entry for the same keys overwrites an earlier one. */
  lemma {:induction false} PutAllLookup(m: Tafsir, es: seq<Entry>, x: string, y: string)
    ensures Lookup(PutAll(m, es), x, y) == if LastText(es, x, y).Some? then LastText(es, x, y) else Lookup(m, x, y)
  {
    if |es| > 0 {
      PutAllLookup(m, es[..|es| - 1], x, y);
      if Admits(es[|es| - 1]) {
        PutLookup(PutAll(m, es[..|es| - 1]), es[|es| - 1], x, y);
      }
    }
  }

  /** Puts of which none is admitted change nothing. */
  lemma {:induction false} PutAllNone(m: Tafsir, es: seq<Entry>)
    requires forall i :: 0 <= i < |es| ==> !Admits(es[i])
    ensures PutAll(m, es) == m
  {
    if |es| > 0 {
      PutAllNone(m, es[..|es| - 1]);
    }
  }

  /** The surah key of every admitted entry is a key of the result, so one
      admitted entry makes the result non-empty. */
  lemma {:induction false} PutAllHasKey(m: Tafsir, es: seq<Entry>, i: nat)
    requires i < |es| && Admits(es[i])
    ensures KeyOf(es[i].s.value) in PutAll(m, es)
    decreases |es|, 1
  {
    if i == |es| - 1 {
      PutAddsKey(PutAll(m, es[..|es| - 1]), es[|es| - 1]);
    } else {
      PutAllHasKeyEarlier(m, es, i);
    }
  }

  /** The induction step of `PutAllHasKey` for an entry before the last. */
  lemma {:induction false} PutAllHasKeyEarlier(m: Tafsir, es: seq<Entry>, i: nat)
    requires i < |es| - 1 && Admits(es[i])
    ensures KeyOf(es[i].s.value) in PutAll(m, es)
    decreases |es|, 0
  {
    var prefix := es[..|es| - 1];
    assert prefix[i] == es[i];
    PutAllHasKey(m, prefix, i);
    PutKeepsKey(PutAll(m, prefix), es[|es| - 1], KeyOf(es[i].s.value));
  }

  /** A put never removes a surah key. */
  lemma PutKeepsKey(m: Tafsir, e: Entry, k: string)
    requires k in m
    ensures k in Put(m, e)
  {
  }

  /** An admitted put adds its surah key. */
  lemma PutAddsKey(m: Tafsir, e: Entry)
    requires Admits(e)
    ensures KeyOf(e.s.value) in Put(m, e)
  {
  }

  /** One more put at the end. */
  lemma PutAllSnoc(m: Tafsir, es: seq<Entry>, e: Entry)
    ensures PutAll(m, es + [e]) == Put(PutAll(m, es), e)
  {
    assert (es + [e])[..|es|] == es;
  }

  lemma {:induction false} PutAllAppend(m: Tafsir, a: seq<Entry>, b: seq<Entry>)
    ensures PutAll(m, a + b) == PutAll(PutAll(m, a), b)
    decreases |b|
  {
    if |b| == 0 {
      assert a + b == a;
    } else {
      assert (a + b)[..|a + b| - 1] == a + b[..|b| - 1];
      assert (a + b)[|a + b| - 1] == b[|b| - 1];
      PutAllAppend(m, a, b[..|b| - 1]);
    }
  }

  // ---------------------------------------------------------------------
  // What a normalised commentary looks like
  // ---------------------------------------------------------------------

  /** A stored text is trimmed and not empty. */
  predicate GoodText(t: string) {
    t != "" && Trim(t) == t
  }

  /** One surah's map: not empty, every ayah key stripped, every text good. */
  predicate GoodSurah(inner: map<string, string>) {
    inner != map[] && forall a :: a in inner ==> Stripped(a) && GoodText(inner[a])
  }

  /** Every surah map is non-empty, every key is stripped, every text is
      trimmed and non-empty. */
  predicate WellFormed(t: Tafsir) {
    forall s :: s in t ==> Stripped(s) && GoodSurah(t[s])
  }

  /** `put` keeps a commentary well formed. */
  lemma PutWellFormed(m: Tafsir, e: Entry)
    requires WellFormed(m)
    ensures WellFormed(Put(m, e))
  {
    if Admits(e) {
      TrimIdempotent(JsString(e.text.value));
      StoreWellFormed(m, KeyOf(e.s.value), KeyOf(e.a.value), TextOf(e.text));
    }
  }

  /** Storing a good text under stripped keys keeps a commentary well
      formed. */
  lemma StoreWellFormed(m: Tafsir, ss: string, aa: string, tt: string)
    requires WellFormed(m) && Stripped(ss) && Stripped(aa) && GoodText(tt)
    ensures WellFormed(m[ss := (if ss in m then m[ss] else map[])[aa := tt]])
  {
    StoreGoodSurah(if ss in m then m[ss] else map[], aa, tt);
  }

  /** Storing a good text under a stripped key in an empty or good surah
      map gives a good surah map. */
  lemma StoreGoodSurah(inner: map<string, string>, aa: string, tt: string)
    requires inner == map[] || GoodSurah(inner)
    requires Stripped(aa) && GoodText(tt)
    ensures GoodSurah(inner[aa := tt])
  {
    assert aa in inner[aa := tt];
  }

  lemma {:induction false} PutAllWellFormed(m: Tafsir, es: seq<Entry>)
    requires WellFormed(m)
    ensures WellFormed(PutAll(m, es))
  {
    if |es| > 0 {
      PutAllWellFormed(m, es[..|es| - 1]);
      PutWellFormed(PutAll(m, es[..|es| - 1]), es[|es| - 1]);
    }
  }

  // ---------------------------------------------------------------------
  // The recognised shapes, as sequences of entries
  // ---------------------------------------------------------------------

  const SURAH_ALIASES: seq<string> := ["surah", "sura", "chapter", "s", "surahNo", "surah_number"]
  const AYAH_ALIASES: seq<string> := ["ayah", "aya", "verse", "a", "ayahNo", "ayah_number"]
  const TEXT_ALIASES: seq<string> :=
    ["text", "tafsir", "content", "value", "explain", "meaning", "commentary"]
  const WRAPPERS: seq<string> := ["data", "tafsir", "result", "results"]
  /** The shorter text alias list of the last shape. */
  const COLON_TEXT_ALIASES: seq<string> := ["text", "tafsir", "content", "value"]

  /** The entry of one row of an array: a row that is an array of at least
      three items gives its first three; any other array or object is read
      through the alias lists (an array has none of the alias members, so
      its entry is dropped); a row of another type is skipped. */
  function RowEntry(row: Json): Option<Entry> {
    if row.JArr? && |row.items| >= 3 then
      Some(Entry(Some(row.items[0]), Some(row.items[1]), Some(row.items[2])))
    else if IsTruthy(row) && IsObjectType(row) then
      Some(Entry(Coalesce(Members(row, SURAH_ALIASES)),
                 Coalesce(Members(row, AYAH_ALIASES)),
                 Coalesce(Members(row, TEXT_ALIASES))))
    else None
  }

  /** Shape 1: the entries of the rows, in order. */
  function ArrayEntries(rows: seq<Json>): seq<Entry> {
    if |rows| == 0 then []
    else
      var es := ArrayEntries(rows[..|rows| - 1]);
      match RowEntry(rows[|rows| - 1])
      case None => es
      case Some(e) => es + [e]
  }

  /** `const [s, a] = String(k).split(":")`: the first two pieces of the key;
      `a` is undefined when the key holds no colon. */
  function SplitKey(k: string): (Option<Json>, Option<Json>) {
    var p := Split(k, ':');
    (Some(JStr(p[0])), if |p| >= 2 then Some(JStr(p[1])) else None)
  }

  /** Shape 2a: one entry per key, `put(s, a, raw[k])`. */
  function ColonEntries(fields: seq<(string, Json)>): (es: seq<Entry>)
    ensures |es| == |fields|
    ensures forall i :: 0 <= i < |es| ==>
      es[i].s == SplitKey(fields[i].0).0 && es[i].a == SplitKey(fields[i].0).1 && es[i].text == Some(fields[i].1)
  {
    seq(|fields|, i requires 0 <= i < |fields| =>
      var (s, a) := SplitKey(fields[i].0);
      Entry(s, a, Some(fields[i].1)))
  }

  /** Shape 2c: one entry per key, the text read through the short alias
      list of the value. */
  function ColonObjectEntries(fields: seq<(string, Json)>): (es: seq<Entry>)
    ensures |es| == |fields|
    ensures forall i :: 0 <= i < |es| ==>
      es[i].s == SplitKey(fields[i].0).0 && es[i].a == SplitKey(fields[i].0).1
      && es[i].text == Coalesce(Members(fields[i].1, COLON_TEXT_ALIASES))
  {
    seq(|fields|, i requires 0 <= i < |fields| =>
      var (s, a) := SplitKey(fields[i].0);
      Entry(s, a, Coalesce(Members(fields[i].1, COLON_TEXT_ALIASES))))
  }

  /** The entries of one surah's inner object. */
  function InnerEntries(sKey: string, inner: seq<(string, Json)>): (es: seq<Entry>)
    ensures |es| == |inner|
    ensures forall j :: 0 <= j < |es| ==>
      es[j].s == Some(JStr(sKey)) && es[j].a == Some(JStr(inner[j].0)) && es[j].text == Some(inner[j].1)
  {
    seq(|inner|, j requires 0 <= j < |inner| =>
      Entry(Some(JStr(sKey)), Some(JStr(inner[j].0)), Some(inner[j].1)))
  }

  /** Shape 2b: for every key whose value is a plain object, one entry per
      key of that object. */
  function NestedEntries(fields: seq<(string, Json)>): seq<Entry> {
    if |fields| == 0 then []
    else
      var (sKey, inner) := fields[|fields| - 1];
      NestedEntries(fields[..|fields| - 1]) + (if inner.JObj? then InnerEntries(sKey, inner.fields) else [])
  }

  /** `raw?.data ?? raw?.tafsir ?? raw?.result ?? raw?.results ?? raw`. */
  function Unwrap(raw: Json): Json {
    var w := Coalesce(Members(raw, WRAPPERS));
    if IsNullish(w) then raw else w.value
  }

  /** The key "s:a" test of the first key. */
  predicate HasColon(k: string) {
    ':' in k
  }

  /** What `normalizeTafsir` returns for `raw`. */
  function Normalized(raw: Json): Tafsir {
    match raw
    case JArr(rows) => PutAll(map[], ArrayEntries(rows))
    case JObj(fields) =>
      if |fields| == 0 then map[]
      else if HasColon(fields[0].0) && !IsObjectType(fields[0].1) then PutAll(map[], ColonEntries(fields))
      else
        var c := Unwrap(raw);
        var nested := if c.JObj? then PutAll(map[], NestedEntries(c.fields)) else map[];
        if nested != map[] then nested
        else if HasColon(fields[0].0) then PutAll(map[], ColonObjectEntries(fields))
        else map[]
    case _ => map[]
  }

  /** The entries that `normalizeTafsir` feeds to `put` for `raw` (none when
      no shape is recognised). */
  function EntriesOf(raw: Json): seq<Entry> {
    match raw
    case JArr(rows) => ArrayEntries(rows)
    case JObj(fields) =>
      if |fields| == 0 then []
      else if HasColon(fields[0].0) && !IsObjectType(fields[0].1) then ColonEntries(fields)
      else
        var c := Unwrap(raw);
        var nested := if c.JObj? then NestedEntries(c.fields) else [];
        if PutAll(map[], nested) != map[] then nested
        else if HasColon(fields[0].0) then ColonObjectEntries(fields)
        else []
    case _ => []
  }

  // ---------------------------------------------------------------------
  // normalizeTafsir
  // ---------------------------------------------------------------------

  /** `normalizeTafsir(raw)`: the shape tests in source order, each shape a
      loop of `put` calls on the local `out`. */
  method NormalizeTafsir(raw: Json) returns (out: Tafsir)
    ensures out == Normalized(raw)
  {
    out := map[];
    if raw.JArr? {
      out := PutRows(raw.items);
      return;
    }
    if !raw.JObj? {
      return;
    }
    var keys := raw.fields;
    if |keys| == 0 {
      return;
    }
    var sampleKey := keys[0].0;
    if HasColon(sampleKey) && !IsObjectType(keys[0].1) {
      out := PutEach(map[], ColonEntries(keys));
      return;
    }
    var candidate := Unwrap(raw);
    if candidate.JObj? {
      out := PutNested(candidate.fields);
      if out != map[] {
        return;
      }
    }
    if HasColon(sampleKey) {
      out := PutEach(map[], ColonObjectEntries(keys));
      return;
    }
  }

  /** The loop of shape 1 over the rows of an array. */
  method PutRows(rows: seq<Json>) returns (out: Tafsir)
    ensures out == PutAll(map[], ArrayEntries(rows))
  {
    out := map[];
    var i := 0;
    while i < |rows|
      invariant 0 <= i <= |rows|
      invariant out == PutAll(map[], ArrayEntries(rows[..i]))
    {
      ArrayEntriesStep(rows, i);
      out := PutRow(out, rows[i]);
      i := i + 1;
    }
    assert rows[..i] == rows;
  }

  /** The body of the row loop: a row of three or more items is put by
      position, another truthy object through the alias lists, anything
      else skipped. */
  method PutRow(m: Tafsir, row: Json) returns (out: Tafsir)
    ensures out == if RowEntry(row).Some? then Put(m, RowEntry(row).value) else m
  {
    out := m;
    if row.JArr? && |row.items| >= 3 {
      out := Put(out, Entry(Some(row.items[0]), Some(row.items[1]), Some(row.items[2])));
    } else if IsTruthy(row) && IsObjectType(row) {
      var s := Coalesce(Members(row, SURAH_ALIASES));
      var a := Coalesce(Members(row, AYAH_ALIASES));
      var t := Coalesce(Members(row, TEXT_ALIASES));
      out := Put(out, Entry(s, a, t));
    }
  }

  /** One more row: its entry, if any, is put after those of the rows
      before it. */
  lemma ArrayEntriesStep(rows: seq<Json>, i: nat)
    requires i < |rows|
    ensures PutAll(map[], ArrayEntries(rows[..i + 1])) ==
      if RowEntry(rows[i]).Some? then Put(PutAll(map[], ArrayEntries(rows[..i])), RowEntry(rows[i]).value)
      else PutAll(map[], ArrayEntries(rows[..i]))
  {
    assert rows[..i + 1][..i] == rows[..i];
    if RowEntry(rows[i]).Some? {
      PutAllSnoc(map[], ArrayEntries(rows[..i]), RowEntry(rows[i]).value);
    }
  }

  /** A loop of `put` calls over the entries of the keys of one object. */
  method PutEach(m: Tafsir, es: seq<Entry>) returns (out: Tafsir)
    ensures out == PutAll(m, es)
  {
    out := m;
    var i := 0;
    while i < |es|
      invariant 0 <= i <= |es|
      invariant out == PutAll(m, es[..i])
    {
      PutAllStep(m, es, i);
      out := Put(out, es[i]);
      i := i + 1;
    }
    assert es[..i] == es;
  }

  /** One more put after the first `i`. */
  lemma PutAllStep(m: Tafsir, es: seq<Entry>, i: nat)
    requires i < |es|
    ensures PutAll(m, es[..i + 1]) == Put(PutAll(m, es[..i]), es[i])
  {
    assert es[..i + 1][..i] == es[..i];
  }

  /** The two nested loops of shape 2b: the outer loop over the surah keys,
      the inner loop (`PutEach`) over the ayah keys of each plain object. */
  method PutNested(fields: seq<(string, Json)>) returns (out: Tafsir)
    ensures out == PutAll(map[], NestedEntries(fields))
  {
    out := map[];
    var i := 0;
    while i < |fields|
      invariant 0 <= i <= |fields|
      invariant out == PutAll(map[], NestedEntries(fields[..i]))
    {
      var sKey := fields[i].0;
      var inner := fields[i].1;
      assert fields[..i + 1][..i] == fields[..i];
      if inner.JObj? {
        assert NestedEntries(fields[..i + 1]) == NestedEntries(fields[..i]) + InnerEntries(sKey, inner.fields);
        PutAllAppend(map[], NestedEntries(fields[..i]), InnerEntries(sKey, inner.fields));
        out := PutEach(out, InnerEntries(sKey, inner.fields));
      } else {
        assert NestedEntries(fields[..i]) + [] == NestedEntries(fields[..i]);
      }
      i := i + 1;
    }
    assert fields[..i] == fields;
  }

  // ---------------------------------------------------------------------
  // What normalizeTafsir promises
  // ---------------------------------------------------------------------

  /** `Normalized` is exactly the puts of `EntriesOf`. */
  lemma NormalizedIsPutAll(raw: Json)
    ensures Normalized(raw) == PutAll(map[], EntriesOf(raw))
  {
  }

  /** Every result of `normalizeTafsir` is well formed: nothing incomplete
      is stored, keys carry no leading zeros, texts are trimmed and not
      empty. */
  lemma NormalizedWellFormed(raw: Json)
    ensures WellFormed(Normalized(raw))
  {
    NormalizedIsPutAll(raw);
    PutAllWellFormed(map[], EntriesOf(raw));
  }

  /** The text stored for a key pair is the text of the last admitted entry
      of the recognised shape with those keys, and nothing is stored
      without one. */
  lemma NormalizedLookup(raw: Json, x: string, y: string)
    ensures Lookup(Normalized(raw), x, y) == LastText(EntriesOf(raw), x, y)
  {
    NormalizedIsPutAll(raw);
    PutAllLookup(map[], EntriesOf(raw), x, y);
  }

  /** Starting from nothing, puts leave nothing exactly when none of them is
      admitted. */
  lemma PutAllEmptyIff(es: seq<Entry>)
    ensures PutAll(map[], es) == map[] <==> forall i :: 0 <= i < |es| ==> !Admits(es[i])
  {
    if forall i :: 0 <= i < |es| ==> !Admits(es[i]) {
      PutAllNone(map[], es);
    } else {
      var i :| 0 <= i < |es| && Admits(es[i]);
      PutAllHasKey(map[], es, i);
    }
  }

  /** The result of `normalizeTafsir` is empty exactly when the recognised
      shape yields no admitted entry; this is the test for registering a
      commentary. */
  lemma NormalizedEmpty(raw: Json)
    ensures Normalized(raw) == map[] <==>
              forall i :: 0 <= i < |EntriesOf(raw)| ==> !Admits(EntriesOf(raw)[i])
  {
    NormalizedIsPutAll(raw);
    PutAllEmptyIff(EntriesOf(raw));
  }

  /** A row `[s, a, text]` of integers and a string is stored under the
      decimal keys of `s` and `a` with the trimmed text. */
  lemma TupleRowStored(m: Tafsir, s: int, a: int, text: string, rest: seq<Json>)
    requires Trim(text) != ""
    ensures var e := RowEntry(JArr([JNum(s), JNum(a), JStr(text)] + rest));
      e.Some? && Lookup(Put(m, e.value), IntToString(s), IntToString(a)) == Some(Trim(text))
  {
    IntKeyStripped(s);
    IntKeyStripped(a);
    var e := RowEntry(JArr([JNum(s), JNum(a), JStr(text)] + rest));
    PutLookup(m, e.value, IntToString(s), IntToString(a));
  }

  /** An object row is read through the first present alias of each list,
      even when that alias holds an empty text: `{text: "", tafsir: "x"}`
      is dropped, not read as "x". */
  lemma AliasNoFallThrough(s: int, a: int)
    ensures var row := JObj([("s", JNum(s)), ("a", JNum(a)), ("text", JStr("")), ("tafsir", JStr("x"))]);
      RowEntry(row).Some? && !Admits(RowEntry(row).value)
  {
    var row := JObj([("s", JNum(s)), ("a", JNum(a)), ("text", JStr("")), ("tafsir", JStr("x"))]);
    assert Get(row.fields[2..], "text") == Some(JStr(""));
    assert Get(row.fields[1..], "text") == Some(JStr("")) by {
      assert row.fields[1..][1..] == row.fields[2..];
    }
    assert Member(row, "text") == Some(JStr(""));
    assert Members(row, TEXT_ALIASES)[0] == Some(JStr(""));
    assert Trim("") == "";
  }

  /** An array row of fewer than three items reaches the alias branch, where
      it has no member, so it is dropped. */
  lemma ShortArrayRowDropped(items: seq<Json>)
    requires |items| < 3
    ensures RowEntry(JArr(items)).Some? && !Admits(RowEntry(JArr(items)).value)
  {
    var row := JArr(items);
    assert Members(row, SURAH_ALIASES)[0] == None;
  }

  /** In shape 2a, a key "s:a" built from two integers yields those integers'
      decimal keys, and a key without a colon yields no ayah, so its entry
      is dropped. */
  lemma ColonKeySplit(s: int, a: int, k: string)
    ensures SplitKey(IntToString(s) + ":" + IntToString(a)) == (Some(JStr(IntToString(s))), Some(JStr(IntToString(a))))
    ensures !HasColon(k) ==> SplitKey(k).1.None?
  {
    var ps, pa := IntToString(s), IntToString(a);
    IntToStringDigits(s);
    IntToStringDigits(a);
    assert ':' !in ps by {
      forall i | 0 <= i < |ps| ensures ps[i] != ':' { }
    }
    assert ':' !in pa by {
      forall i | 0 <= i < |pa| ensures pa[i] != ':' { }
    }
    assert Join([ps, pa], [':']) == ps + ":" + pa by {
      assert [ps, pa][1..] == [pa];
    }
    SplitJoin([ps, pa], ':');
  }

  /** Shape 2c is reached only when shape 2b stored nothing: an object of
      "s:a" keys whose values are objects, without a wrapper member, is read
      as nested (surah key "s:a", ayah key the value's own key) as soon as
      one of those inner entries is admitted. */
  lemma NestedCatchesColonObjects(k: string, inner: seq<(string, Json)>, rest: seq<(string, Json)>, i: nat)
    requires HasColon(k)
    requires Unwrap(JObj([(k, JObj(inner))] + rest)) == JObj([(k, JObj(inner))] + rest)
    requires i < |NestedEntries([(k, JObj(inner))] + rest)| && Admits(NestedEntries([(k, JObj(inner))] + rest)[i])
    ensures Normalized(JObj([(k, JObj(inner))] + rest)) == PutAll(map[], NestedEntries([(k, JObj(inner))] + rest))
  {
    var fields := [(k, JObj(inner))] + rest;
    var nested := PutAll(map[], NestedEntries(fields));
    assert nested != map[] by {
      PutAllHasKey(map[], NestedEntries(fields), i);
    }
  }

  /** The file `{"s:a": {"text": t}}` for integers `s`, `a`. */
  function ColonObjectFile(s: int, a: int, t: string): Json {
    JObj([(IntToString(s) + ":" + IntToString(a), JObj([("text", JStr(t))]))])
  }

  /** As written, a file of "s:a" keys whose values are objects carrying
      the text is caught by shape 2b: the text is stored under the whole
      key "s:a" as surah key and "text" as ayah key, so `getTafsir(s, a)`
      finds nothing. */
  lemma ColonObjectMisread(s: int, a: int, t: string)
    requires Trim(t) != ""
    ensures GetTafsir(Some(Normalized(ColonObjectFile(s, a, t))), s, a) == None
    ensures Lookup(Normalized(ColonObjectFile(s, a, t)), StripZeros(IntToString(s) + ":" + IntToString(a)), "text")
            == Some(Trim(t))
  {
    var k := IntToString(s) + ":" + IntToString(a);
    var inner := [("text", JStr(t))];
    var e := Entry(Some(JStr(k)), Some(JStr("text")), Some(JStr(t)));
    ColonObjectParts(s, a, t);
    NestedCatchesColonObjects(k, inner, [], 0);
    assert PutAll(map[], [e]) == Put(map[], e) by {
      assert [e][..0] == [];
    }
    assert KeyOf(e.a.value) != IntToString(a) by {
      IntToStringDigits(a);
      assert KeyOf(e.a.value) == "text";
    }
    PutLookup(map[], e, IntToString(s), IntToString(a));
    PutLookup(map[], e, StripZeros(k), "text");
  }

  /** What shape 2b sees in `ColonObjectFile(s, a, t)`: a first key with a
      colon, no wrapper, and one admitted entry, surah key "s:a" and ayah
      key "text". */
  lemma ColonObjectParts(s: int, a: int, t: string)
    requires Trim(t) != ""
    ensures var k := IntToString(s) + ":" + IntToString(a);
      var fields := [(k, JObj([("text", JStr(t))]))] + [];
      var e := Entry(Some(JStr(k)), Some(JStr("text")), Some(JStr(t)));
      && fields == ColonObjectFile(s, a, t).fields
      && HasColon(k) && Unwrap(JObj(fields)) == JObj(fields)
      && NestedEntries(fields) == [e] && Admits(e)
  {
    var k := IntToString(s) + ":" + IntToString(a);
    var fields := [(k, JObj([("text", JStr(t))]))];
    assert fields + [] == fields;
    ColonKeyHasColon(s, a);
    ColonKeyUnwrapped(k, JObj([("text", JStr(t))]));
    assert fields[..0] == [];
  }

  /** A one-key object whose key holds a colon has no wrapper member. */
  lemma ColonKeyUnwrapped(k: string, v: Json)
    requires ':' in k
    ensures Unwrap(JObj([(k, v)])) == JObj([(k, v)])
  {
    forall w | w in WRAPPERS ensures k != w {
      assert ':' !in w;
    }
    assert Members(JObj([(k, v)]), WRAPPERS)[3] == None;
  }

  /** `s:a` built from two integers holds a colon. */
  lemma ColonKeyHasColon(s: int, a: int)
    ensures HasColon(IntToString(s) + ":" + IntToString(a))
  {
    assert (IntToString(s) + ":" + IntToString(a))[|IntToString(s)|] == ':';
  }

  /** `normalizeTafsir` with the fallback for "s:a" keys with object values
      tested before the nested shape, as its comment intends; every other
      input is read as before. */
  function NormalizedIntended(raw: Json): Tafsir {
    if raw.JObj? && |raw.fields| > 0 && HasColon(raw.fields[0].0) && IsObjectType(raw.fields[0].1) then
      PutAll(map[], ColonObjectEntries(raw.fields))
    else Normalized(raw)
  }

  /** The corrected `normalizeTafsir`, as a method. */
  method NormalizeTafsirIntended(raw: Json) returns (out: Tafsir)
    ensures out == NormalizedIntended(raw)
  {
    if raw.JObj? && |raw.fields| > 0 && HasColon(raw.fields[0].0) && IsObjectType(raw.fields[0].1) {
      out := PutEach(map[], ColonObjectEntries(raw.fields));
    } else {
      out := NormalizeTafsir(raw);
    }
  }

  /** With the correction, a file of "s:a" keys with text objects is read
      back by `getTafsir` under the surah and the ayah of each key. */
  lemma ColonObjectRead(s: int, a: int, t: string)
    requires Trim(t) != ""
    ensures GetTafsir(Some(NormalizedIntended(ColonObjectFile(s, a, t))), s, a) == Some(Trim(t))
  {
    var e := Entry(Some(JStr(IntToString(s))), Some(JStr(IntToString(a))), Some(JStr(t)));
    assert NormalizedIntended(ColonObjectFile(s, a, t)) == Put(map[], e) by {
      ColonObjectIntended(s, a, t);
      assert [e][..0] == [];
    }
    IntKeyStripped(s);
    IntKeyStripped(a);
    PutLookup(map[], e, IntToString(s), IntToString(a));
  }

  /** The corrected reading takes one entry from `ColonObjectFile(s, a, t)`:
      surah `s`, ayah `a`, the text member. */
  lemma ColonObjectIntended(s: int, a: int, t: string)
    ensures NormalizedIntended(ColonObjectFile(s, a, t))
            == PutAll(map[], [Entry(Some(JStr(IntToString(s))), Some(JStr(IntToString(a))), Some(JStr(t)))])
  {
    var k := IntToString(s) + ":" + IntToString(a);
    var fields := [(k, JObj([("text", JStr(t))]))];
    ColonKeySplit(s, a, k);
    ColonKeyHasColon(s, a);
    assert Members(fields[0].1, COLON_TEXT_ALIASES)[0] == Some(JStr(t));
  }

  /** The corrected reading is well formed too. */
  lemma NormalizedIntendedWellFormed(raw: Json)
    ensures WellFormed(NormalizedIntended(raw))
  {
    if raw.JObj? && |raw.fields| > 0 && HasColon(raw.fields[0].0) && IsObjectType(raw.fields[0].1) {
      PutAllWellFormed(map[], ColonObjectEntries(raw.fields));
    } else {
      NormalizedWellFormed(raw);
    }
  }

  // ---------------------------------------------------------------------
  // getTafsir
  // ---------------------------------------------------------------------

  /** `getTafsir(obj, s, a)`: the text under `String(s)` and `String(a)`, or
      null when the commentary is missing, the keys are absent or the text
      is empty. */
  function GetTafsir(t: Option<Tafsir>, surahNo: int, ayahNo: int): (r: Option<string>)
    ensures r.Some? <==>
      t.Some? && Lookup(t.value, IntToString(surahNo), IntToString(ayahNo)).Some?
      && Lookup(t.value, IntToString(surahNo), IntToString(ayahNo)).value != ""
    ensures r.Some? ==> r == Lookup(t.value, IntToString(surahNo), IntToString(ayahNo))
  {
    if t.None? then None
    else
      var v := Lookup(t.value, IntToString(surahNo), IntToString(ayahNo));
      if v.Some? && v.value != "" then v else None
  }

  /** On a well-formed commentary `getTafsir` is exactly the lookup under
      the decimal keys: present texts are never empty. */
  lemma GetTafsirWellFormed(t: Tafsir, surahNo: int, ayahNo: int)
    requires WellFormed(t)
    ensures GetTafsir(Some(t), surahNo, ayahNo) == Lookup(t, IntToString(surahNo), IntToString(ayahNo))
  {
  }

  /** Put, then get: an admitted entry with integer surah and ayah is read
      back by `getTafsir` with its trimmed text, whatever was stored
      before. */
  lemma PutThenGet(m: Tafsir, s: int, a: int, text: Option<Json>)
    requires TextOf(text) != ""
    ensures GetTafsir(Some(Put(m, Entry(Some(JNum(s)), Some(JNum(a)), text))), s, a) == Some(TextOf(text))
  {
    var e := Entry(Some(JNum(s)), Some(JNum(a)), text);
    assert KeyOf(JNum(s)) == IntToString(s) by { IntKeyStripped(s); }
    assert KeyOf(JNum(a)) == IntToString(a) by { IntKeyStripped(a); }
    PutLookup(m, e, IntToString(s), IntToString(a));
  }
}
