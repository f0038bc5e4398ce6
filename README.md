# Offline Quran search page: a Dafny model of its core

The page (`app.js`) loads a Quran corpus, builds a search index of normalised
verse texts, and answers Arabic queries with a two-tier search. When a verse
is chosen, it shows that verse with its neighbours (two before, seven after),
an English line aligned by position, and the text of a selected commentary
(tafsir). Commentary files arrive in several JSON shapes, and one normaliser
turns them all into a `{surah: {ayah: text}}` map.

This project models that core in Dafny and proves what it promises:

- **`Js`** (`js.dfy`) holds the JavaScript runtime behaviour the core relies on:
  - JSON values, and `?.` / `??` member access;
  - `trim` over the `\s` class, `split` and `includes`;
  - `String()` of integers, which is proved injective.
- **`ArabicText`** (`arabic.dfy`) models `normArabic` as a pipeline of replacements. Its output is normal: no marks, no folded letters, only Arabic, digits and single inner spaces, and trimmed. `normArabic` is idempotent. It keeps every non-whitespace character of the mapped text, in order. It also respects substrings: a passage of a verse, normalised on its own, occurs in the normalised verse. That is the symmetry that lets a query normalised like the index find the verses that contain it (`Search.RawInfixMatches`).
- **`Corpus`** (`corpus.dfy`) holds the verse records and `Flatten`, the specification of `buildIndex`: one record per ayah, surah by surah, each record carrying the normalised text.
- **`Search`** (`search.dfy`) models `searchText`:
  - the short tier: the first 25 matches in index order;
  - query terms: split, trimmed, longer than one character, deduplicated in first-occurrence order;
  - the anchor: the first longest term;
  - the filter and the score of the long tier;
  - the stable descending sort, proved sorted, a permutation, and order-preserving within each score;
  - the cut to 60 results.
- **`Tafsir`** (`tafsir.dfy`) models `normalizeTafsir`. It covers `put`, the array shape, the `"s:a"` shapes and the nested shape with wrappers, and `getTafsir`. Every normalised commentary is well formed: keys without leading zeros, and non-empty, trimmed texts. Lookups return the text of the last `put` for that key.
- **`English`** (`english.dfy`) models `buildEnglishMap`, the positional alignment of the translation lines onto the corpus order.
- **`Context`** (`context.dfy`) models the window arithmetic and the lines of `showAyahContext`.
- **`App`** (`page.dfy`) is the page's global state as a class `Page`, with these members:
  - the fields `QURAN`, `INDEX`, `CURRENT`, `TAFSIRS` and `EN_MAP`;
  - the loaders, `setPrimaryAyah` and the two `onchange` handlers;
  - `loadOne`'s rule that a commentary is registered only when it normalises to something non-empty.

The context window is clipped at the surah's edges and recomputed on every selection (`app.js:264-265`), as `Context.WindowBounds` and `Context.WindowFull` state; it does not shift to keep ten verses. The code raises no error for a malformed corpus, and the model adds none.

## Model

| member | source | states |
|---|---|---|
| Js.Trim | app.js:43 | the result has no leading or trailing `\s` character and is no longer than the input; its content is stated by `Js.TrimSlice` |
| Js.TrimSlice | app.js:43 | `trim()` returns a slice `s[i..j]` of its input, and every character before i and from j on is `\s` whitespace |
| Js.TrimStartAppend | app.js:43 | trimming the start of `a + b` trims only `a` when `a` holds a non-whitespace character, and otherwise drops `a` entirely |
| Js.TrimInfix | app.js:43 | whatever occurs in a text occurs, trimmed, in the trimmed text |
| Js.TrimIdempotent | app.js:43 | trimming twice is trimming once |
| Js.TrimUnchanged | app.js:43 | a string with no surrounding whitespace is its own trim |
| Js.TrimStartIsSuffix | app.js:43 | trimming the start leaves a suffix of the input |
| Js.TrimEndIsPrefix | app.js:43 | trimming the end leaves a prefix of the input |
| Js.Split | app.js:209 | `split(sep)`: at least one piece, no piece contains the separator, joining the pieces with the separator gives back the input, and a string without the separator is one piece |
| Js.SplitJoin | app.js:120 | splitting what was joined from separator-free pieces gives back the pieces |
| Js.NatToStringDigits | app.js:87 | `String(n)` of a natural number is all digits, with no leading zero unless n is 0, and a single digit exactly when n < 10 |
| Js.IntToStringDigits | app.js:87 | `String(n)` of an integer is digits, with a leading `-` exactly when n < 0 |
| Js.NatToStringInjective | app.js:181-184 | different natural numbers have different decimal strings |
| Js.IntToStringInjective | app.js:181-184 | different integers have different decimal strings, so keys made with `String(n)` identify the number |
| Js.Get | app.js:101-103 | a property read finds nothing exactly when no field has that key, and otherwise returns the value of a field with that key |
| Js.Coalesce | app.js:101-103 | the result of a `??` chain is one of its operands |
| ArabicText.RemoveWhere | app.js:35 | the removal keeps none of the removed characters and never lengthens the text; `ArabicText.RemoveWhereAppend` states that it keeps every other character, in order |
| ArabicText.RemoveWhereAppend | app.js:35 | removal distributes over concatenation, and a single character is kept exactly when it is outside the class |
| ArabicText.RemoveAll | app.js:35 | removing a class from text made only of that class leaves nothing |
| ArabicText.ReplaceWhereAppend | app.js:36-41 | replacement distributes over concatenation |
| ArabicText.RemoveNothing | app.js:35 | removing a class the text does not contain changes nothing |
| ArabicText.ReplaceNothing | app.js:36-40 | replacing a class the text does not contain changes nothing |
| ArabicText.CollapseSpaces | app.js:42 | every whitespace run becomes exactly one space: no other whitespace remains, no two spaces are adjacent, and the text is empty exactly when the input is; `ArabicText.CollapseContent` states that the other characters stay, in order |
| ArabicText.CollapseContent | app.js:42 | without its whitespace, the collapsed text is the input without its whitespace: every other character stays, in order |
| ArabicText.CollapseSplit | app.js:42 | the collapse of a concatenation starts with the collapse of its first part and ends with the collapse of its second |
| ArabicText.CollapseInfix | app.js:42 | the collapse of a middle part occurs in the collapse of the whole |
| ArabicText.CollapseKeeps | app.js:41-42 | collapsing spaces adds no character beyond a space |
| ArabicText.CollapseFixed | app.js:42 | text already free of runs and other whitespace is unchanged by the collapse |
| ArabicText.FoldedClean | app.js:35-40 | after the mark removal and the five letter folds, no mark and no folded-away letter remains |
| ArabicText.NormArabicIsNormal | app.js:33-44 | the output of `normArabic` has no marks, no folded letters, only Arabic-block characters, digits and single inner spaces, and no surrounding space |
| ArabicText.NormalIsFixed | app.js:33-44 | `normArabic` leaves normal text unchanged |
| ArabicText.NormArabicIdempotent | app.js:33-44 | `normArabic(normArabic(s)) == normArabic(s)` |
| ArabicText.MappedClean | app.js:35-41 | before the collapse, every character is whitespace or a normal character |
| ArabicText.TrimNormal | app.js:42-43 | trimming text of normal characters and single spaces gives normal text |
| ArabicText.MappedFixed | app.js:35-41 | normal characters pass through the mark removal, the folds and the mask unchanged |
| ArabicText.MappedAppend | app.js:35-41 | the character-by-character steps distribute over concatenation |
| ArabicText.TrimContent | app.js:43 | without its whitespace, the trimmed text is the input without its whitespace |
| ArabicText.NormArabicContent | app.js:33-44 | without its whitespace, the output of `normArabic` is the stripped, folded and masked input without its whitespace |
| ArabicText.NormArabicInfix | app.js:33-44 | for any text `u + t + w`, `normArabic(t)` occurs in `normArabic(u + t + w)`: a passage normalised alone is found in the normalised verse |
| Corpus.SurahRecords | app.js:69-76 | one record per ayah of the surah, carrying the surah's number, the ayah's number and the ayah's text |
| Corpus.FlattenLength | app.js:66-78 | the index has exactly one record per ayah of the corpus |
| Corpus.AyahCountMonotone | app.js:68-69 | the number of ayahs before a surah grows with the surah's position |
| Corpus.FlattenAt | app.js:66-78 | ayah j of surah i sits at position (ayahs before surah i) + j of the index |
| Corpus.FlattenPosition | app.js:66-78 | every index position is ayah j of some surah i, at offset (ayahs before i) + j |
| Corpus.FlattenNormalised | app.js:74 | every record's `textNorm` is `normArabic` of its `textRaw`, and is normal text |
| Search.Take | app.js:203 | `slice(0, n)`: a prefix of length min(n, length) |
| Search.ShortMatchesMembers | app.js:199-206 | a record is among the short-tier matches exactly when it is in the index and its normalised text contains the query |
| Search.ShortMatchesPrefix | app.js:201-203 | scanning a prefix of the index yields a prefix of the matches, so the early `break` loses no earlier match |
| Search.ShortTier | app.js:199-206 | the loop with its early exit returns the first 25 matches in index order |
| Search.RawInfixMatches | app.js:199-206 | a verse whose raw text contains a passage t is among the short-tier matches of `normArabic(t)` |
| Search.ShortTierSpec | app.js:199-206 | the short tier returns min(25, matches) records, a prefix of the matches, each containing the query, and all of them when at most 25 match |
| Search.TrimAll | app.js:209 | every term is trimmed, one per piece |
| Search.FirstIndex | app.js:210 | the position of the first occurrence of a term, or the length when it is absent |
| Search.FirstIndexOfPrefix | app.js:210 | a first occurrence inside a prefix is the first occurrence in the whole list |
| Search.KeepLongMembers | app.js:209 | the filter keeps exactly the terms longer than one character |
| Search.DedupSpec | app.js:210 | `[...new Set(ts)]`: the same members, no repeats, in order of first occurrence |
| Search.LongDistinct | app.js:209-210 | the deduplicated long terms are exactly the long pieces, without repeats, in first-occurrence order |
| Search.TermsSpec | app.js:209-210 | the query terms are exactly the pieces of the query longer than one character, distinct, in first-occurrence order |
| Search.LongestIsFirstLongest | app.js:213 | the `reduce` keeps the first term of maximal length |
| Search.AnchorIsFirstLongest | app.js:213 | the anchor is a term no shorter than any other, and every earlier term is strictly shorter |
| Search.CountHits | app.js:219-222 | the loop counts the terms the text contains |
| Search.RatioTest | app.js:223-229 | `hits/terms.length < 0.5` fails exactly when twice the hits reach the number of terms |
| Search.ScoreRecord | app.js:217-241 | a record is kept exactly when it passes the filter (at least two hits and the anchor with three or more terms, otherwise a ratio of at least one half), and is scored ratio + 2.5 (whole query) + 1.5 (query without spaces) + 0.3 (anchor) |
| Search.ScoreAll | app.js:214-242 | the loop collects the survivors with their scores, in index order |
| Search.SurvivorsSpec | app.js:216-242 | every survivor is an admitted index record with its score, and every admitted record survives |
| Search.WithScoreAppend | app.js:244 | selecting one score distributes over concatenation |
| Search.WithScoreSingle | app.js:244 | selecting one score from a single result keeps it exactly when it has that score |
| Search.WithScoreNone | app.js:244 | a descending list whose first score is below v has no element of score v |
| Search.InsertDescPerm | app.js:244 | inserting into the sorted prefix adds exactly that element |
| Search.InsertDescSorted | app.js:244 | inserting keeps the list in non-increasing score order |
| Search.InsertDescStable | app.js:244 | inserting after all equal scores keeps the input order among equal scores |
| Search.SortDescSpec | app.js:244 | the sort is non-increasing by score, a permutation of its input, and stable: for every score, the elements with that score keep their input order |
| Search.WithScoreTake | app.js:245 | cutting the sorted list keeps, for each score, a prefix of the elements with that score |
| Search.LongTier | app.js:208-245 | the long tier computes terms, anchor, survivors, stable sort and the cut to 60 |
| Search.LongTierSpec | app.js:209-245 | nothing without terms; otherwise exactly min(60, survivors) results, the first ones of the stably sorted survivors, with non-increasing scores, each an admitted index record with its score, and the results of each score are the first survivors of that score in index order |
| Search.SortDescLength | app.js:244 | the sort keeps the number of elements |
| Search.Plains | app.js:205 | one short-tier hit per record, for that record, in order |
| Search.Rankeds | app.js:245 | one ranked hit per scored record, with that record and its score, in order |
| Search.SearchIndex | app.js:195-246 | nothing when the normalised query is shorter than 2, the short tier for 2-3 characters, the long tier from 4 |
| Tafsir.DropZeros | app.js:87-88 | `replace(/^0+/, "")`: only leading zeros are dropped, and the result does not start with 0 |
| Tafsir.StripZeros | app.js:87-88 | `... \|\| "0"`: the key has no leading zero unless it is exactly "0", and only leading zeros were removed |
| Tafsir.ZerosSuffix | app.js:87-88 | what `DropZeros` keeps is the rest of the key after its leading zeros, and `StripZeros` gives that rest or "0" |
| Tafsir.StrippedFixed | app.js:87-88 | stripping a stripped key changes nothing |
| Tafsir.IntKeyStripped | app.js:87-88 | the decimal key of an integer is already stripped, so `put` and `getTafsir` agree on integer keys |
| Tafsir.Put | app.js:84-92 | `put` with a missing surah, a missing ayah or an empty trimmed text leaves the map unchanged |
| Tafsir.PutLookup | app.js:84-92 | an admitted `put` adds its surah key, stores the trimmed text under the stripped keys, and changes no other lookup |
| Tafsir.PutAllLookup | app.js:84-92 | after a sequence of `put`s, a lookup returns the text of the last admitted `put` for that key, or the old value |
| Tafsir.PutAllNone | app.js:89 | `put`s that are all rejected change nothing |
| Tafsir.PutAllHasKey | app.js:90-91 | an admitted `put` leaves its surah key present after any later `put`s |
| Tafsir.PutAllSnoc | app.js:84-92 | one more `put` at the end of the loop |
| Tafsir.PutAllAppend | app.js:84-92 | two loops of `put`s are one loop over both |
| Tafsir.PutWellFormed | app.js:84-92 | `put` keeps the map well formed: stripped keys, no empty surah, non-empty trimmed texts |
| Tafsir.StoreWellFormed | app.js:90-91 | storing a good text under stripped keys keeps the map well formed |
| Tafsir.PutAllWellFormed | app.js:84-92 | any sequence of `put`s keeps the map well formed |
| Tafsir.ColonEntries | app.js:115-122 | shape 2a yields one `put` per key: entry i has the first two `:` pieces of key i as surah and ayah (no ayah when the key has no colon) and value i as text |
| Tafsir.ColonObjectEntries | app.js:140-149 | shape 2c yields one `put` per key: entry i has the first two `:` pieces of key i as surah and ayah and the first present alias of value i as text |
| Tafsir.InnerEntries | app.js:129-134 | one `put` per ayah key of a surah object: entry j has the surah key, ayah key j and value j |
| Tafsir.PutRow | app.js:96-105 | a row of at least three items is read positionally, another object through the alias lists, and a row of any other type is skipped |
| Tafsir.PutRows | app.js:94-108 | the array loop is the `put`s of the row entries in order |
| Tafsir.PutEach | app.js:116-121 | a loop of `put`s over a list of entries |
| Tafsir.PutNested | app.js:127-137 | the nested loop is the `put`s of every surah object's ayahs in order |
| Tafsir.NormalizeTafsir | app.js:81-155 | the normaliser as written: array shape, then 2a, then 2b with wrappers, then the 2c fallback, otherwise empty |
| Tafsir.NormalizedIsPutAll | app.js:81-155 | the result is the `put`s of the entries of the recognised shape, applied to an empty map |
| Tafsir.NormalizedWellFormed | app.js:81-155 | every normalised commentary is well formed |
| Tafsir.NormalizedLookup | app.js:81-155 | a lookup in the result returns the last admitted text for that key in the recognised shape |
| Tafsir.PutAllEmptyIff | app.js:89-91 | starting empty, the `put`s leave nothing exactly when none is admitted |
| Tafsir.NormalizedEmpty | app.js:367 | a file normalises to nothing exactly when its recognised shape has no admitted entry |
| Tafsir.TupleRowStored | app.js:96-98 | a row `[s, a, text, ...]` of integers and a text is stored under the decimal keys with the trimmed text |
| Tafsir.AliasNoFallThrough | app.js:102-104 | the first present alias wins even when its text is empty: `{text: "", tafsir: "x"}` is dropped |
| Tafsir.ShortArrayRowDropped | app.js:96-105 | an array row of fewer than three items has no alias members and is dropped |
| Tafsir.ColonKeySplit | app.js:120 | the key `"s:a"` of two integers splits into their decimal keys, and a key without a colon has no ayah |
| Tafsir.NestedCatchesColonObjects | app.js:124-138 | for a file whose first key holds a colon and an object, the nested shape answers whenever it admits an entry, so the 2c branch is not reached |
| Tafsir.ColonObjectMisread | app.js:124-149 | as written, `{"s:a": {"text": t}}` gives no commentary for ayah (s, a) and stores t under surah key "s:a", ayah key "text" |
| Tafsir.NormalizeTafsirIntended | app.js:113-149 | the normaliser with the 2c test made before the nested shape, the corrected order used by `App.Page.LoadTafsirIntended` |
| Tafsir.ColonObjectRead | app.js:140-149 | with that order, `{"s:a": {"text": t}}` gives commentary trim(t) for ayah (s, a) |
| Tafsir.NormalizedIntendedWellFormed | app.js:81-155 | the corrected normaliser's result is well formed as well |
| Tafsir.GetTafsir | app.js:157-160 | a text is returned exactly when a commentary is given and holds a non-empty text under the decimal keys, and it is that text |
| Tafsir.GetTafsirWellFormed | app.js:157-160 | on a well-formed commentary `getTafsir` is exactly the lookup under the decimal keys |
| Tafsir.PutThenGet | app.js:84-92 | `getTafsir` reads back the trimmed text of an admitted `put` with integer surah and ayah |
| English.Lines | app.js:169-174 | one item per file item: the file itself when its first item is a string, otherwise item k is `String(x?.text ?? "")` of file item k |
| English.LineTrimmed | app.js:185 | every aligned line is trimmed |
| English.TextsAt | app.js:185 | line i of the trimmed list is `(arr[i] ?? "").toString().trim()`, and "" past the end of the file |
| English.Ensure | app.js:182 | `out[sKey] ??= {}` makes the surah key present; the rest is stated by `English.EnsureSpec` |
| English.EnsureSpec | app.js:182 | `??=` adds exactly the surah key, keeps the map of a surah already present and starts a new surah with an empty map |
| English.AlignAyahsSnoc | app.js:183-187 | one more ayah of the inner loop |
| English.AlignSurahsSnoc | app.js:180-188 | one more surah of the outer loop, the counter continuing across surahs |
| English.FillAyahs | app.js:183-187 | the inner loop assigns the lines from the running counter and advances it by the surah's ayah count |
| English.BuildEnglishMap | app.js:163-190 | no file, no corpus, or a non-array file give the empty map; otherwise the positional alignment |
| English.AlignAyahsFrame | app.js:183-187 | the inner loop changes no entry outside the surah's ayahs |
| English.AlignAyahsAt | app.js:183-187 | ayah j of the surah gets line offset + j |
| English.AlignAyahsKeys | app.js:183-187 | the inner loop adds no surah key |
| English.AlignSurahsKeys | app.js:180-182 | the map's surah keys are exactly the corpus's surah numbers |
| English.AlignSurahsAt | app.js:179-188 | ayah j of surah i gets the line at position (ayahs before i) + j |
| English.EnglishMapAt | app.js:163-190 | the k-th ayah in corpus order gets the trimmed k-th line of the file, or "" past its end, an empty file included |
| English.AlignSurahsCut | app.js:185 | lines after the last ayah are never read |
| English.LinesPrefix | app.js:169-174 | the trimmed lines of a prefix of the file are the prefix of its trimmed lines |
| English.EnglishMapIgnoresExtra | app.js:179-188 | a file longer than the corpus gives the same map as its first lines |
| Context.WindowMembers | app.js:261-265 | a number is in the window exactly when it is between 1 and the ayah count, at most two below and seven above the chosen ayah |
| Context.WindowBounds | app.js:264-265 | for an ayah inside the surah, the window contains it, stays inside the surah and holds at most ten numbers |
| Context.WindowFull | app.js:264-265 | the window holds ten numbers exactly when the ayah is at least two from the start and seven from the end |
| Context.FindSurahFirst | app.js:257 | `find` returns the first surah with that number, and none only when no surah has it |
| Context.FindAyahFirst | app.js:277 | `find` returns the first ayah with that number, and none only when no ayah has it |
| Context.ShowAyahContext | app.js:256-306 | the loop over the window, skipping numbers that no ayah carries, builds the panel |
| Context.LineAt | app.js:276-303 | every line lies in the window, belongs to an existing ayah, shows that ayah's text and English line, and is active exactly when it is the chosen ayah |
| Context.LinesIncreasing | app.js:276-278 | the lines are in strictly increasing ayah order |
| Context.LinesComplete | app.js:276-278 | every number in the window that an ayah carries gets a line |
| Context.LinesCount | app.js:276-278 | at most one line per number |
| Context.OneActive | app.js:283 | at most one line is active, and it is the chosen ayah's |
| Context.ContextSpec | app.js:256-306 | every line lies between the header's bounds; for an ayah inside the surah, at most ten lines, with the chosen ayah shown as active |
| Context.ContextNone | app.js:257-258 | no panel exactly when no surah has the number |
| Context.EnglishOfSpec | app.js:286 | the English shown is the aligned line, or "" when there is none |
| App.Page.constructor | app.js:22-31 | before loading: nothing loaded, nothing selected, no commentary |
| App.Page.LoadCorpus | app.js:377-378 | the corpus is set and the index is its flattening; the rest is unchanged |
| App.Page.BuildIndex | app.js:66-78 | `INDEX` becomes one record per ayah of `QURAN`, in order |
| App.Page.PushSurah | app.js:69-76 | the inner loop appends the surah's records |
| App.Page.LoadEnglish | app.js:381-386 | `EN_MAP` is the aligned map, or null when the file failed to load |
| App.Page.LoadTafsir | app.js:363-373 | the commentary is registered, with its title and `normalizeTafsir` as written, exactly when the file loaded and normalises to a non-empty map; nothing else changes |
| App.Page.LoadTafsirIntended | app.js:363-373 | the same registration rule over the corrected normaliser of the Findings row |
| App.Page.TafsirText | app.js:326 | a text exactly when the selected commentary is registered and holds the ayah |
| App.Page.SetPrimaryAyah | app.js:249-253 | `CURRENT` becomes (s, a), and the context panel and commentary text are those of (s, a) |
| App.Page.OnLanguageChange | app.js:358-360 | with a selection, the context of the selection is redrawn; without one, nothing happens |
| App.Page.OnTafsirChange | app.js:354-356 | with a selection, the newly selected commentary's text for it is shown; without one, nothing happens |
| App.Page.SearchText | app.js:193-246 | nothing before the corpus is loaded; otherwise the two-tier search over the corpus's index |

## Left out

- Rendering is not modelled. That covers the DOM, HTML building, the three language modes' layout, the header texts, `SURAH_META` names, `scrollIntoView`, the animation and `renderResults`. The model keeps the data those functions show: the panel's bounds and lines, the result lists and the commentary text.
- `fetch`, `async` and the `try`/`catch` around loading are not modelled. A loaded file is its parsed JSON value, and a failed load is `None`. `init` (`app.js:375-397`) is not modelled as a sequence: its steps are the page's `LoadCorpus`, `LoadEnglish` and `LoadTafsir`, and nothing fixes the order in which they are called.
- `normalizeQuran` (`app.js:52-64`) is not part of this model. The corpus is given already as surahs of numbered ayahs.
- Scores are exact reals, not IEEE doubles. With at most a few dozen terms, the ratio and the three bonuses are all exact or compare the same way.
- Order of object keys: JSON objects are ordered field lists, and a property read takes the first field with the key. JavaScript's `Object.keys`, which puts integer-like keys first, and duplicate keys in a file are not modelled.
- JSON numbers are integers. `String()` of fractional or very large numbers is not modelled.
- `normArabic`'s `s || ""` guard against a missing text is not modelled. Verse texts are strings.
- `English.BuildEnglishMap`: the map is keyed by surah and ayah numbers, not by `String(n)`. The two agree because `Js.IntToStringInjective` proves that decimal strings identify integers.
- `Tafsir.Put`: the commentary is a map, not a plain `{}` object. Keys naming members of `Object.prototype` (`__proto__`, `constructor`, `toString`, ...) are stored like any other key. The source finds the inherited member at `out[ss] ??= {}`, so it creates no own key, loses the text and, for `__proto__`, writes onto the prototype itself; a file whose keys are all such names is then not registered by `loadOne` (`app.js:367`). `Tafsir.PutLookup`, `Tafsir.NormalizedLookup` and `App.Page.LoadTafsir` share this gap.
- `English.AlignSurahsAt` and `English.EnglishMapAt` both assume surah numbers and ayah numbers within a surah are distinct. With repeated numbers the source overwrites earlier lines, and these lemmas say nothing about that case.
- `Search.SearchIndex`: JavaScript's UTF-16 string length is modelled as the number of characters. For Arabic text the two agree.

## Findings

| source | as written | input that shows it | evidently intended | confidence | as-written member | corrected member |
|---|---|---|---|---|---|---|
| app.js:124-149 | The nested shape 2b runs before the `"s:a"` object fallback 2c. A file whose keys are `"s:a"` and whose values are objects is therefore read as nested: surah key `"s:a"`, ayah key `"text"`. For this shape the fallback is never reached whenever 2b stores an entry. | `{"1:1": {"text": "abc"}}`: `getTafsir(norm, 1, 1)` is null, and the text sits at `norm["1:1"]["text"]` | The fallback's comment names this shape, and it should be read as surah 1, ayah 1 with text "abc". | high, not executed | Tafsir.ColonObjectMisread | Tafsir.ColonObjectRead |
