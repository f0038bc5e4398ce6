/**
 * `normArabic`: the text normaliser applied both to every stored verse and to
 * every query, so that spelling variants and optional marks compare equal.
 * Each regular-expression replacement of the source is one function here,
 * applied in the same order.
 */
module ArabicText {
  import opened Js

  predicate InRange(c: char, lo: int, hi: int) {
    lo <= c as int <= hi
  }

  /** The marks removed first: U+064B..U+065F (vowel signs), U+0610..U+061A
      and U+06D6..U+06ED (Quranic annotation signs). */
  predicate IsMark(c: char) {
    InRange(c, 0x064B, 0x065F) || InRange(c, 0x0610, 0x061A) || InRange(c, 0x06D6, 0x06ED)
  }

  const ALEF: char := '\U{0627}'
  const ALEF_MADDA: char := '\U{0622}'
  const ALEF_HAMZA_ABOVE: char := '\U{0623}'
  const ALEF_HAMZA_BELOW: char := '\U{0625}'
  const ALEF_WASLA: char := '\U{0671}'
  const ALEF_MAKSURA: char := '\U{0649}'
  const YEH: char := '\U{064A}'
  const YEH_HAMZA: char := '\U{0626}'
  const WAW: char := '\U{0648}'
  const WAW_HAMZA: char := '\U{0624}'
  const TEH_MARBUTA: char := '\U{0629}'
  const HEH: char := '\U{0647}'

  predicate IsAlefVariant(c: char) {
    c == ALEF_WASLA || c == ALEF_HAMZA_ABOVE || c == ALEF_HAMZA_BELOW || c == ALEF_MADDA
  }

  /** The letters that the folding steps replace by another letter. */
  predicate IsFoldedAway(c: char) {
    IsAlefVariant(c) || c == ALEF_MAKSURA || c == WAW_HAMZA || c == YEH_HAMZA || c == TEH_MARBUTA
  }

  predicate IsArabicBlock(c: char) {
    InRange(c, 0x0600, 0x06FF)
  }

  /** The class `[؀-ۿ0-9\s]`; everything else is masked. */
  predicate IsKeptClass(c: char) {
    IsArabicBlock(c) || IsDigit(c) || IsSpace(c)
  }

  /** A character that may appear in normalised text. */
  predicate IsNormalChar(c: char) {
    c == ' ' || IsDigit(c) || (IsArabicBlock(c) && !IsMark(c) && !IsFoldedAway(c))
  }

  /** The shape of every output of `NormArabic`: only normal characters, the
      space as the one separator, never doubled, never at either end. */
  predicate IsNormal(s: string) {
    && (forall k :: 0 <= k < |s| ==> IsNormalChar(s[k]))
    && (|s| > 0 ==> s[0] != ' ' && s[|s| - 1] != ' ')
    && (forall k :: 0 <= k < |s| - 1 ==> !(s[k] == ' ' && s[k + 1] == ' '))
  }

  /** `s.replace(/[class]/g, "")`. */
  function RemoveWhere(s: string, p: char -> bool): (r: string)
    ensures |r| <= |s|
    ensures forall k :: 0 <= k < |r| ==> !p(r[k])
  {
    if |s| == 0 then []
    else if p(s[0]) then RemoveWhere(s[1..], p)
    else [s[0]] + RemoveWhere(s[1..], p)
  }

  /** A removal whose class matches nothing leaves the string alone. */
  lemma {:induction false} RemoveNothing(s: string, p: char -> bool)
    requires forall k :: 0 <= k < |s| ==> !p(s[k])
    ensures RemoveWhere(s, p) == s
  {
    if |s| > 0 {
      RemoveNothing(s[1..], p);
    }
  }

  /** `s.replace(/[class]/g, sub)` with a one-character replacement. */
  function ReplaceWhere(s: string, p: char -> bool, sub: char): (r: string)
    ensures |r| == |s|
  {
    seq(|s|, k requires 0 <= k < |s| => if p(s[k]) then sub else s[k])
  }

  function StripMarks(s: string): string {
    RemoveWhere(s, IsMark)
  }

  function FoldAlef(s: string): string {
    ReplaceWhere(s, IsAlefVariant, ALEF)
  }

  function FoldAlefMaksura(s: string): string {
    ReplaceWhere(s, c => c == ALEF_MAKSURA, YEH)
  }

  function FoldWawHamza(s: string): string {
    ReplaceWhere(s, c => c == WAW_HAMZA, WAW)
  }

  function FoldYehHamza(s: string): string {
    ReplaceWhere(s, c => c == YEH_HAMZA, YEH)
  }

  function FoldTehMarbuta(s: string): string {
    ReplaceWhere(s, c => c == TEH_MARBUTA, HEH)
  }

  function MaskForeign(s: string): string {
    ReplaceWhere(s, c => !IsKeptClass(c), ' ')
  }

  /** `s.replace(/\s+/g, " ")`: every maximal run of whitespace becomes one
      space; the other characters stay, in order. */
  function CollapseSpaces(s: string): (r: string)
    ensures |s| == 0 <==> |r| == 0
    ensures |s| > 0 ==> r[0] == if IsSpace(s[0]) then ' ' else s[0]
    ensures forall k :: 0 <= k < |r| ==> r[k] == ' ' || !IsSpace(r[k])
    ensures forall k :: 0 <= k < |r| - 1 ==> !(r[k] == ' ' && r[k + 1] == ' ')
    decreases |s|
  {
    if |s| == 0 then []
    else if IsSpace(s[0]) then [' '] + CollapseSpaces(TrimStart(s[1..]))
    else [s[0]] + CollapseSpaces(s[1..])
  }

  /** Collapsing invents no character other than the space: a class that
      holds for every non-space input character holds for every non-space
      output character. */
  lemma {:induction false} CollapseKeeps(s: string, p: char -> bool)
    requires forall k :: 0 <= k < |s| ==> IsSpace(s[k]) || p(s[k])
    ensures forall k :: 0 <= k < |CollapseSpaces(s)| ==> CollapseSpaces(s)[k] == ' ' || p(CollapseSpaces(s)[k])
    decreases |s|
  {
    if |s| > 0 {
      if IsSpace(s[0]) {
        var t := TrimStart(s[1..]);
        TrimStartIsSuffix(s[1..]);
        assert forall k :: 0 <= k < |t| ==> t[k] == s[1..][|s[1..]| - |t| + k];
        CollapseKeeps(t, p);
      } else {
        CollapseKeeps(s[1..], p);
      }
    }
  }

  /** `normArabic`: strip the marks, fold the letter variants, mask every
      character outside the Arabic block, the ASCII digits and whitespace,
      collapse whitespace runs and trim. */
  function NormArabic(s: string): string {
    Trim(CollapseSpaces(MaskForeign(FoldTehMarbuta(FoldYehHamza(FoldWawHamza(
      FoldAlefMaksura(FoldAlef(StripMarks(s)))))))))
  }

  /** After the marks are stripped and the letters folded, no character is a
      mark or a folded-away letter. */
  lemma FoldedClean(s: string)
    ensures var f := FoldTehMarbuta(FoldYehHamza(FoldWawHamza(FoldAlefMaksura(FoldAlef(StripMarks(s))))));
      forall k :: 0 <= k < |f| ==> !IsMark(f[k]) && !IsFoldedAway(f[k])
  {
    var t1 := StripMarks(s);
    var t2 := FoldAlef(t1);
    var t3 := FoldAlefMaksura(t2);
    var t4 := FoldWawHamza(t3);
    var t5 := FoldYehHamza(t4);
    var t6 := FoldTehMarbuta(t5);
    assert forall k :: 0 <= k < |t2| ==> !IsMark(t2[k]) && !IsAlefVariant(t2[k]);
    assert forall k :: 0 <= k < |t3| ==> !IsMark(t3[k]) && !IsAlefVariant(t3[k]) && t3[k] != ALEF_MAKSURA;
    assert forall k :: 0 <= k < |t4| ==> !IsMark(t4[k]) && !IsAlefVariant(t4[k]) && t4[k] != ALEF_MAKSURA
                                         && t4[k] != WAW_HAMZA;
    assert forall k :: 0 <= k < |t5| ==> !IsMark(t5[k]) && !IsAlefVariant(t5[k]) && t5[k] != ALEF_MAKSURA
                                         && t5[k] != WAW_HAMZA && t5[k] != YEH_HAMZA;
  }

  /** Every result of `NormArabic` has the normal shape: only Arabic-block
      letters (no marks, no folded variants), ASCII digits and single inner
      spaces. */
  lemma NormArabicIsNormal(s: string)
    ensures IsNormal(NormArabic(s))
  {
    var m := Mapped(s);
    MappedClean(s);
    CollapseKeeps(m, IsNormalChar);
    TrimNormal(CollapseSpaces(m));
    assert NormArabic(s) == Trim(CollapseSpaces(m));
  }

  /** Before whitespace is collapsed, every character is whitespace or
      already normal. */
  lemma MappedClean(s: string)
    ensures forall k :: 0 <= k < |Mapped(s)| ==> IsSpace(Mapped(s)[k]) || IsNormalChar(Mapped(s)[k])
  {
    var f := FoldTehMarbuta(FoldYehHamza(FoldWawHamza(FoldAlefMaksura(FoldAlef(StripMarks(s))))));
    FoldedClean(s);
    assert Mapped(s) == MaskForeign(f);
  }

  /** Trimming text made of normal characters and single spaces gives
      normal text. */
  lemma TrimNormal(c: string)
    requires forall k :: 0 <= k < |c| ==> c[k] == ' ' || IsNormalChar(c[k])
    requires forall k :: 0 <= k < |c| - 1 ==> !(c[k] == ' ' && c[k + 1] == ' ')
    ensures IsNormal(Trim(c))
  {
    var r := Trim(c);
    var i, j := TrimSlice(c);
    forall k | 0 <= k < |r| ensures IsNormalChar(r[k]) {
      assert r[k] == c[i + k];
    }
    forall k | 0 <= k < |r| - 1 ensures !(r[k] == ' ' && r[k + 1] == ' ') {
      assert r[k] == c[i + k] && r[k + 1] == c[i + k + 1];
    }
  }

  /** Collapsing leaves alone a string whose only whitespace is single spaces. */
  lemma {:induction false} CollapseFixed(s: string)
    requires forall k :: 0 <= k < |s| ==> s[k] == ' ' || !IsSpace(s[k])
    requires forall k :: 0 <= k < |s| - 1 ==> !(s[k] == ' ' && s[k + 1] == ' ')
    ensures CollapseSpaces(s) == s
    decreases |s|
  {
    if |s| > 0 {
      if IsSpace(s[0]) {
        assert TrimStart(s[1..]) == s[1..];
      }
      CollapseFixed(s[1..]);
    }
  }

  /** A replacement whose class matches nothing leaves the string alone. */
  lemma ReplaceNothing(s: string, p: char -> bool, sub: char)
    requires forall k :: 0 <= k < |s| ==> !p(s[k])
    ensures ReplaceWhere(s, p, sub) == s
  {
    assert forall k :: 0 <= k < |s| ==> ReplaceWhere(s, p, sub)[k] == s[k];
  }

  /** Normal characters pass through every mapping step unchanged. */
  lemma MappedFixed(s: string)
    requires forall k :: 0 <= k < |s| ==> IsNormalChar(s[k])
    ensures Mapped(s) == s
  {
    assert StripMarks(s) == s by { RemoveNothing(s, IsMark); }
    assert FoldAlef(s) == s by { ReplaceNothing(s, IsAlefVariant, ALEF); }
    assert FoldAlefMaksura(s) == s by { ReplaceNothing(s, c => c == ALEF_MAKSURA, YEH); }
    assert FoldWawHamza(s) == s by { ReplaceNothing(s, c => c == WAW_HAMZA, WAW); }
    assert FoldYehHamza(s) == s by { ReplaceNothing(s, c => c == YEH_HAMZA, YEH); }
    assert FoldTehMarbuta(s) == s by { ReplaceNothing(s, c => c == TEH_MARBUTA, HEH); }
    assert MaskForeign(s) == s by { ReplaceNothing(s, c => !IsKeptClass(c), ' '); }
  }

  /** Normalised text is a fixed point of every step of the pipeline. */
  lemma NormalIsFixed(s: string)
    requires IsNormal(s)
    ensures NormArabic(s) == s
  {
    MappedFixed(s);
    assert CollapseSpaces(s) == s by { CollapseFixed(s); }
    assert NormArabic(s) == Trim(CollapseSpaces(Mapped(s)));
    TrimUnchanged(s);
  }

  /** `normArabic` is idempotent: normalising twice is normalising once. */
  lemma NormArabicIdempotent(s: string)
    ensures NormArabic(NormArabic(s)) == NormArabic(s)
  {
    NormArabicIsNormal(s);
    NormalIsFixed(NormArabic(s));
  }

  // ---------------------------------------------------------------------
  // What the pipeline keeps
  // ---------------------------------------------------------------------

  /** Removal works character by character: removing from a concatenation
      is removing from each part, and a single character is kept exactly
      when it is outside the class. */
  lemma {:induction false} RemoveWhereAppend(a: string, b: string, p: char -> bool)
    ensures RemoveWhere(a + b, p) == RemoveWhere(a, p) + RemoveWhere(b, p)
    ensures |a| == 1 ==> RemoveWhere(a, p) == if p(a[0]) then [] else a
    decreases |a|
  {
    if |a| == 0 {
      assert a + b == b;
    } else {
      assert (a + b)[0] == a[0] && (a + b)[1..] == a[1..] + b;
      RemoveWhereAppend(a[1..], b, p);
    }
  }

  /** Removing a class from text made only of that class leaves nothing. */
  lemma {:induction false} RemoveAll(s: string, p: char -> bool)
    requires forall k :: 0 <= k < |s| ==> p(s[k])
    ensures RemoveWhere(s, p) == []
    decreases |s|
  {
    if |s| > 0 {
      RemoveAll(s[1..], p);
    }
  }

  /** Replacement works character by character: replacing in a
      concatenation is replacing in each part. */
  lemma ReplaceWhereAppend(a: string, b: string, p: char -> bool, sub: char)
    ensures ReplaceWhere(a + b, p, sub) == ReplaceWhere(a, p, sub) + ReplaceWhere(b, p, sub)
  {
    var l, r := ReplaceWhere(a + b, p, sub), ReplaceWhere(a, p, sub) + ReplaceWhere(b, p, sub);
    forall k | 0 <= k < |l| ensures l[k] == r[k] {
      if k < |a| {
        assert (a + b)[k] == a[k];
      } else {
        assert (a + b)[k] == b[k - |a|];
      }
    }
  }

  /** Collapsing keeps the non-whitespace characters, in order: only the
      whitespace runs change. */
  lemma {:induction false} CollapseContent(s: string)
    ensures RemoveWhere(CollapseSpaces(s), IsSpace) == RemoveWhere(s, IsSpace)
    decreases |s|
  {
    if |s| > 0 {
      if IsSpace(s[0]) {
        var rest := s[1..];
        var t := TrimStart(rest);
        var n := |rest| - |t|;
        TrimStartIsSuffix(rest);
        assert rest == rest[..n] + t;
        RemoveAll(rest[..n], IsSpace);
        RemoveWhereAppend(rest[..n], t, IsSpace);
        CollapseContent(t);
        RemoveWhereAppend([' '], CollapseSpaces(t), IsSpace);
      } else {
        CollapseContent(s[1..]);
        RemoveWhereAppend([s[0]], CollapseSpaces(s[1..]), IsSpace);
      }
    }
  }

  /** Collapsing a concatenation: the collapse of the first part is a prefix
      of the result, and the collapse of the second part is a suffix of it
      (a whitespace run across the boundary becomes one space). */
  lemma {:induction false} CollapseSplit(a: string, b: string) returns (pre: string)
    ensures CollapseSpaces(a) <= CollapseSpaces(a + b)
    ensures CollapseSpaces(a + b) == pre + CollapseSpaces(b)
    decreases |a|
  {
    if |a| == 0 {
      assert a + b == b;
      pre := [];
    } else {
      assert (a + b)[0] == a[0] && (a + b)[1..] == a[1..] + b;
      if !IsSpace(a[0]) {
        var p := CollapseSplit(a[1..], b);
        pre := [a[0]] + p;
      } else {
        TrimStartAppend(a[1..], b);
        if !AllSpace(a[1..]) {
          var p := CollapseSplit(TrimStart(a[1..]), b);
          pre := [' '] + p;
        } else if |b| > 0 && IsSpace(b[0]) {
          pre := [];
        } else {
          pre := [' '];
        }
      }
    }
  }

  /** The collapse of a middle part occurs in the collapse of the whole. */
  lemma CollapseInfix(x: string, y: string, z: string)
    ensures Includes(CollapseSpaces(x + y + z), CollapseSpaces(y))
  {
    var pre := CollapseSplit(x, y);
    var _ := CollapseSplit(x + y, z);
    var whole, xy, cy := CollapseSpaces(x + y + z), CollapseSpaces(x + y), CollapseSpaces(y);
    forall k | 0 <= k < |cy| ensures whole[|pre| + k] == cy[k] {
      assert whole[|pre| + k] == xy[|pre| + k];
    }
    assert whole[|pre|..|pre| + |cy|] == cy;
    assert OccursAt(whole, cy, |pre|);
  }

  /** The character-by-character steps of `normArabic`: mark removal, the
      five folds and the mask. */
  function Mapped(s: string): string {
    MaskForeign(FoldTehMarbuta(FoldYehHamza(FoldWawHamza(FoldAlefMaksura(FoldAlef(StripMarks(s)))))))
  }

  /** The character steps distribute over concatenation. */
  lemma MappedAppend(a: string, b: string)
    ensures Mapped(a + b) == Mapped(a) + Mapped(b)
  {
    RemoveWhereAppend(a, b, IsMark);
    var a1, b1 := StripMarks(a), StripMarks(b);
    ReplaceWhereAppend(a1, b1, IsAlefVariant, ALEF);
    var a2, b2 := FoldAlef(a1), FoldAlef(b1);
    ReplaceWhereAppend(a2, b2, c => c == ALEF_MAKSURA, YEH);
    var a3, b3 := FoldAlefMaksura(a2), FoldAlefMaksura(b2);
    ReplaceWhereAppend(a3, b3, c => c == WAW_HAMZA, WAW);
    var a4, b4 := FoldWawHamza(a3), FoldWawHamza(b3);
    ReplaceWhereAppend(a4, b4, c => c == YEH_HAMZA, YEH);
    var a5, b5 := FoldYehHamza(a4), FoldYehHamza(b4);
    ReplaceWhereAppend(a5, b5, c => c == TEH_MARBUTA, HEH);
    var a6, b6 := FoldTehMarbuta(a5), FoldTehMarbuta(b5);
    ReplaceWhereAppend(a6, b6, c => !IsKeptClass(c), ' ');
  }

  /** Trimming keeps the non-whitespace characters, in order. */
  lemma TrimContent(c: string)
    ensures RemoveWhere(Trim(c), IsSpace) == RemoveWhere(c, IsSpace)
  {
    var i, j := TrimSlice(c);
    assert c == c[..i] + c[i..j] + c[j..];
    RemoveAll(c[..i], IsSpace);
    RemoveAll(c[j..], IsSpace);
    RemoveWhereAppend(c[..i] + c[i..j], c[j..], IsSpace);
    RemoveWhereAppend(c[..i], c[i..j], IsSpace);
  }

  /** `normArabic` keeps the non-whitespace characters of the stripped,
      folded and masked text, in order: collapsing and trimming only change
      whitespace. */
  lemma NormArabicContent(s: string)
    ensures RemoveWhere(NormArabic(s), IsSpace) == RemoveWhere(Mapped(s), IsSpace)
  {
    var m := Mapped(s);
    assert NormArabic(s) == Trim(CollapseSpaces(m));
    CollapseContent(m);
    TrimContent(CollapseSpaces(m));
  }

  /** `normArabic` respects substrings: when `t` occurs in a text, the
      normalised `t` occurs in the normalised text. Queries and verses go
      through the same function, so a query that occurs in a verse's raw
      text is found in its normalised text. */
  lemma NormArabicInfix(u: string, t: string, w: string)
    ensures Includes(NormArabic(u + t + w), NormArabic(t))
  {
    assert Mapped(u + t + w) == Mapped(u) + Mapped(t) + Mapped(w) by {
      MappedAppend(u + t, w);
      MappedAppend(u, t);
    }
    CollapseInfix(Mapped(u), Mapped(t), Mapped(w));
    TrimInfix(CollapseSpaces(Mapped(u + t + w)), CollapseSpaces(Mapped(t)));
  }
}
