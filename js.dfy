/**
 * The pieces of the JavaScript runtime that the page script relies on,
 * stated exactly: the whitespace class of `\s` and `String.prototype.trim`,
 * `split`, `includes`, `String(n)` for integers, `String(v)` for parsed JSON
 * values, property access with `?.` and the `??` operator.
 */
module Js {

  datatype Option<+T> = None | Some(value: T)

  /** A value produced by `JSON.parse`. Objects keep their keys in order;
      numbers are integers (fractional numbers are not modelled). */
  datatype Json =
    | JNull
    | JBool(b: bool)
    | JNum(n: int)
    | JStr(s: string)
    | JArr(items: seq<Json>)
    | JObj(fields: seq<(string, Json)>)

  /** `x == null` in JavaScript: the value is `null` or `undefined` (None). */
  predicate IsNullish(v: Option<Json>) {
    v.None? || v.value.JNull?
  }

  /** `typeof v === "object"`; note that `typeof null` is "object" too. */
  predicate IsObjectType(v: Json) {
    v.JNull? || v.JArr? || v.JObj?
  }

  /** JavaScript truthiness of a JSON value. */
  predicate IsTruthy(v: Json) {
    match v
    case JNull => false
    case JBool(b) => b
    case JNum(n) => n != 0
    case JStr(s) => s != ""
    case JArr(_) => true
    case JObj(_) => true
  }

  // ---------------------------------------------------------------------
  // Whitespace and trimming
  // ---------------------------------------------------------------------

  /** The characters matched by `\s` and removed by `trim()`:
      WhiteSpace and LineTerminator of ECMAScript. */
  predicate IsSpace(c: char) {
    c == '\t' || c == '\n' || c == '\U{0B}' || c == '\U{0C}' || c == '\r' || c == ' '
    || c == '\U{A0}' || c == '\U{1680}' || ('\U{2000}' <= c <= '\U{200A}')
    || c == '\U{2028}' || c == '\U{2029}' || c == '\U{202F}' || c == '\U{205F}'
    || c == '\U{3000}' || c == '\U{FEFF}'
  }

  /** Drops the leading whitespace. */
  function TrimStart(s: string): (r: string)
    ensures |r| <= |s|
    ensures forall k :: 0 <= k < |s| - |r| ==> IsSpace(s[k])
    ensures |r| > 0 ==> !IsSpace(r[0])
  {
    if |s| > 0 && IsSpace(s[0]) then TrimStart(s[1..]) else s
  }

  /** Drops the trailing whitespace. */
  function TrimEnd(s: string): (r: string)
    ensures |r| <= |s|
    ensures forall k :: |r| <= k < |s| ==> IsSpace(s[k])
    ensures |r| > 0 ==> !IsSpace(r[|r| - 1]) && r[0] == s[0]
  {
    if |s| > 0 && IsSpace(s[|s| - 1]) then TrimEnd(s[..|s| - 1]) else s
  }

  /** What `TrimStart` keeps is a suffix of its input. */
  lemma {:induction false} TrimStartIsSuffix(s: string)
    ensures TrimStart(s) == s[|s| - |TrimStart(s)|..]
  {
    if |s| > 0 && IsSpace(s[0]) {
      TrimStartIsSuffix(s[1..]);
    }
  }

  /** What `TrimEnd` keeps is a prefix of its input. */
  lemma {:induction false} TrimEndIsPrefix(s: string)
    ensures TrimEnd(s) == s[..|TrimEnd(s)|]
  {
    if |s| > 0 && IsSpace(s[|s| - 1]) {
      TrimEndIsPrefix(s[..|s| - 1]);
    }
  }

  /** `String.prototype.trim`. */
  function Trim(s: string): (r: string)
    ensures |r| <= |s|
    ensures |r| > 0 ==> !IsSpace(r[0]) && !IsSpace(r[|r| - 1])
  {
    TrimEnd(TrimStart(s))
  }

  /** `trim()` keeps a slice of its input and drops only whitespace: every
      character before the slice and after it is whitespace. */
  lemma TrimSlice(s: string) returns (i: nat, j: nat)
    ensures i <= j <= |s| && Trim(s) == s[i..j]
    ensures forall k :: 0 <= k < i ==> IsSpace(s[k])
    ensures forall k :: j <= k < |s| ==> IsSpace(s[k])
  {
    var t := TrimStart(s);
    TrimStartIsSuffix(s);
    i := |s| - |t|;
    assert t == s[i..];
    var e := TrimEnd(t);
    TrimEndIsPrefix(t);
    j := i + |e|;
    assert Trim(s) == e;
    forall k | 0 <= k < |e| ensures s[i..j][k] == e[k] {
      assert e[k] == t[k] == s[i + k];
    }
    assert s[i..j] == e;
    forall k | j <= k < |s| ensures IsSpace(s[k]) {
      assert s[k] == t[k - i];
    }
  }

  /** Every character of `s` is whitespace. */
  predicate AllSpace(s: string) {
    forall k :: 0 <= k < |s| ==> IsSpace(s[k])
  }

  /** Dropping the leading whitespace of a concatenation: when the first
      part holds a non-whitespace character only that part loses its
      leading whitespace; otherwise the first part vanishes entirely. */
  lemma {:induction false} TrimStartAppend(a: string, b: string)
    ensures !AllSpace(a) ==> TrimStart(a + b) == TrimStart(a) + b
    ensures AllSpace(a) ==> TrimStart(a) == [] && TrimStart(a + b) == TrimStart(b)
    decreases |a|
  {
    if |a| == 0 {
      assert a + b == b;
    } else {
      assert (a + b)[0] == a[0] && (a + b)[1..] == a[1..] + b;
      if IsSpace(a[0]) {
        assert AllSpace(a) <==> AllSpace(a[1..]) by {
          if AllSpace(a[1..]) {
            forall k | 0 <= k < |a| ensures IsSpace(a[k]) {
              if k > 0 { assert a[k] == a[1..][k - 1]; }
            }
          }
        }
        TrimStartAppend(a[1..], b);
      }
    }
  }

  /** A string without whitespace at either end is left alone by `trim()`. */
  lemma TrimUnchanged(s: string)
    requires |s| > 0 ==> !IsSpace(s[0]) && !IsSpace(s[|s| - 1])
    ensures Trim(s) == s
  {
  }

  /** Trimming twice is trimming once. */
  lemma TrimIdempotent(s: string)
    ensures Trim(Trim(s)) == Trim(s)
  {
    TrimUnchanged(Trim(s));
  }

  // ---------------------------------------------------------------------
  // Substrings, splitting, joining
  // ---------------------------------------------------------------------

  /** `pat` occurs in `text` starting at position `i`. */
  predicate OccursAt(text: string, pat: string, i: int) {
    0 <= i && i + |pat| <= |text| && text[i..i + |pat|] == pat
  }

  /** `text.includes(pat)`. */
  predicate Includes(text: string, pat: string) {
    exists i | 0 <= i <= |text| - |pat| :: OccursAt(text, pat, i)
  }

  /** A slice of `y` that lies inside the slice `i..j` of `c`, where `y`
      occurs in `c` at `p`, occurs in `c[i..j]`. */
  lemma SliceOccurs(c: string, y: string, p: nat, i: nat, j: nat, i': nat, j': nat)
    requires OccursAt(c, y, p) && i <= j <= |c| && i' <= j' <= |y|
    requires i <= p + i' && p + j' <= j
    ensures OccursAt(c[i..j], y[i'..j'], p + i' - i)
  {
    var q := p + i' - i;
    forall k | 0 <= k < j' - i' ensures c[i..j][q + k] == y[i'..j'][k] {
      assert y[i' + k] == c[p..p + |y|][i' + k];
    }
    assert c[i..j][q..q + (j' - i')] == y[i'..j'];
  }

  /** What occurs in a text occurs, trimmed, in the trimmed text: trimming
      only drops whitespace that lies outside every non-whitespace
      character. */
  lemma TrimInfix(c: string, y: string)
    requires Includes(c, y)
    ensures Includes(Trim(c), Trim(y))
  {
    var p :| 0 <= p <= |c| - |y| && OccursAt(c, y, p);
    var i, j := TrimSlice(c);
    var i', j' := TrimSlice(y);
    var ty := Trim(y);
    if |ty| == 0 {
      assert OccursAt(Trim(c), ty, 0);
    } else {
      assert i <= p + i' by {
        assert c[p + i'] == c[p..p + |y|][i'] == y[i'] == ty[0];
      }
      assert p + j' <= j by {
        assert c[p + j' - 1] == c[p..p + |y|][j' - 1] == y[j' - 1] == ty[|ty| - 1];
      }
      SliceOccurs(c, y, p, i, j, i', j');
      assert OccursAt(Trim(c), ty, p + i' - i);
    }
  }

  /** `parts.join(sep)`. */
  function Join(parts: seq<string>, sep: string): string
    decreases |parts|
  {
    if |parts| == 0 then ""
    else if |parts| == 1 then parts[0]
    else parts[0] + sep + Join(parts[1..], sep)
  }

  /** `s.split(sep)` for a one-character separator: never empty, no piece holds
      the separator, and joining the pieces back gives `s`. */
  function Split(s: string, sep: char): (r: seq<string>)
    ensures |r| >= 1
    ensures forall i :: 0 <= i < |r| ==> sep !in r[i]
    ensures Join(r, [sep]) == s
    ensures sep !in s ==> r == [s]
  {
    if |s| == 0 then [""]
    else
      var rest := Split(s[1..], sep);
      if s[0] == sep then
        assert [sep] + Join(rest, [sep]) == s;
        [""] + rest
      else
        var r := [[s[0]] + rest[0]] + rest[1..];
        assert r[1..] == rest[1..];
        assert sep !in r[0] by {
          assert sep !in rest[0];
        }
        assert sep !in s ==> r == [s] by {
          if sep !in s {
            assert sep !in s[1..];
            assert [s[0]] + s[1..] == s;
          }
        }
        assert Join(r, [sep]) == s by {
          if |rest| > 1 {
            assert Join(rest, [sep]) == rest[0] + [sep] + Join(rest[1..], [sep]);
          }
        }
        r
  }

  /** `Split` is exactly inverted by `Join`: splitting the joined pieces
      gives the pieces back when none contains the separator. */
  lemma {:induction false} SplitJoin(parts: seq<string>, sep: char)
    requires |parts| >= 1
    requires forall i :: 0 <= i < |parts| ==> sep !in parts[i]
    ensures Split(Join(parts, [sep]), sep) == parts
    decreases |parts|, |parts[0]|
  {
    var s := Join(parts, [sep]);
    if |parts| == 1 {
    } else if |parts[0]| == 0 {
      assert s == [sep] + Join(parts[1..], [sep]);
      assert s[1..] == Join(parts[1..], [sep]);
      SplitJoin(parts[1..], sep);
      assert parts == [""] + parts[1..];
    } else {
      var c := parts[0][0];
      var p' := [parts[0][1..]] + parts[1..];
      assert parts[0] == [c] + parts[0][1..];
      assert sep !in parts[0][1..] by {
        forall x | x in parts[0][1..] ensures x != sep { assert x in parts[0]; }
      }
      assert p'[1..] == parts[1..];
      assert Join(p', [sep]) == parts[0][1..] + [sep] + Join(parts[1..], [sep]);
      assert s == [c] + Join(p', [sep]);
      assert s[1..] == Join(p', [sep]);
      SplitJoin(p', sep);
      assert c != sep;
      assert parts == [[c] + p'[0]] + p'[1..];
    }
  }

  // ---------------------------------------------------------------------
  // String(n) for integers
  // ---------------------------------------------------------------------

  predicate IsDigit(c: char) {
    '0' <= c <= '9'
  }

  function Digit(d: nat): (c: char)
    requires d < 10
    ensures IsDigit(c)
  {
    (48 + d) as char
  }

  /** Decimal digits of `n`, without leading zeros. */
  function NatToString(n: nat): (r: string)
    ensures |r| >= 1
  {
    if n < 10 then [Digit(n)] else NatToString(n / 10) + [Digit(n % 10)]
  }

  /** The decimal string is all digits, begins with '0' only for zero, and
      is one digit long exactly below ten. */
  lemma {:induction false} NatToStringDigits(n: nat)
    ensures forall k :: 0 <= k < |NatToString(n)| ==> IsDigit(NatToString(n)[k])
    ensures NatToString(n)[0] == '0' <==> n == 0
    ensures |NatToString(n)| == 1 <==> n < 10
  {
    if n >= 10 {
      NatToStringDigits(n / 10);
    }
  }

  /** `String(n)` for an integer `n` (below 10^21, where JavaScript switches to
      exponent notation). */
  function IntToString(n: int): (r: string)
    ensures |r| >= 1
  {
    if n < 0 then "-" + NatToString(-n) else NatToString(n)
  }

  /** Digits after an optional leading minus sign, which is there exactly
      for negative numbers. */
  lemma IntToStringDigits(n: int)
    ensures forall k :: 0 <= k < |IntToString(n)| ==> IsDigit(IntToString(n)[k]) || (k == 0 && IntToString(n)[k] == '-')
    ensures IntToString(n)[0] == '-' <==> n < 0
  {
    if n < 0 {
      NatToStringDigits(-n);
      assert forall k :: 1 <= k < |IntToString(n)| ==> IntToString(n)[k] == NatToString(-n)[k - 1];
    } else {
      NatToStringDigits(n);
    }
  }

  lemma {:induction false} NatToStringInjective(n: nat, m: nat)
    requires NatToString(n) == NatToString(m)
    ensures n == m
  {
    var rn, rm := NatToString(n), NatToString(m);
    NatToStringDigits(n);
    NatToStringDigits(m);
    if n < 10 || m < 10 {
      assert |rn| == 1 && |rm| == 1;
      assert Digit(n) == rn[0] == rm[0] == Digit(m);
    } else {
      assert rn == NatToString(n / 10) + [Digit(n % 10)];
      assert rm == NatToString(m / 10) + [Digit(m % 10)];
      assert Digit(n % 10) == rn[|rn| - 1] == rm[|rm| - 1] == Digit(m % 10);
      assert NatToString(n / 10) == rn[..|rn| - 1] == rm[..|rm| - 1] == NatToString(m / 10);
      NatToStringInjective(n / 10, m / 10);
    }
  }

  /** Distinct integers have distinct decimal strings, so numeric keys turned
      into object keys never collide. */
  lemma IntToStringInjective(n: int, m: int)
    requires IntToString(n) == IntToString(m)
    ensures n == m
  {
    IntToStringDigits(n);
    IntToStringDigits(m);
    if n < 0 && m < 0 {
      assert NatToString(-n) == IntToString(n)[1..] == IntToString(m)[1..] == NatToString(-m);
      NatToStringInjective(-n, -m);
    } else if n >= 0 && m >= 0 {
      NatToStringInjective(n, m);
    }
  }

  // ---------------------------------------------------------------------
  // String(v) for JSON values, property access and `??`
  // ---------------------------------------------------------------------

  /** `String(v)`: arrays join their elements with "," (null elements give
      the empty string), objects give "[object Object]". */
  function JsString(v: Json): string {
    match v
    case JNull => "null"
    case JBool(b) => if b then "true" else "false"
    case JNum(n) => IntToString(n)
    case JStr(s) => s
    case JArr(items) =>
      Join(seq(|items|, i requires 0 <= i < |items| =>
                 if items[i].JNull? then "" else JsString(items[i])), ",")
    case JObj(_) => "[object Object]"
  }

  /** The value stored under `key` in an object's fields (the first match),
      or None (`undefined`) when the key is absent. */
  function Get(fields: seq<(string, Json)>, key: string): (r: Option<Json>)
    ensures r.None? <==> forall i :: 0 <= i < |fields| ==> fields[i].0 != key
    ensures r.Some? ==> exists i :: 0 <= i < |fields| && fields[i] == (key, r.value)
                                    && forall j :: 0 <= j < i ==> fields[j].0 != key
  {
    if |fields| == 0 then None
    else if fields[0].0 == key then Some(fields[0].1)
    else
      var r := Get(fields[1..], key);
      assert forall i :: 0 < i < |fields| ==> fields[i] == fields[1..][i - 1];
      r
  }

  /** `v?.[name]`: None unless `v` is an object holding `name`. */
  function Member(v: Json, name: string): Option<Json> {
    if v.JObj? then Get(v.fields, name) else None
  }

  /** The members `v?.[names[0]]`, `v?.[names[1]]`, ... in order. */
  function Members(v: Json, names: seq<string>): (r: seq<Option<Json>>)
    ensures |r| == |names|
  {
    seq(|names|, i requires 0 <= i < |names| => Member(v, names[i]))
  }

  /** `vs[0] ?? vs[1] ?? ... ?? vs[n-1]`. */
  function Coalesce(vs: seq<Option<Json>>): (r: Option<Json>)
    requires |vs| > 0
    ensures exists k :: 0 <= k < |vs| && r == vs[k]
                        && (forall j :: 0 <= j < k ==> IsNullish(vs[j]))
                        && (!IsNullish(r) || k == |vs| - 1)
  {
    if |vs| == 1 || !IsNullish(vs[0]) then vs[0]
    else
      var r := Coalesce(vs[1..]);
      assert forall j :: 0 < j < |vs| ==> vs[j] == vs[1..][j - 1];
      r
  }
}
