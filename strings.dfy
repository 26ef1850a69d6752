/**
  The string primitives the handlers lean on: Python's `str.isspace`,
  `str.strip`, `str.lower`, the `in` substring test, `"\n".join`, the
  line structure seen by a multi-line regular expression, decimal
  integers, the decimal parser behind `pd.to_numeric`/`float`, and the
  `:.1f` rendering of a percentage.
 */
module Strings {
  import opened Wrappers

  // ---------------------------------------------------------------------
  // Characters

  /** Python's `str.isspace` for one character (also the `\s` class of `re`). */
  predicate IsSpace(c: char) {
    c == ' ' || ('\t' <= c <= '\r') || ('\U{1C}' <= c <= '\U{1F}')
    || c == '\U{85}' || c == '\U{A0}' || c == '\U{1680}'
    || ('\U{2000}' <= c <= '\U{200A}') || c == '\U{2028}' || c == '\U{2029}'
    || c == '\U{202F}' || c == '\U{205F}' || c == '\U{3000}'
  }

  predicate IsDigit(c: char) {
    '0' <= c <= '9'
  }

  predicate AllDigits(s: string) {
    forall i :: 0 <= i < |s| ==> IsDigit(s[i])
  }

  predicate AllSpace(s: string) {
    forall i :: 0 <= i < |s| ==> IsSpace(s[i])
  }

  /** Python's `str.lower` on the Latin and Cyrillic capitals. */
  function LowerChar(c: char): char {
    if 'A' <= c <= 'Z' || 'А' <= c <= 'Я' then (c as int + 32) as char
    else if 'Ѐ' <= c <= 'Џ' then (c as int + 80) as char
    else c
  }

  function Lower(s: string): (r: string)
    ensures |r| == |s|
    ensures forall i :: 0 <= i < |s| ==> r[i] == LowerChar(s[i])
  {
    if s == [] then [] else [LowerChar(s[0])] + Lower(s[1..])
  }

  /** Case-insensitive equality as `re.IGNORECASE` applies it to literal text. */
  predicate SameIgnoringCase(a: string, b: string) {
    |a| == |b| && forall i :: 0 <= i < |a| ==> LowerChar(a[i]) == LowerChar(b[i])
  }

  // ---------------------------------------------------------------------
  // Stripping

  function TrimLeft(s: string): (r: string)
    ensures |r| <= |s| && r == s[|s| - |r|..]
    ensures AllSpace(s[..|s| - |r|])
    ensures r == [] || !IsSpace(r[0])
  {
    if |s| > 0 && IsSpace(s[0]) then TrimLeft(s[1..]) else s
  }

  function TrimRight(s: string): (r: string)
    ensures |r| <= |s| && r == s[..|r|]
    ensures AllSpace(s[|r|..])
    ensures r == [] || !IsSpace(r[|r| - 1])
  {
    if |s| > 0 && IsSpace(s[|s| - 1]) then
      var r := TrimRight(s[..|s| - 1]);
      SpaceBeforeLast(s, |r|);
      r
    else s
  }

  /** Spaces up to a trailing space: spaces up to the end. */
  lemma SpaceBeforeLast(s: string, k: nat)
    requires 0 < |s| && k < |s| && IsSpace(s[|s| - 1]) && AllSpace(s[..|s| - 1][k..])
    ensures s[..|s| - 1][..k] == s[..k]
    ensures AllSpace(s[k..])
  {
    forall i | 0 <= i < |s| - k ensures IsSpace(s[k..][i]) {
      if k + i < |s| - 1 {
        assert s[k..][i] == s[..|s| - 1][k..][i];
      }
    }
  }

  /** Python's `str.strip()` with no argument. */
  function Strip(s: string): string {
    TrimRight(TrimLeft(s))
  }

  lemma {:induction false} TrimLeftEmptyIffBlank(s: string)
    ensures TrimLeft(s) == [] <==> AllSpace(s)
    decreases |s|
  {
    if |s| > 0 {
      TrimLeftEmptyIffBlank(s[1..]);
      assert AllSpace(s) <==> IsSpace(s[0]) && AllSpace(s[1..]) by {
        if IsSpace(s[0]) && AllSpace(s[1..]) {
          forall i | 0 < i < |s| ensures IsSpace(s[i]) { assert s[i] == s[1..][i - 1]; }
        }
      }
    }
  }

  lemma {:induction false} TrimRightKeepsVisibleFirst(s: string)
    requires |s| > 0 && !IsSpace(s[0])
    ensures |TrimRight(s)| > 0
    decreases |s|
  {
    if |s| > 1 && IsSpace(s[|s| - 1]) {
      TrimRightKeepsVisibleFirst(s[..|s| - 1]);
    }
  }

  /** The stripped text has no whitespace at either end. */
  lemma StripHasNoEdgeSpace(s: string)
    ensures Trimmed(Strip(s))
  {
    var l := TrimLeft(s);
    var r := TrimRight(l);
    if r != [] {
      assert r[0] == l[0];
    }
  }

  /** `strip()` leaves nothing exactly when the text is all whitespace. */
  lemma StripEmptyIffBlank(s: string)
    ensures Strip(s) == [] <==> AllSpace(s)
  {
    var l := TrimLeft(s);
    TrimLeftEmptyIffBlank(s);
    if l != [] {
      TrimRightKeepsVisibleFirst(l);
    }
  }

  /** No whitespace at either end. */
  predicate Trimmed(s: string) {
    s == [] || (!IsSpace(s[0]) && !IsSpace(s[|s| - 1]))
  }

  /** A text without whitespace at either end is its own `strip()`. */
  lemma StripOfTrimmed(s: string)
    requires Trimmed(s)
    ensures Strip(s) == s
  {
  }

  /** Words without edge whitespace, joined by single spaces, have no edge whitespace. */
  lemma {:induction false} JoinTrimmed(words: seq<string>)
    requires forall i :: 0 <= i < |words| ==> words[i] != [] && Trimmed(words[i])
    ensures Trimmed(Join(words, " "))
    ensures |words| > 0 ==> Join(words, " ") != []
  {
    if |words| > 1 {
      JoinTrimmed(words[1..]);
      var rest := Join(words[1..], " ");
      var j := words[0] + " " + rest;
      assert j[0] == words[0][0];
      assert j[|j| - 1] == rest[|rest| - 1];
    }
  }

  // ---------------------------------------------------------------------
  // Searching

  /** Python's `k in s` for strings. */
  predicate Contains(s: string, k: string)
    decreases |s|
  {
    k <= s || (|s| > 0 && Contains(s[1..], k))
  }

  predicate OccursAt(s: string, k: string, i: nat) {
    i + |k| <= |s| && s[i..i + |k|] == k
  }

  /** `Contains` holds exactly when `k` occurs at some offset of `s`. */
  lemma {:induction false} ContainsIff(s: string, k: string)
    ensures Contains(s, k) <==> exists i: nat :: OccursAt(s, k, i)
    decreases |s|
  {
    if k <= s {
      assert OccursAt(s, k, 0);
    } else if |s| > 0 {
      ContainsIff(s[1..], k);
      if exists i: nat :: OccursAt(s, k, i) {
        var i: nat :| OccursAt(s, k, i);
        assert i != 0;
        assert OccursAt(s[1..], k, i - 1);
      }
      if Contains(s[1..], k) {
        var j: nat :| OccursAt(s[1..], k, j);
        assert OccursAt(s, k, j + 1);
      }
    } else {
      assert forall i: nat :: OccursAt(s, k, i) ==> k <= s;
    }
  }

  /** Python's `any(k in s for k in keys)`. */
  predicate ContainsAny(s: string, keys: seq<string>) {
    exists j :: 0 <= j < |keys| && Contains(s, keys[j])
  }

  predicate EndsWith(s: string, suffix: string) {
    |suffix| <= |s| && s[|s| - |suffix|..] == suffix
  }

  /** The position of the first `c` in `s`, or `|s|` when there is none. */
  function IndexOf(s: string, c: char): (i: nat)
    ensures i <= |s|
    ensures i < |s| ==> s[i] == c
    ensures forall j :: 0 <= j < i ==> s[j] != c
  {
    if |s| == 0 then 0 else if s[0] == c then 0 else 1 + IndexOf(s[1..], c)
  }

  /** `s` with every `c` replaced by `with` (`str.replace` on one character). */
  function ReplaceChar(s: string, c: char, with: string): (r: string)
  {
    if s == [] then [] else (if s[0] == c then with else [s[0]]) + ReplaceChar(s[1..], c, with)
  }

  /** Replacing a character the text does not hold changes nothing. */
  lemma {:induction false} ReplaceCharAbsent(s: string, c: char, with: string)
    requires c !in s
    ensures ReplaceChar(s, c, with) == s
  {
    if s != [] {
      assert s[1..] <= s[1..] && forall x :: x in s[1..] ==> x in s;
      ReplaceCharAbsent(s[1..], c, with);
      assert s == [s[0]] + s[1..];
    }
  }

  // ---------------------------------------------------------------------
  // Lines

  lemma AppendAssoc<T>(x: seq<T>, y: seq<T>, z: seq<T>)
    ensures (x + y) + z == x + (y + z)
  {
  }

  lemma DropLastOfAppend<T>(a: seq<T>, b: seq<T>)
    requires |b| > 0
    ensures (a + b)[..|a + b| - 1] == a + b[..|b| - 1]
    ensures (a + b)[|a + b| - 1] == b[|b| - 1]
  {
  }

  /** Two head lines and the items: where each item lands. */
  lemma HeadThenItems<T>(a: T, b: T, items: seq<T>)
    ensures [a] + ([b] + items) == [a, b] + items
    ensures |[a, b] + items| == 2 + |items|
    ensures forall i :: 0 <= i < |items| ==> ([a, b] + items)[2 + i] == items[i]
  {
  }

  /** Two lines, one after the other. */
  lemma TwoLines<T>(a: T, b: T)
    ensures [a] + [b] == [a, b]
  {
  }

  /** Python's `sep.join(parts)`. */
  function Join(parts: seq<string>, sep: string): string {
    if |parts| == 0 then "" else if |parts| == 1 then parts[0]
    else parts[0] + sep + Join(parts[1..], sep)
  }

  // ---------------------------------------------------------------------
  // Greedy runs, as a regular expression's `\s*` and `\d*` take them

  /** What a greedy `\s*` leaves of `t`. */
  function SkipSpaces(t: string): (r: string)
    ensures |r| <= |t|
  {
    if |t| > 0 && IsSpace(t[0]) then SkipSpaces(t[1..]) else t
  }

  /** `\s*` takes exactly what `str.lstrip()` removes. */
  lemma {:induction false} SkipSpacesIsTrimLeft(t: string)
    ensures SkipSpaces(t) == TrimLeft(t)
  {
    if |t| > 0 && IsSpace(t[0]) {
      SkipSpacesIsTrimLeft(t[1..]);
    }
  }

  /** What a greedy `\d+` (or `\d*`) leaves of `t`. */
  function DropDigits(t: string): (r: string)
    ensures |r| <= |t|
  {
    if |t| > 0 && IsDigit(t[0]) then DropDigits(t[1..]) else t
  }

  /** `t` is the spaces `\s*` takes followed by what it leaves. */
  lemma {:induction false} SpacesPrefix(t: string) returns (sp: string)
    ensures t == sp + SkipSpaces(t) && AllSpace(sp)
  {
    if |t| > 0 && IsSpace(t[0]) {
      var sp' := SpacesPrefix(t[1..]);
      sp := [t[0]] + sp';
      assert t == [t[0]] + t[1..];
    } else {
      sp := [];
    }
  }

  /** `t` is the digits `\d*` takes followed by what it leaves, which does not start with a digit. */
  lemma {:induction false} DigitsPrefix(t: string) returns (num: string)
    ensures t == num + DropDigits(t) && AllDigits(num)
    ensures DropDigits(t) == [] || !IsDigit(DropDigits(t)[0])
  {
    if |t| > 0 && IsDigit(t[0]) {
      var num' := DigitsPrefix(t[1..]);
      num := [t[0]] + num';
      assert t == [t[0]] + t[1..];
    } else {
      num := [];
    }
  }

  /** What `\d*` takes is digits. */
  lemma DigitsTaken(t: string)
    ensures AllDigits(t[..|t| - |DropDigits(t)|])
  {
    var num := DigitsPrefix(t);
    assert t[..|t| - |DropDigits(t)|] == num;
  }

  /** Spaces followed by anything but a space: `\s*` takes exactly the spaces. */
  lemma {:induction false} SkipSpacesOver(sp: string, y: string)
    requires AllSpace(sp)
    requires y == [] || !IsSpace(y[0])
    ensures SkipSpaces(sp + y) == y
  {
    if sp == [] {
      assert sp + y == y;
    } else {
      assert (sp + y)[0] == sp[0];
      assert (sp + y)[1..] == sp[1..] + y;
      SkipSpacesOver(sp[1..], y);
    }
  }

  /** Digits followed by anything but a digit: `\d*` takes exactly the digits. */
  lemma {:induction false} DropDigitsOf(num: string, y: string)
    requires AllDigits(num)
    requires y == [] || !IsDigit(y[0])
    ensures DropDigits(num + y) == y
  {
    if num == [] {
      assert num + y == y;
    } else {
      assert (num + y)[0] == num[0];
      assert (num + y)[1..] == num[1..] + y;
      DropDigitsOf(num[1..], y);
    }
  }

  // ---------------------------------------------------------------------
  // Decimal integers

  function DigitChar(d: nat): char
    requires d < 10
  {
    ('0' as int + d) as char
  }

  function DigitsValue(s: string): nat
    requires AllDigits(s)
  {
    if s == [] then 0 else DigitsValue(s[..|s| - 1]) * 10 + (s[|s| - 1] as int - '0' as int)
  }

  /** Python's `str(n)` for a natural number. */
  function NatToString(n: nat): (r: string)
    ensures |r| > 0 && AllDigits(r)
  {
    if n < 10 then [DigitChar(n)] else NatToString(n / 10) + [DigitChar(n % 10)]
  }

  /** `int(str(n)) == n`. */
  lemma {:induction false} NatToStringRoundTrip(n: nat)
    ensures DigitsValue(NatToString(n)) == n
  {
    if n >= 10 {
      var s := NatToString(n);
      NatToStringRoundTrip(n / 10);
      assert s[..|s| - 1] == NatToString(n / 10);
    }
  }

  /** Python's `str(i)` for any integer. */
  function IntToString(i: int): (r: string)
    ensures |r| > 0
  {
    if i < 0 then "-" + NatToString(-i) else NatToString(i)
  }

  function Pow10(n: nat): (p: nat)
    ensures p >= 1
  {
    if n == 0 then 1 else 10 * Pow10(n - 1)
  }

  // ---------------------------------------------------------------------
  // Decimal numbers

  /**
    An unsigned decimal: digits, an optional '.', digits, and at least one
    digit in all (what `float()` accepts from `[0-9.]+`).
   */
  function ParseUnsigned(s: string): (r: Option<real>)
    ensures r.Some? ==> r.value >= 0.0
  {
    var dot := IndexOf(s, '.');
    var whole := s[..dot];
    var frac := if dot < |s| then s[dot + 1..] else "";
    if AllDigits(whole) && AllDigits(frac) && |whole| + |frac| > 0 then
      Some(DecimalValue(whole, frac))
    else None
  }

  /** The value of the decimal `whole.frac`. */
  function DecimalValue(whole: string, frac: string): (v: real)
    requires AllDigits(whole) && AllDigits(frac)
    ensures v >= 0.0
  {
    DigitsValue(whole) as real + DigitsValue(frac) as real / Pow10(|frac|) as real
  }

  /** The numeric text `pd.to_numeric(..., errors='coerce')` turns into a number; `None` stands for NaN. */
  function ParseNumber(s: string): (r: Option<real>)
    ensures r.Some? && r.value < 0.0 ==> |s| > 0 && s[0] == '-'
  {
    if |s| > 0 && (s[0] == '-' || s[0] == '+') then
      match ParseUnsigned(s[1..])
      case Some(v) => Some(if s[0] == '-' then -v else v)
      case None => None
    else ParseUnsigned(s)
  }

  /** A digit run parses as the integer it denotes. */
  lemma ParseUnsignedDigits(s: string)
    requires |s| > 0 && AllDigits(s)
    ensures ParseUnsigned(s) == Some(DigitsValue(s) as real)
  {
    forall j | 0 <= j < |s| ensures s[j] != '.' { assert IsDigit(s[j]); }
    var dot := IndexOf(s, '.');
    assert dot == |s|;
    assert s[..dot] == s;
    var frac: string := "";
    assert AllDigits(frac);
    assert DigitsValue(frac) == 0;
    assert Pow10(|frac|) == 1;
  }

  /** Digits, a point and digits parse as the decimal they denote. */
  lemma ParseUnsignedDecimal(whole: string, frac: string)
    requires AllDigits(whole) && AllDigits(frac) && |whole| + |frac| > 0
    ensures ParseUnsigned(whole + "." + frac) == Some(DecimalValue(whole, frac))
  {
    var s := whole + "." + frac;
    var dot := IndexOf(s, '.');
    assert dot == |whole| by {
      assert s[|whole|] == '.';
      forall j | 0 <= j < |whole| ensures s[j] != '.' { assert s[j] == whole[j]; assert IsDigit(whole[j]); }
    }
    assert s[..dot] == whole;
    assert s[dot + 1..] == frac;
  }

  /** The number of tenths `:.1f` shows for a non-negative value (rounding half up). */
  function Tenths(y: real): (t: nat)
    requires y >= 0.0
    ensures t as real / 10.0 - 0.05 <= y < t as real / 10.0 + 0.05
  {
    (y * 10.0 + 0.5).Floor
  }

  function FormatTenths(t: nat): string {
    NatToString(t / 10) + "." + NatToString(t % 10)
  }

  /** `f"{x:.1f}"`. */
  function FormatOneDecimal(x: real): string {
    if x < 0.0 then "-" + FormatTenths(Tenths(-x)) else FormatTenths(Tenths(x))
  }

  /** `float(f"{t/10:.1f}")` recovers the shown tenths exactly. */
  lemma {:induction false} ParseFormatTenths(t: nat)
    ensures ParseUnsigned(FormatTenths(t)) == Some(t as real / 10.0)
  {
    var w := NatToString(t / 10);
    var f := NatToString(t % 10);
    var s := w + "." + f;
    assert IndexOf(s, '.') == |w| by {
      assert s[|w|] == '.';
      forall j | 0 <= j < |w| ensures s[j] != '.' { assert s[j] == w[j]; assert IsDigit(w[j]); }
    }
    assert s[..|w|] == w;
    assert s[|w| + 1..] == f;
    NatToStringRoundTrip(t / 10);
    assert f == [DigitChar(t % 10)];
    assert DigitsValue(f) == t % 10 by {
      assert f[..0] == [];
    }
    assert |f| == 1;
    assert Pow10(1) == 10;
    calc {
      ((t / 10) as real) + (t % 10) as real / 10.0;
      ((t / 10) * 10 + t % 10) as real / 10.0;
      t as real / 10.0;
    }
  }

  /** A formatted non-negative value reads back within half a tenth of the value. */
  lemma FormatOneDecimalReadsBack(x: real)
    requires x >= 0.0
    ensures ParseUnsigned(FormatOneDecimal(x)).Some?
    ensures var v := ParseUnsigned(FormatOneDecimal(x)).value; v - 0.05 <= x < v + 0.05
  {
    ParseFormatTenths(Tenths(x));
  }
}
