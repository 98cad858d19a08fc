/** The JavaScript string operations the dashboard relies on, over Dafny
    strings (sequences of characters): `toLowerCase` (ASCII letters only),
    `trim`, `includes`, a global `replace` by the empty string, `split(':')[0]`,
    the relational `<` on strings and the decimal rendering of a whole number. */
module Strings {

  // ---------------------------------------------------------------------------
  // Lower-casing

  predicate IsUpper(c: char) {
    'A' <= c <= 'Z'
  }

  function ToLowerChar(c: char): (r: char)
    ensures !IsUpper(r)
    ensures IsUpper(c) ==> r as int == c as int + 32
    ensures !IsUpper(c) ==> r == c
  {
    if IsUpper(c) then (c as int + 32) as char else c
  }

  /** `s.toLowerCase()`, restricted to the ASCII letters. */
  function ToLower(s: string): (r: string)
    ensures |r| == |s|
    ensures forall i :: 0 <= i < |s| ==> r[i] == ToLowerChar(s[i])
    ensures forall i :: 0 <= i < |r| ==> !IsUpper(r[i])
  {
    seq(|s|, i requires 0 <= i < |s| => ToLowerChar(s[i]))
  }

  lemma ToLowerIdempotent(s: string)
    ensures ToLower(ToLower(s)) == ToLower(s)
  {
  }

  // ---------------------------------------------------------------------------
  // Whitespace and trim

  /** The characters `String.prototype.trim` removes: WhiteSpace and
      LineTerminator of section 12.2 and 12.3 of ECMA-262. */
  predicate IsWhitespace(c: char) {
    var k := c as int;
    k == 0x09 || k == 0x0A || k == 0x0B || k == 0x0C || k == 0x0D || k == 0x20
    || k == 0xA0 || k == 0x1680 || (0x2000 <= k <= 0x200A) || k == 0x2028
    || k == 0x2029 || k == 0x202F || k == 0x205F || k == 0x3000 || k == 0xFEFF
  }

  /** Drops the leading whitespace: the result is the suffix that starts at the
      first non-whitespace character. */
  function TrimStart(s: string): (r: string)
    ensures |r| <= |s| && r == s[|s| - |r|..]
    ensures forall k :: 0 <= k < |s| - |r| ==> IsWhitespace(s[k])
    ensures r == "" || !IsWhitespace(r[0])
  {
    if |s| > 0 && IsWhitespace(s[0]) then TrimStart(s[1..]) else s
  }

  /** Drops the trailing whitespace: the result is the prefix that ends at the
      last non-whitespace character. */
  function TrimEnd(s: string): (r: string)
    ensures |r| <= |s| && r == s[..|r|]
    ensures forall k :: |r| <= k < |s| ==> IsWhitespace(s[k])
    ensures r == "" || !IsWhitespace(r[|r| - 1])
  {
    if |s| > 0 && IsWhitespace(s[|s| - 1]) then TrimEnd(s[..|s| - 1]) else s
  }

  /** `s.trim()`: drops the whitespace at both ends. */
  function Trim(s: string): (r: string)
    ensures |r| <= |s|
    ensures r == "" || (!IsWhitespace(r[0]) && !IsWhitespace(r[|r| - 1]))
  {
    TrimEnd(TrimStart(s))
  }

  /** The trimmed string is the slice of `s` at offset `i`, and everything cut
      off on either side of it is whitespace. */
  lemma TrimIsSlice(s: string) returns (i: nat)
    ensures OccursAt(s, Trim(s), i)
    ensures forall k :: 0 <= k < i ==> IsWhitespace(s[k])
    ensures forall k :: i + |Trim(s)| <= k < |s| ==> IsWhitespace(s[k])
  {
    var t := TrimStart(s);
    i := |s| - |t|;
    PrefixOfSuffix(s, i, TrimEnd(t));
  }

  /** A prefix `r` of the suffix `s[i..]` is the slice of `s` at `i`, and the
      characters after it are those after `r` in the suffix. */
  lemma PrefixOfSuffix(s: string, i: nat, r: string)
    requires i <= |s| && |r| <= |s| - i && r == s[i..][..|r|]
    ensures r == s[i..i + |r|]
    ensures forall k :: i + |r| <= k < |s| ==> s[k] == s[i..][k - i]
  {
  }

  /** `!s.trim()`: the string is empty once trimmed. */
  predicate IsBlank(s: string) {
    Trim(s) == ""
  }

  lemma {:induction false} BlankIffAllWhitespace(s: string)
    ensures IsBlank(s) <==> forall k :: 0 <= k < |s| ==> IsWhitespace(s[k])
  {
    var t := TrimStart(s);
    if !forall k :: 0 <= k < |s| ==> IsWhitespace(s[k]) {
      var k :| 0 <= k < |s| && !IsWhitespace(s[k]);
      assert |t| > 0;
      assert !IsWhitespace(t[0]);
    }
  }

  /** A string with no whitespace at either end is its own trim. */
  lemma TrimKeepsTrimmed(s: string)
    requires s == "" || (!IsWhitespace(s[0]) && !IsWhitespace(s[|s| - 1]))
    ensures Trim(s) == s
  {
  }

  // ---------------------------------------------------------------------------
  // Substrings

  predicate StartsWith(s: string, t: string) {
    |t| <= |s| && s[..|t|] == t
  }

  /** `s.includes(t)`, scanning from the left. */
  predicate Includes(s: string, t: string)
    decreases |s|
  {
    StartsWith(s, t) || (|s| > 0 && Includes(s[1..], t))
  }

  predicate OccursAt(s: string, t: string, i: int) {
    0 <= i && i + |t| <= |s| && s[i..i + |t|] == t
  }

  lemma {:induction false} IncludesIff(s: string, t: string)
    ensures Includes(s, t) <==> exists i :: OccursAt(s, t, i)
    decreases |s|
  {
    if StartsWith(s, t) {
      assert OccursAt(s, t, 0);
    } else if |s| > 0 {
      IncludesIff(s[1..], t);
      if exists i :: OccursAt(s, t, i) {
        var i :| OccursAt(s, t, i);
        assert i != 0;
        SliceOfTail(s, i - 1, |t|);
        assert OccursAt(s[1..], t, i - 1);
      }
      if exists i :: OccursAt(s[1..], t, i) {
        var i :| OccursAt(s[1..], t, i);
        SliceOfTail(s, i, |t|);
        assert OccursAt(s, t, i + 1);
      }
    }
  }

  lemma SliceOfTail(s: string, i: nat, n: nat)
    requires 0 < |s| && i + n <= |s| - 1
    ensures s[1..][i..i + n] == s[i + 1..i + 1 + n]
  {
  }

  /** `s.includes(m)` and `m.includes(t)` give `s.includes(t)`. */
  lemma IncludesTransitive(s: string, m: string, t: string)
    requires Includes(s, m) && Includes(m, t)
    ensures Includes(s, t)
  {
    IncludesIff(s, m);
    IncludesIff(m, t);
    var i :| OccursAt(s, m, i);
    var j :| OccursAt(m, t, j);
    forall k | 0 <= k < |t|
      ensures s[i + j + k] == t[k]
    {
      assert s[i..i + |m|][j + k] == m[j + k];
      assert m[j..j + |t|][k] == t[k];
    }
    assert s[i + j..i + j + |t|] == t;
    assert OccursAt(s, t, i + j);
    IncludesIff(s, t);
  }

  /** Lower-casing both sides keeps a substring a substring. */
  lemma IncludesToLower(s: string, t: string)
    requires Includes(s, t)
    ensures Includes(ToLower(s), ToLower(t))
  {
    IncludesIff(s, t);
    var i :| OccursAt(s, t, i);
    assert ToLower(s)[i..i + |t|] == ToLower(t);
    assert OccursAt(ToLower(s), ToLower(t), i);
    IncludesIff(ToLower(s), ToLower(t));
  }

  /** A string occurs in any string that ends with it. */
  lemma IncludesSuffix(a: string, t: string)
    ensures Includes(a + t, t)
  {
    IncludesMiddle(a, t, "");
    assert a + t + "" == a + t;
  }

  /** A string occurs in any string built around it. */
  lemma IncludesMiddle(a: string, t: string, b: string)
    ensures OccursAt(a + t + b, t, |a|)
    ensures Includes(a + t + b, t)
  {
    var w := a + t + b;
    assert w[|a|..|a| + |t|] == t;
    assert OccursAt(w, t, |a|);
    IncludesIff(w, t);
  }

  /** `s.replace(/pat/g, '')`: the matches are found left to right, without
      overlap, and deleted. */
  function RemoveAll(s: string, pat: string): (r: string)
    requires pat != ""
    ensures |r| <= |s|
    decreases |s|
  {
    if |s| == 0 then ""
    else if StartsWith(s, pat) then RemoveAll(s[|pat|..], pat)
    else [s[0]] + RemoveAll(s[1..], pat)
  }

  /** A pattern whose first character does not occur in `s` removes nothing. */
  lemma {:induction false} RemoveAllAbsent(s: string, pat: string)
    requires pat != "" && pat[0] !in s
    ensures RemoveAll(s, pat) == s
    decreases |s|
  {
    if |s| > 0 {
      assert s[0] in s;
      assert !StartsWith(s, pat);
      RemoveAllAbsent(s[1..], pat);
    }
  }

  /** A leading part in which the pattern's first character never occurs
      passes through the removal untouched. */
  lemma {:induction false} RemoveAllPrefixAbsent(a: string, b: string, pat: string)
    requires pat != "" && pat[0] !in a
    ensures RemoveAll(a + b, pat) == a + RemoveAll(b, pat)
    decreases |a|
  {
    if |a| > 0 {
      var ab := a + b;
      assert a[0] in a && ab[0] == a[0];
      assert !StartsWith(ab, pat);
      assert ab[1..] == a[1..] + b;
      assert RemoveAll(ab, pat) == [a[0]] + RemoveAll(a[1..] + b, pat);
      RemoveAllPrefixAbsent(a[1..], b, pat);
      assert a == [a[0]] + a[1..];
    } else {
      assert a + b == b;
    }
  }

  // ---------------------------------------------------------------------------
  // Error messages

  /** `err.message || fallback`: the message when it is not empty, the
      fallback otherwise. */
  function MessageOr(message: string, fallback: string): (r: string)
    ensures message != "" ==> r == message
    ensures message == "" ==> r == fallback
    ensures fallback != "" ==> r != ""
  {
    if message != "" then message else fallback
  }

  // ---------------------------------------------------------------------------
  // The prefix before the first ':'

  /** `s.split(':')[0]`: everything before the first colon, or all of `s`. */
  function BeforeColon(s: string): (r: string)
    ensures |r| <= |s| && r == s[..|r|]
    ensures ':' !in r
    ensures |r| < |s| ==> s[|r|] == ':'
  {
    if s == [] || s[0] == ':' then [] else [s[0]] + BeforeColon(s[1..])
  }

  // ---------------------------------------------------------------------------
  // The relational `<` on strings

  /** `a < b` on two strings: lexicographic by character code, a proper prefix
      before the longer string. */
  predicate StrLess(a: string, b: string)
    decreases |a|
  {
    if |b| == 0 then false
    else if |a| == 0 then true
    else if a[0] != b[0] then a[0] < b[0]
    else StrLess(a[1..], b[1..])
  }

  lemma {:induction false} StrLessIrreflexive(a: string)
    ensures !StrLess(a, a)
    decreases |a|
  {
    if |a| > 0 {
      StrLessIrreflexive(a[1..]);
    }
  }

  lemma {:induction false} StrLessTransitive(a: string, b: string, c: string)
    requires StrLess(a, b) && StrLess(b, c)
    ensures StrLess(a, c)
    decreases |a|
  {
    if |a| > 0 && a[0] == b[0] && b[0] == c[0] {
      StrLessTransitive(a[1..], b[1..], c[1..]);
    }
  }

  /** Two different strings are ordered one way or the other, never both. */
  lemma {:induction false} StrLessTrichotomy(a: string, b: string)
    ensures a == b || StrLess(a, b) || StrLess(b, a)
    ensures !(StrLess(a, b) && StrLess(b, a))
    decreases |a|
  {
    if |a| > 0 && |b| > 0 && a[0] == b[0] {
      StrLessTrichotomy(a[1..], b[1..]);
      if a[1..] == b[1..] {
        assert a == [a[0]] + a[1..] && b == [b[0]] + b[1..];
      }
    }
  }

  // ---------------------------------------------------------------------------
  // Decimal rendering of whole numbers

  predicate IsDigit(c: char) {
    '0' <= c <= '9'
  }

  function DigitChar(d: nat): (c: char)
    requires d < 10
    ensures IsDigit(c) && c as int - '0' as int == d
  {
    (d + '0' as int) as char
  }

  /** `${n}` for a whole number: its decimal digits, without leading zeros. */
  function NatToString(n: nat): (r: string)
    ensures |r| >= 1
    ensures forall i :: 0 <= i < |r| ==> IsDigit(r[i])
    ensures r[0] == '0' ==> n == 0
  {
    if n < 10 then [DigitChar(n)] else NatToString(n / 10) + [DigitChar(n % 10)]
  }

  /** The number a string of decimal digits denotes. */
  function DecimalValue(s: string): nat
    requires forall i :: 0 <= i < |s| ==> IsDigit(s[i])
  {
    if s == [] then 0
    else
      assert IsDigit(s[|s| - 1]);
      DecimalValue(s[..|s| - 1]) * 10 + (s[|s| - 1] as int - '0' as int)
  }

  lemma {:induction false} NatToStringRoundTrip(n: nat)
    ensures DecimalValue(NatToString(n)) == n
  {
    if n >= 10 {
      NatToStringRoundTrip(n / 10);
      var r := NatToString(n);
      assert r[..|r| - 1] == NatToString(n / 10);
    }
  }

  lemma NatToStringInjective(m: nat, n: nat)
    requires NatToString(m) == NatToString(n)
    ensures m == n
  {
    NatToStringRoundTrip(m);
    NatToStringRoundTrip(n);
  }
}
