/**
 * String helpers used by every screen: `trim`, `toLowerCase`, `includes`,
 * the `/\D/g` digit filter and `Number(...)` on a digit string.
 */
module Text {
  import opened Seqs

  /** The characters `String.prototype.trim` strips: ECMAScript WhiteSpace and LineTerminator. */
  predicate IsSpace(c: char) {
    || c == ' ' || c == '\t' || c == '\n' || c == '\r' || c == '\U{B}' || c == '\U{C}'
    || c == '\U{A0}' || c == '\U{1680}' || '\U{2000}' <= c <= '\U{200A}'
    || c == '\U{2028}' || c == '\U{2029}' || c == '\U{202F}' || c == '\U{205F}'
    || c == '\U{3000}' || c == '\U{FEFF}'
  }

  ghost predicate AllSpace(s: string) {
    forall i :: 0 <= i < |s| ==> IsSpace(s[i])
  }

  /** The index of the first character that is not whitespace, or `|s|`. */
  function TextStart(s: string): (k: nat)
    ensures k <= |s|
    ensures forall i :: 0 <= i < k ==> IsSpace(s[i])
    ensures k == |s| || !IsSpace(s[k])
  {
    if s != [] && IsSpace(s[0]) then 1 + TextStart(s[1..]) else 0
  }

  /** Drops leading whitespace; what is dropped is all whitespace and what remains is a suffix. */
  function TrimStart(s: string): (r: string)
    ensures |r| <= |s| && r == s[|s| - |r|..]
    ensures r == [] || !IsSpace(r[0])
    ensures AllSpace(s[..|s| - |r|])
  {
    s[TextStart(s)..]
  }

  /** The length of `s` without its trailing whitespace. */
  function TextEnd(s: string): (k: nat)
    ensures k <= |s|
    ensures forall i :: k <= i < |s| ==> IsSpace(s[i])
    ensures k == 0 || !IsSpace(s[k - 1])
  {
    if s != [] && IsSpace(s[|s| - 1]) then TextEnd(s[..|s| - 1]) else |s|
  }

  /** Drops trailing whitespace; what is dropped is all whitespace and what remains is a prefix. */
  function TrimEnd(s: string): (r: string)
    ensures |r| <= |s| && r == s[..|r|]
    ensures r == [] || !IsSpace(r[|r| - 1])
    ensures AllSpace(s[|r|..])
  {
    s[..TextEnd(s)]
  }

  /**
   * `String.prototype.trim`: the block of `s` that starts at its first
   * non-whitespace character, with only whitespace on either side of it.
   * The result is blank exactly when the input is all whitespace.
   */
  function Trim(s: string): (r: string)
    ensures |r| <= |s|
    ensures TextStart(s) + |r| <= |s| && r == s[TextStart(s)..TextStart(s) + |r|]
    ensures AllSpace(s[..TextStart(s)]) && AllSpace(s[TextStart(s) + |r|..])
    ensures r == [] || (!IsSpace(r[0]) && !IsSpace(r[|r| - 1]))
    ensures r == [] <==> AllSpace(s)
  {
    var k := TextStart(s);
    var t := TrimStart(s);
    assert t == s[k..] && |t| == |s| - k;
    assert t == [] ==> s[..k] == s;
    assert t != [] ==> !IsSpace(s[k]);
    var r := TrimEnd(t);
    assert r == t[..|r|] == s[k..k + |r|];
    assert s[k + |r|..] == t[|r|..];
    r
  }

  lemma TrimIdempotent(s: string)
    ensures Trim(Trim(s)) == Trim(s)
  {
    var r := Trim(s);
    assert TrimStart(r) == r;
    assert TrimEnd(r) == r;
  }

  /** Leading whitespace in front of `s` is all dropped by `TrimStart`. */
  lemma TrimStartSpacePrefix(a: string, s: string)
    requires AllSpace(a)
    ensures TrimStart(a + s) == TrimStart(s)
  {
    var k := TextStart(s);
    var t := a + s;
    forall i | 0 <= i < |a| + k ensures IsSpace(t[i]) {
      if i >= |a| {
        assert t[i] == s[i - |a|];
      }
    }
    TextStartUnique(t, |a| + k);
    assert t[|a| + k..] == s[k..];
  }

  /** `TextStart` is the only index with its two properties. */
  lemma TextStartUnique(s: string, k: int)
    requires 0 <= k <= |s|
    requires forall i :: 0 <= i < k ==> IsSpace(s[i])
    requires k == |s| || !IsSpace(s[k])
    ensures TextStart(s) == k
  {
  }

  lemma {:induction false} TrimEndSpaceSuffix(s: string, b: string)
    requires AllSpace(b)
    ensures TrimEnd(s + b) == TrimEnd(s)
  {
    if b != [] {
      assert (s + b)[..|s + b| - 1] == s + b[..|b| - 1];
      TrimEndSpaceSuffix(s, b[..|b| - 1]);
    } else {
      assert s + b == s;
    }
  }

  /** Once `s` has some text, appending to it does not move where `TrimStart` cuts. */
  lemma TrimStartAppend(s: string, b: string)
    requires !AllSpace(s)
    ensures TrimStart(s + b) == TrimStart(s) + b
  {
    var k := TextStart(s);
    var t := s + b;
    assert k < |s|;
    assert t[k] == s[k];
    TextStartUnique(t, k);
    assert t[k..] == s[k..] + b;
  }

  /** Surrounding a value with whitespace does not change what `trim` returns. */
  lemma TrimPadded(a: string, s: string, b: string)
    requires AllSpace(a) && AllSpace(b)
    ensures Trim(a + s + b) == Trim(s)
  {
    assert a + s + b == a + (s + b);
    TrimStartSpacePrefix(a, s + b);
    if AllSpace(s) {
      TrimStartSpacePrefix(s, b);
      assert b + [] == b;
      TrimStartSpacePrefix(b, []);
    } else {
      TrimStartAppend(s, b);
      TrimEndSpaceSuffix(TrimStart(s), b);
    }
  }

  /** `TrimStart` only drops whitespace: a non-whitespace character survives it. */
  lemma TrimStartKeepsNonSpace(s: string, c: char)
    requires !IsSpace(c)
    ensures c in TrimStart(s) <==> c in s
  {
    var r := TrimStart(s);
    var n := |s| - |r|;
    forall k | 0 <= k < n ensures s[k] != c {
      assert s[..n][k] == s[k];
    }
    KeptSlice(s, r, n, c);
  }

  /** `TrimEnd` only drops whitespace: a non-whitespace character survives it. */
  lemma TrimEndKeepsNonSpace(s: string, c: char)
    requires !IsSpace(c)
    ensures c in TrimEnd(s) <==> c in s
  {
    var r := TrimEnd(s);
    forall k | |r| <= k < |s| ensures s[k] != c {
      assert s[|r|..][k - |r|] == s[k];
    }
    KeptSlice(s, r, 0, c);
  }

  /** When `r` is the block of `s` at `lo` and `c` occurs nowhere outside it, `c` is in `r` exactly when it is in `s`. */
  lemma KeptSlice(s: string, r: string, lo: int, c: char)
    requires 0 <= lo && lo + |r| <= |s|
    requires forall i :: 0 <= i < |r| ==> r[i] == s[lo + i]
    requires forall k :: 0 <= k < |s| && !(lo <= k < lo + |r|) ==> s[k] != c
    ensures c in r <==> c in s
  {
    if c in s {
      var i :| 0 <= i < |s| && s[i] == c;
      assert r[i - lo] == c;
    }
    if c in r {
      var j :| 0 <= j < |r| && r[j] == c;
      assert s[lo + j] == c;
    }
  }

  /** Trimming only removes whitespace: a character that is not whitespace survives it. */
  lemma TrimKeepsNonSpace(s: string, c: char)
    requires !IsSpace(c)
    ensures c in Trim(s) <==> c in s
  {
    TrimStartKeepsNonSpace(s, c);
    TrimEndKeepsNonSpace(TrimStart(s), c);
  }

  /** Searching for a one-character string is testing membership. */
  lemma ContainsChar(s: string, c: char)
    ensures Contains(s, [c]) <==> c in s
  {
    ContainsAt(s, [c]);
    if c in s {
      var i :| 0 <= i < |s| && s[i] == c;
      assert s[i..i + 1] == [c];
      assert OccursAt(s, [c], i);
    }
    if Contains(s, [c]) {
      var i :| OccursAt(s, [c], i);
      assert s[i] == s[i..i + 1][0];
    }
  }

  /** A string without whitespace is its own trim. */
  lemma TrimNoSpace(s: string)
    requires forall i :: 0 <= i < |s| ==> !IsSpace(s[i])
    ensures Trim(s) == s
  {
  }

  /** ASCII `toLowerCase` on one character. */
  function LowerChar(c: char): (r: char)
    ensures 'A' <= c <= 'Z' ==> r as int == c as int + 32
    ensures !('A' <= c <= 'Z') ==> r == c
  {
    if 'A' <= c <= 'Z' then (c as int + 32) as char else c
  }

  /** `toLowerCase`, on ASCII letters only. */
  function ToLower(s: string): (r: string)
    ensures |r| == |s|
    ensures forall i :: 0 <= i < |s| ==> r[i] == LowerChar(s[i])
  {
    seq(|s|, i requires 0 <= i < |s| => LowerChar(s[i]))
  }

  lemma ToLowerIdempotent(s: string)
    ensures ToLower(ToLower(s)) == ToLower(s)
    ensures forall i :: 0 <= i < |s| ==> !('A' <= ToLower(s)[i] <= 'Z')
  {
  }

  /** `s.includes(q)`: `q` occurs in `s` as a contiguous block. */
  function Contains(s: string, q: string): (b: bool)
    ensures b ==> |q| <= |s|
    ensures q == [] ==> b
  {
    if |q| <= |s| && s[..|q|] == q then true
    else if s == [] then false
    else Contains(s[1..], q)
  }

  /** `q` occurs in `s` starting at index `i`. */
  ghost predicate OccursAt(s: string, q: string, i: int) {
    0 <= i <= |s| - |q| && s[i..i + |q|] == q
  }

  /** `Contains` is exactly "occurs somewhere". */
  lemma {:induction false} ContainsAt(s: string, q: string)
    ensures Contains(s, q) <==> exists i :: OccursAt(s, q, i)
  {
    if |q| <= |s| && s[..|q|] == q {
      assert OccursAt(s, q, 0);
    } else if s != [] {
      ContainsAt(s[1..], q);
      if exists i :: OccursAt(s, q, i) {
        var i :| OccursAt(s, q, i);
        assert i != 0;
        OccursAtTail(s, q, i - 1);
      }
      if Contains(s[1..], q) {
        var i :| OccursAt(s[1..], q, i);
        OccursAtTail(s, q, i);
      }
    } else {
      assert forall i :: !OccursAt(s, q, i);
    }
  }

  /** An occurrence in the tail is an occurrence one place later in the whole. */
  lemma OccursAtTail(s: string, q: string, i: int)
    requires s != [] && i >= 0
    ensures OccursAt(s[1..], q, i) <==> OccursAt(s, q, i + 1)
  {
    if 0 <= i <= |s| - 1 - |q| {
      assert s[1..][i..i + |q|] == s[i + 1..i + 1 + |q|];
    }
  }

  predicate IsDigit(c: char) {
    '0' <= c <= '9'
  }

  /** `s.replace(/\D/g, "")`: every non-digit removed, digits kept in order. */
  function DigitsOnly(s: string): (r: string)
    ensures |r| == Count(s, IsDigit)
    ensures forall i :: 0 <= i < |r| ==> IsDigit(r[i])
    ensures forall c :: multiset(r)[c] == if IsDigit(c) then multiset(s)[c] else 0
  {
    FilterLength(s, IsDigit);
    FilterMultiset(s, IsDigit);
    Filter(s, IsDigit)
  }

  lemma DigitsOnlyIdempotent(s: string)
    ensures DigitsOnly(DigitsOnly(s)) == DigitsOnly(s)
  {
    FilterIdempotent(s, IsDigit);
  }

  lemma DigitsOnlyKeepsOrder(s: string)
    ensures Subsequence(DigitsOnly(s), s)
  {
    FilterIsSubsequence(s, IsDigit);
  }

  /** A character outside the Basic Multilingual Plane, which UTF-16 writes as a surrogate pair. */
  predicate IsAstral(c: char) {
    c as int >= 0x1_0000
  }

  /**
   * `String.prototype.length`: the number of UTF-16 code units, one per
   * character and one more for each astral character.
   */
  function Utf16Length(s: string): (n: nat)
    ensures n == |s| + Count(s, IsAstral)
    ensures |s| <= n <= 2 * |s|
  {
    if s == [] then 0
    else Utf16Length(s[..|s| - 1]) + (if IsAstral(s[|s| - 1]) then 2 else 1)
  }

  /** The UTF-16 length of a concatenation is the sum of the lengths. */
  lemma {:induction false} Utf16LengthAppend(a: string, b: string)
    ensures Utf16Length(a + b) == Utf16Length(a) + Utf16Length(b)
  {
    if b == [] {
      assert a + b == a;
    } else {
      assert (a + b)[..|a + b| - 1] == a + b[..|b| - 1];
      Utf16LengthAppend(a, b[..|b| - 1]);
    }
  }

  /** On text inside the Basic Multilingual Plane the UTF-16 length is the character count. */
  lemma {:induction false} Utf16LengthBmp(s: string)
    requires forall i :: 0 <= i < |s| ==> !IsAstral(s[i])
    ensures Utf16Length(s) == |s|
  {
    if s != [] {
      Utf16LengthBmp(s[..|s| - 1]);
    }
  }

  /** A string of decimal digits trims to itself, and its UTF-16 length is its length. */
  lemma DigitsTrimLength(s: string)
    requires forall i :: 0 <= i < |s| ==> IsDigit(s[i])
    ensures Trim(s) == s
    ensures Utf16Length(Trim(s)) == |s|
  {
    assert forall i :: 0 <= i < |s| ==> !IsSpace(s[i]) && !IsAstral(s[i]);
    TrimNoSpace(s);
    Utf16LengthBmp(s);
  }

  /** `Number(d)` for a string of decimal digits. */
  function DecimalValue(d: string): (n: nat)
    requires forall i :: 0 <= i < |d| ==> IsDigit(d[i])
  {
    if d == [] then 0
    else
      var c := d[|d| - 1];
      assert IsDigit(c);
      DecimalValue(d[..|d| - 1]) * 10 + (c as int - '0' as int)
  }

  /** The decimal text of a natural number, as a number input displays it. */
  function DecimalText(n: nat): (d: string)
    ensures d != []
    ensures forall i :: 0 <= i < |d| ==> IsDigit(d[i])
  {
    if n < 10 then [('0' as int + n) as char]
    else DecimalText(n / 10) + [('0' as int + n % 10) as char]
  }

  lemma {:induction false} DecimalRoundTrip(n: nat)
    ensures DecimalValue(DecimalText(n)) == n
  {
    var d := DecimalText(n);
    if n >= 10 {
      DecimalRoundTrip(n / 10);
      assert d[..|d| - 1] == DecimalText(n / 10);
    }
  }
}
