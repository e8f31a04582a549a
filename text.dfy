/**
 * The JavaScript string operations the channel directory relies on:
 * `toLowerCase` (restricted to ASCII), `trim`, `includes`, the default
 * comparison used by `Array.prototype.sort`, and `String(n)` for integers.
 */
module Text {

  // ---------------------------------------------------------------------
  // Characters
  // ---------------------------------------------------------------------

  /** The code points `String.prototype.trim` strips: ECMAScript WhiteSpace and LineTerminator. */
  predicate IsWhitespace(c: char) {
    var n := c as int;
    n == 0x09 || n == 0x0A || n == 0x0B || n == 0x0C || n == 0x0D || n == 0x20
    || n == 0xA0 || n == 0x1680 || (0x2000 <= n && n <= 0x200A)
    || n == 0x2028 || n == 0x2029 || n == 0x202F || n == 0x205F
    || n == 0x3000 || n == 0xFEFF
  }

  predicate IsAsciiUpper(c: char) {
    'A' <= c <= 'Z'
  }

  predicate IsDigit(c: char) {
    '0' <= c <= '9'
  }

  /** ASCII lower-casing of one character; every other character is left alone. */
  function ToLowerChar(c: char): (r: char)
    ensures !IsAsciiUpper(r)
    ensures IsWhitespace(r) == IsWhitespace(c)
    ensures IsDigit(r) == IsDigit(c)
  {
    if IsAsciiUpper(c) then (c as int + 32) as char else c
  }

  // ---------------------------------------------------------------------
  // toLowerCase
  // ---------------------------------------------------------------------

  function ToLower(s: string): (r: string)
    ensures |r| == |s|
    ensures forall i :: 0 <= i < |s| ==> r[i] == ToLowerChar(s[i])
  {
    seq(|s|, i requires 0 <= i < |s| => ToLowerChar(s[i]))
  }

  /** Lower-casing leaves no ASCII capital behind and changes only ASCII capitals. */
  lemma ToLowerMeaning(s: string)
    ensures |ToLower(s)| == |s|
    ensures forall i :: 0 <= i < |s| ==> !IsAsciiUpper(ToLower(s)[i])
    ensures forall i :: 0 <= i < |s| && !IsAsciiUpper(s[i]) ==> ToLower(s)[i] == s[i]
    ensures forall i :: 0 <= i < |s| && IsAsciiUpper(s[i]) ==> ToLower(s)[i] as int == s[i] as int + 32
  {
  }

  lemma ToLowerIdempotent(s: string)
    ensures ToLower(ToLower(s)) == ToLower(s)
  {
  }

  /** A string with no ASCII capital is its own lower-case form. */
  lemma ToLowerIdentity(s: string)
    requires forall i :: 0 <= i < |s| ==> !IsAsciiUpper(s[i])
    ensures ToLower(s) == s
  {
  }

  lemma ToLowerSlice(s: string, i: int, j: int)
    requires 0 <= i <= j <= |s|
    ensures ToLower(s[i..j]) == ToLower(s)[i..j]
  {
  }

  // ---------------------------------------------------------------------
  // trim
  // ---------------------------------------------------------------------

  /** Drops leading whitespace: the result is the suffix of `s` after its whitespace prefix. */
  function TrimStart(s: string): (r: string)
    ensures |r| <= |s| && r == s[|s| - |r|..]
    ensures forall i :: 0 <= i < |s| - |r| ==> IsWhitespace(s[i])
    ensures r == [] || !IsWhitespace(r[0])
    decreases |s|
  {
    if |s| > 0 && IsWhitespace(s[0]) then TrimStart(s[1..]) else s
  }

  /** Drops trailing whitespace: the result is the prefix of `s` before its whitespace suffix. */
  function TrimEnd(s: string): (r: string)
    ensures |r| <= |s| && r == s[..|r|]
    ensures forall i :: |r| <= i < |s| ==> IsWhitespace(s[i])
    ensures r == [] || !IsWhitespace(r[|r| - 1])
    decreases |s|
  {
    if |s| > 0 && IsWhitespace(s[|s| - 1]) then TrimEnd(s[..|s| - 1]) else s
  }

  /** `String.prototype.trim`. */
  function Trim(s: string): (r: string)
    ensures |r| <= |s|
    ensures r == [] || (!IsWhitespace(r[0]) && !IsWhitespace(r[|r| - 1]))
  {
    TrimEnd(TrimStart(s))
  }

  predicate AllWhitespace(s: string) {
    forall i :: 0 <= i < |s| ==> IsWhitespace(s[i])
  }

  /**
   * Trim removes exactly a whitespace prefix and a whitespace suffix, and what is
   * left (when anything is) begins and ends with a non-whitespace character.
   */
  lemma TrimShape(s: string) returns (a: nat)
    ensures a + |Trim(s)| <= |s| && Trim(s) == s[a..a + |Trim(s)|]
    ensures forall i :: 0 <= i < a ==> IsWhitespace(s[i])
    ensures forall i :: a + |Trim(s)| <= i < |s| ==> IsWhitespace(s[i])
    ensures Trim(s) == [] || (!IsWhitespace(Trim(s)[0]) && !IsWhitespace(Trim(s)[|Trim(s)| - 1]))
  {
    var t := TrimStart(s);
    var r := TrimEnd(t);
    a := |s| - |t|;
    assert Trim(s) == r;
    assert r == [] || !IsWhitespace(r[|r| - 1]);
    if r != [] {
      assert r[0] == t[0];
    }
    CutShape(s, t, r, a);
  }

  /** A whitespace cut on each side of `s`, written out as positions. */
  lemma CutShape(s: string, t: string, r: string, a: nat)
    requires a <= |s| && t == s[a..]
    requires |r| <= |t| && r == t[..|r|]
    requires forall i :: 0 <= i < a ==> IsWhitespace(s[i])
    requires forall i :: |r| <= i < |t| ==> IsWhitespace(t[i])
    ensures a + |r| <= |s| && r == s[a..a + |r|]
    ensures forall i :: a + |r| <= i < |s| ==> IsWhitespace(s[i])
  {
    forall i | a + |r| <= i < |s| ensures IsWhitespace(s[i]) {
      assert s[i] == t[i - a];
    }
  }

  /** The trimmed string is empty exactly when the input is all whitespace. */
  lemma TrimEmptyIff(s: string)
    ensures Trim(s) == [] <==> AllWhitespace(s)
  {
    var t := TrimStart(s);
    if !AllWhitespace(s) {
      assert t != [];
    }
  }

  /** Trim removes exactly the whitespace before position `a` and from position `b` on. */
  lemma TrimExact(s: string, a: nat, b: nat)
    requires a < b <= |s|
    requires forall i :: 0 <= i < a ==> IsWhitespace(s[i])
    requires forall i :: b <= i < |s| ==> IsWhitespace(s[i])
    requires !IsWhitespace(s[a]) && !IsWhitespace(s[b - 1])
    ensures Trim(s) == s[a..b]
  {
    TrimStartExact(s, a);
    TrimEndOfSuffix(s, a, b);
  }

  lemma TrimEndOfSuffix(s: string, a: nat, b: nat)
    requires a < b <= |s|
    requires forall i :: b <= i < |s| ==> IsWhitespace(s[i])
    requires !IsWhitespace(s[b - 1])
    ensures TrimEnd(s[a..]) == s[a..b]
  {
    var t := s[a..];
    forall i | b - a <= i < |t| ensures IsWhitespace(t[i]) {
      assert t[i] == s[a + i];
    }
    assert t[b - a - 1] == s[b - 1];
    TrimEndExact(t, b - a);
    assert t[..b - a] == s[a..b];
  }

  lemma {:induction false} TrimStartExact(s: string, a: nat)
    requires a < |s|
    requires forall i :: 0 <= i < a ==> IsWhitespace(s[i])
    requires !IsWhitespace(s[a])
    ensures TrimStart(s) == s[a..]
    decreases a
  {
    if a > 0 {
      forall i | 0 <= i < a - 1 ensures IsWhitespace(s[1..][i]) {
        assert s[1..][i] == s[i + 1];
      }
      assert s[1..][a - 1] == s[a];
      TrimStartExact(s[1..], a - 1);
      assert s[1..][a - 1..] == s[a..];
    }
  }

  lemma {:induction false} TrimEndExact(s: string, b: nat)
    requires 0 < b <= |s|
    requires forall i :: b <= i < |s| ==> IsWhitespace(s[i])
    requires !IsWhitespace(s[b - 1])
    ensures TrimEnd(s) == s[..b]
    decreases |s|
  {
    if b < |s| {
      var t := s[..|s| - 1];
      forall i | b <= i < |t| ensures IsWhitespace(t[i]) {
        assert t[i] == s[i];
      }
      assert t[b - 1] == s[b - 1];
      TrimEndExact(t, b);
      assert t[..b] == s[..b];
    }
  }

  /** Trimming a trimmed string changes nothing. */
  lemma TrimIdempotent(s: string)
    ensures Trim(Trim(s)) == Trim(s)
  {
    var r := Trim(s);
    var _ := TrimShape(s);
    if r != [] {
      assert TrimStart(r) == r;
      assert TrimEnd(r) == r;
    }
  }

  lemma {:induction false} TrimStartLower(s: string)
    ensures TrimStart(ToLower(s)) == ToLower(TrimStart(s))
    decreases |s|
  {
    if |s| > 0 && IsWhitespace(s[0]) {
      TrimStartLowerStep(s);
      TrimStartLower(s[1..]);
    } else if |s| > 0 {
      assert !IsWhitespace(ToLower(s)[0]);
    }
  }

  lemma TrimStartLowerStep(s: string)
    requires |s| > 0 && IsWhitespace(s[0])
    ensures TrimStart(ToLower(s)) == TrimStart(ToLower(s[1..]))
  {
    TrimStartLowerDrop(s);
    TrimStartLowerTail(s);
  }

  lemma TrimStartLowerDrop(s: string)
    requires |s| > 0 && IsWhitespace(s[0])
    ensures TrimStart(ToLower(s)) == TrimStart(ToLower(s)[1..])
  {
    var l := ToLower(s);
    assert IsWhitespace(l[0]);
    TrimStartDrop(l);
  }

  lemma TrimStartLowerTail(s: string)
    requires |s| > 0
    ensures TrimStart(ToLower(s)[1..]) == TrimStart(ToLower(s[1..]))
  {
    ToLowerSlice(s, 1, |s|);
    assert ToLower(s)[1..] == ToLower(s[1..]);
  }

  lemma TrimStartDrop(s: string)
    requires |s| > 0 && IsWhitespace(s[0])
    ensures TrimStart(s) == TrimStart(s[1..])
  {
  }

  lemma {:induction false} TrimEndLower(s: string)
    ensures TrimEnd(ToLower(s)) == ToLower(TrimEnd(s))
    decreases |s|
  {
    if |s| > 0 && IsWhitespace(s[|s| - 1]) {
      TrimEndLowerStep(s);
      TrimEndLower(s[..|s| - 1]);
    } else if |s| > 0 {
      assert !IsWhitespace(ToLower(s)[|s| - 1]);
    }
  }

  lemma TrimEndLowerStep(s: string)
    requires |s| > 0 && IsWhitespace(s[|s| - 1])
    ensures TrimEnd(ToLower(s)) == TrimEnd(ToLower(s[..|s| - 1]))
  {
    var l := ToLower(s);
    assert IsWhitespace(l[|l| - 1]);
    TrimEndDrop(l);
    ToLowerSlice(s, 0, |s| - 1);
  }

  lemma TrimEndDrop(s: string)
    requires |s| > 0 && IsWhitespace(s[|s| - 1])
    ensures TrimEnd(s) == TrimEnd(s[..|s| - 1])
  {
  }

  /** With ASCII lower-casing, lower-casing then trimming equals trimming then lower-casing. */
  lemma TrimLowerCommute(s: string)
    ensures Trim(ToLower(s)) == ToLower(Trim(s))
  {
    TrimStartLower(s);
    TrimEndLower(TrimStart(s));
  }

  // ---------------------------------------------------------------------
  // includes
  // ---------------------------------------------------------------------

  /** `s.includes(t)`, computed by trying every start position in turn. */
  predicate Contains(s: string, t: string)
    decreases |s|
  {
    t <= s || (|s| > 0 && Contains(s[1..], t))
  }

  /** `t` occurs in `s` starting at position `i`. */
  ghost predicate OccursAt(s: string, t: string, i: int) {
    0 <= i && i + |t| <= |s| && s[i..i + |t|] == t
  }

  /** The reference meaning of substring containment. */
  ghost predicate IsSubstring(t: string, s: string) {
    exists i :: OccursAt(s, t, i)
  }

  lemma {:induction false} ContainsIff(s: string, t: string)
    ensures Contains(s, t) <==> IsSubstring(t, s)
    decreases |s|
  {
    if t <= s {
      assert OccursAt(s, t, 0);
    } else if |s| > 0 {
      ContainsIff(s[1..], t);
      if Contains(s[1..], t) {
        var i :| OccursAt(s[1..], t, i);
        assert s[1..][i..i + |t|] == s[i + 1..i + 1 + |t|];
        assert OccursAt(s, t, i + 1);
      }
      if IsSubstring(t, s) {
        var i :| OccursAt(s, t, i);
        assert i != 0;
        assert s[1..][i - 1..i - 1 + |t|] == s[i..i + |t|];
        assert OccursAt(s[1..], t, i - 1);
      }
    }
  }

  /** An occurrence at a known position means `s.includes(t)`. */
  lemma ContainsAt(s: string, t: string, i: nat)
    requires i + |t| <= |s| && s[i..i + |t|] == t
    ensures Contains(s, t)
  {
    ContainsIff(s, t);
    assert OccursAt(s, t, i);
  }

  /** `t` cannot occur in `s` when one of its characters occurs nowhere in `s`. */
  lemma NotContained(s: string, t: string, k: nat)
    requires k < |t|
    requires forall i :: 0 <= i < |s| ==> s[i] != t[k]
    ensures !Contains(s, t)
  {
    ContainsIff(s, t);
  }

  // ---------------------------------------------------------------------
  // Default sort order
  // ---------------------------------------------------------------------

  /** Lexicographic order on character sequences, a shorter prefix first. */
  predicate LexLessEq(a: string, b: string)
    decreases |a|
  {
    if a == [] then true
    else if b == [] then false
    else if a[0] != b[0] then a[0] < b[0]
    else LexLessEq(a[1..], b[1..])
  }

  lemma {:induction false} LexReflexive(a: string)
    ensures LexLessEq(a, a)
    decreases |a|
  {
    if a != [] {
      LexReflexive(a[1..]);
    }
  }

  lemma {:induction false} LexAntisymmetric(a: string, b: string)
    requires LexLessEq(a, b) && LexLessEq(b, a)
    ensures a == b
    decreases |a|
  {
    if a != [] && b != [] {
      LexAntisymmetric(a[1..], b[1..]);
      assert a == [a[0]] + a[1..];
      assert b == [b[0]] + b[1..];
    }
  }

  lemma {:induction false} LexTransitive(a: string, b: string, c: string)
    requires LexLessEq(a, b) && LexLessEq(b, c)
    ensures LexLessEq(a, c)
    decreases |a|
  {
    if a != [] && b != [] && c != [] && a[0] == b[0] && b[0] == c[0] {
      LexTransitive(a[1..], b[1..], c[1..]);
    }
  }

  lemma {:induction false} LexTotal(a: string, b: string)
    ensures LexLessEq(a, b) || LexLessEq(b, a)
    decreases |a|
  {
    if a != [] && b != [] && a[0] == b[0] {
      LexTotal(a[1..], b[1..]);
    }
  }

  // ---------------------------------------------------------------------
  // String(n) for integers
  // ---------------------------------------------------------------------

  function DigitChar(d: nat): (c: char)
    requires d < 10
    ensures IsDigit(c) && c as int - '0' as int == d
  {
    ('0' as int + d) as char
  }

  /** Decimal text of a natural number, without leading zeros. */
  function NatToDecimal(n: nat): (r: string)
    ensures |r| > 0
    ensures forall i :: 0 <= i < |r| ==> IsDigit(r[i])
    ensures r[0] == '0' ==> r == "0"
    decreases n
  {
    if n < 10 then [DigitChar(n)] else NatToDecimal(n / 10) + [DigitChar(n % 10)]
  }

  /** `String(n)` for an integer `n`. */
  function IntToDecimal(n: int): (r: string)
    ensures |r| > 0
    ensures r[0] == '-' <==> n < 0
    ensures forall i :: (if n < 0 then 1 else 0) <= i < |r| ==> IsDigit(r[i])
  {
    if n < 0 then "-" + NatToDecimal(-n) else NatToDecimal(n)
  }

  /** The number a string of decimal digits denotes. */
  function DecimalValue(s: string): nat
    requires forall i :: 0 <= i < |s| ==> IsDigit(s[i])
    decreases |s|
  {
    if s == [] then 0
    else
      assert IsDigit(s[|s| - 1]);
      10 * DecimalValue(s[..|s| - 1]) + (s[|s| - 1] as int - '0' as int)
  }

  /** Reading back the decimal text of `n` gives `n`. */
  lemma {:induction false} DecimalRoundTrip(n: nat)
    ensures DecimalValue(NatToDecimal(n)) == n
    decreases n
  {
    if n >= 10 {
      var r := NatToDecimal(n);
      DecimalRoundTrip(n / 10);
      assert r[..|r| - 1] == NatToDecimal(n / 10);
    }
  }

  /** Different numbers have different decimal texts. */
  lemma DecimalInjective(m: nat, n: nat)
    requires NatToDecimal(m) == NatToDecimal(n)
    ensures m == n
  {
    DecimalRoundTrip(m);
    DecimalRoundTrip(n);
  }

  /** The text of a negative integer is a minus sign before the text of its magnitude. */
  lemma IntToDecimalMeaning(n: int)
    ensures n >= 0 ==> forall i :: 0 <= i < |IntToDecimal(n)| ==> IsDigit(IntToDecimal(n)[i])
    ensures n >= 0 ==> DecimalValue(IntToDecimal(n)) == n
    ensures n < 0 ==> IntToDecimal(n)[0] == '-' && IntToDecimal(n)[1..] == NatToDecimal(-n)
  {
    if n >= 0 {
      DecimalRoundTrip(n);
    } else {
      assert ("-" + NatToDecimal(-n))[1..] == NatToDecimal(-n);
    }
  }
}
