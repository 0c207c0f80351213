/**
 * The string primitives the storefront relies on: decimal rendering of
 * integers (as in a template literal `${id}`), `includes`, `trim` and an
 * ASCII `toLowerCase`.
 */
module Text {

  // ---------------------------------------------------------------------
  // Decimal rendering of integers
  // ---------------------------------------------------------------------

  predicate IsDigit(c: char) {
    '0' <= c <= '9'
  }

  function DigitChar(d: int): (c: char)
    requires 0 <= d < 10
    ensures IsDigit(c)
    ensures c as int - '0' as int == d
  {
    ['0', '1', '2', '3', '4', '5', '6', '7', '8', '9'][d]
  }

  function DigitValue(c: char): (d: nat)
    requires IsDigit(c)
    ensures d < 10
  {
    c as int - '0' as int
  }

  /** The value of a string of decimal digits, read most significant first. */
  function DigitsValue(s: string): (n: nat)
    requires forall k :: 0 <= k < |s| ==> IsDigit(s[k])
  {
    if |s| == 0 then 0
    else DigitsValue(s[..|s| - 1]) * 10 + DigitValue(s[|s| - 1])
  }

  /** The decimal digits of `n`, most significant first, without leading zeros. */
  function NatToString(n: nat): (s: string)
    ensures |s| > 0
    ensures forall k :: 0 <= k < |s| ==> IsDigit(s[k])
    ensures DigitsValue(s) == n
  {
    if n < 10 then [DigitChar(n)]
    else
      var prefix := NatToString(n / 10);
      var s := prefix + [DigitChar(n % 10)];
      assert s[..|s| - 1] == prefix;
      s
  }

  /** `${i}` for an integer `i`: a minus sign for negatives, then the digits. */
  function IntToString(i: int): (s: string)
    ensures |s| > 0
    ensures forall k :: 1 <= k < |s| ==> IsDigit(s[k])
    ensures s[0] == '-' <==> i < 0
    ensures s[0] != '-' ==> IsDigit(s[0])
  {
    if i < 0 then "-" + NatToString(-i) else NatToString(i)
  }

  /** Distinct integers render as distinct strings. */
  lemma IntToStringInjective(a: int, b: int)
    requires IntToString(a) == IntToString(b)
    ensures a == b
  {
    var s := IntToString(a);
    if a < 0 {
      assert b < 0;
      assert NatToString(-a) == s[1..] == NatToString(-b);
      assert DigitsValue(s[1..]) == -a == -b;
    } else {
      assert b >= 0;
      assert DigitsValue(s) == a == b;
    }
  }

  /** The first index at or after `k` holding `sep`, or `|x|` when there is none. */
  function SeparatorIndex(x: string, sep: char, k: nat): (j: nat)
    requires k <= |x|
    ensures k <= j <= |x|
    decreases |x| - k
  {
    if k == |x| || x[k] == sep then k else SeparatorIndex(x, sep, k + 1)
  }

  lemma {:induction false} SeparatorAfterHead(a: string, sep: char, s: string, k: nat)
    requires 1 <= k <= |a|
    requires forall j :: 1 <= j < |a| ==> a[j] != sep
    ensures SeparatorIndex(a + [sep] + s, sep, k) == |a|
    decreases |a| - k
  {
    var whole := a + [sep] + s;
    if k < |a| {
      assert whole[k] == a[k];
      SeparatorAfterHead(a, sep, s, k + 1);
    } else {
      assert whole[k] == sep;
    }
  }

  /**
   * A string `a + [sep] + s` in which `sep` occurs in `a` at most at its
   * first position splits uniquely: the head before the separator and the
   * tail after it are determined by the whole string.
   */
  lemma SplitAtSeparator(a: string, b: string, sep: char, s: string, t: string)
    requires |a| > 0 && |b| > 0
    requires forall k :: 1 <= k < |a| ==> a[k] != sep
    requires forall k :: 1 <= k < |b| ==> b[k] != sep
    requires a + [sep] + s == b + [sep] + t
    ensures a == b && s == t
  {
    var whole := a + [sep] + s;
    SeparatorAfterHead(a, sep, s, 1);
    SeparatorAfterHead(b, sep, t, 1);
    assert a == whole[..|a|] == b;
    assert s == whole[|a| + 1..] == t;
  }

  // ---------------------------------------------------------------------
  // Substrings (`String.prototype.includes`)
  // ---------------------------------------------------------------------

  predicate IsPrefix(p: string, s: string) {
    |p| <= |s| && s[..|p|] == p
  }

  /** `needle` occurs in `hay` starting at offset `i`. */
  predicate OccursAt(hay: string, needle: string, i: int) {
    0 <= i <= |hay| - |needle| && hay[i..i + |needle|] == needle
  }

  /** `hay.includes(needle)`. */
  predicate Contains(hay: string, needle: string)
    decreases |hay|
  {
    IsPrefix(needle, hay) || (|hay| > 0 && Contains(hay[1..], needle))
  }

  /** `includes` holds exactly when the needle occurs at some offset. */
  lemma {:induction false} ContainsAtOffset(hay: string, needle: string)
    ensures Contains(hay, needle) <==> exists i :: OccursAt(hay, needle, i)
    decreases |hay|
  {
    if IsPrefix(needle, hay) {
      assert OccursAt(hay, needle, 0);
    } else if |hay| == 0 {
    } else {
      ContainsAtOffset(hay[1..], needle);
      if Contains(hay[1..], needle) {
        var i :| OccursAt(hay[1..], needle, i);
        assert hay[i + 1..i + 1 + |needle|] == hay[1..][i..i + |needle|];
        assert OccursAt(hay, needle, i + 1);
      } else {
        forall i | OccursAt(hay, needle, i) && i >= 1
          ensures OccursAt(hay[1..], needle, i - 1)
        {
          assert hay[1..][i - 1..i - 1 + |needle|] == hay[i..i + |needle|];
        }
      }
    }
  }

  /** A needle holding a character the haystack lacks is not included in it. */
  lemma {:induction false} MissingChar(hay: string, needle: string, c: char)
    requires c in needle && c !in hay
    ensures !Contains(hay, needle)
    decreases |hay|
  {
    if |hay| > 0 {
      assert forall x :: x in hay[1..] ==> x in hay;
      MissingChar(hay[1..], needle, c);
    }
  }

  /** Every string includes the empty string. */
  lemma ContainsEmpty(hay: string)
    ensures Contains(hay, "")
  {
    assert IsPrefix("", hay);
  }

  // ---------------------------------------------------------------------
  // `toLowerCase`, ASCII letters only
  // ---------------------------------------------------------------------

  predicate IsUpperAscii(c: char) {
    'A' <= c <= 'Z'
  }

  function LowerChar(c: char): (r: char)
    ensures !IsUpperAscii(r)
    ensures !IsUpperAscii(c) ==> r == c
    ensures IsUpperAscii(c) ==> r as int == c as int + 32
    ensures IsWhitespace(r) == IsWhitespace(c)
  {
    if IsUpperAscii(c) then (c as int + 32) as char else c
  }

  /** `s.toLowerCase()` restricted to the ASCII letters A-Z. */
  function ToLower(s: string): (r: string)
    ensures |r| == |s|
    ensures forall k :: 0 <= k < |s| ==> r[k] == LowerChar(s[k])
  {
    seq(|s|, k requires 0 <= k < |s| => LowerChar(s[k]))
  }

  /** Lower-casing twice is lower-casing once. */
  lemma ToLowerIdempotent(s: string)
    ensures ToLower(ToLower(s)) == ToLower(s)
  {
  }

  // ---------------------------------------------------------------------
  // `trim`
  // ---------------------------------------------------------------------

  /**
   * The characters `String.prototype.trim` removes: the ECMAScript
   * WhiteSpace and LineTerminator code points (space separators of
   * category Zs included).
   */
  predicate IsWhitespace(c: char) {
    || ('\t' <= c <= '\r')
    || c == ' ' || c == '\U{00A0}' || c == '\U{1680}'
    || ('\U{2000}' <= c <= '\U{200A}')
    || c == '\U{2028}' || c == '\U{2029}' || c == '\U{202F}' || c == '\U{205F}'
    || c == '\U{3000}' || c == '\U{FEFF}'
  }

  /** `s` with every leading character that `drop` accepts removed: a suffix of `s`. */
  function TrimStartBy(s: string, drop: char -> bool): (r: string)
    ensures |r| <= |s| && r == s[|s| - |r|..]
    ensures forall k :: 0 <= k < |s| - |r| ==> drop(s[k])
    ensures |r| > 0 ==> !drop(r[0])
  {
    if |s| > 0 && drop(s[0]) then
      var r := TrimStartBy(s[1..], drop);
      assert s[1..][|s| - 1 - |r|..] == s[|s| - |r|..];
      assert forall k :: 1 <= k < |s| ==> s[k] == s[1..][k - 1];
      r
    else s
  }

  /** `s` with every trailing character that `drop` accepts removed: a prefix of `s`. */
  function TrimEndBy(s: string, drop: char -> bool): (r: string)
    ensures |r| <= |s| && r == s[..|r|]
    ensures forall k :: |r| <= k < |s| ==> drop(s[k])
    ensures |r| > 0 ==> !drop(r[|r| - 1])
  {
    if |s| > 0 && drop(s[|s| - 1]) then TrimEndBy(s[..|s| - 1], drop) else s
  }

  /** `s[i..j]` is what is left after cutting off only characters `drop` accepts before `i` and from `j` on. */
  predicate CutBounds(s: string, drop: char -> bool, i: int, j: int) {
    && 0 <= i <= j <= |s|
    && (forall k :: 0 <= k < i ==> drop(s[k]))
    && (forall k :: j <= k < |s| ==> drop(s[k]))
  }

  /** `s` with the characters `drop` accepts cut off at both ends. */
  function TrimBy(s: string, drop: char -> bool): (r: string)
    ensures exists i, j :: CutBounds(s, drop, i, j) && r == s[i..j]
    ensures |r| > 0 ==> !drop(r[0]) && !drop(r[|r| - 1])
    ensures r == "" <==> forall k :: 0 <= k < |s| ==> drop(s[k])
  {
    var front := TrimStartBy(s, drop);
    var r := TrimEndBy(front, drop);
    TrimByShape(s, drop, front, r);
    r
  }

  /** The ends cut off by trimming the front and then the back are exactly the dropped ends. */
  lemma TrimByShape(s: string, drop: char -> bool, front: string, r: string)
    requires |front| <= |s| && front == s[|s| - |front|..]
    requires forall k :: 0 <= k < |s| - |front| ==> drop(s[k])
    requires |front| > 0 ==> !drop(front[0])
    requires |r| <= |front| && r == front[..|r|]
    requires forall k :: |r| <= k < |front| ==> drop(front[k])
    requires |r| > 0 ==> !drop(r[|r| - 1])
    ensures exists i, j :: CutBounds(s, drop, i, j) && r == s[i..j]
    ensures |r| > 0 ==> !drop(r[0]) && !drop(r[|r| - 1])
    ensures r == "" <==> forall k :: 0 <= k < |s| ==> drop(s[k])
  {
    var i := |s| - |front|;
    TrimByCut(s, drop, front, r);
    TrimByEmpty(s, drop, i, r);
    assert CutBounds(s, drop, i, i + |r|) && r == s[i..i + |r|];
  }

  /**
   * Cutting the dropped characters off the front and then off the back
   * leaves an infix with only dropped characters around it.
   */
  lemma TrimByCut(s: string, drop: char -> bool, front: string, r: string)
    requires |front| <= |s| && front == s[|s| - |front|..]
    requires forall k :: 0 <= k < |s| - |front| ==> drop(s[k])
    requires |front| > 0 ==> !drop(front[0])
    requires |r| <= |front| && r == front[..|r|]
    requires forall k :: |r| <= k < |front| ==> drop(front[k])
    ensures var i := |s| - |front|;
      CutBounds(s, drop, i, i + |r|) && r == s[i..i + |r|]
    ensures |r| > 0 ==> !drop(r[0])
  {
    var i := |s| - |front|;
    PrefixOfSuffix(s, front, r);
    forall k | i + |r| <= k < |s|
      ensures drop(s[k])
    {
      assert s[k] == front[k - i];
    }
    if |r| > 0 {
      assert r[0] == front[0];
    }
  }

  /** The infix left by a cut is empty exactly when every character is dropped. */
  lemma TrimByEmpty(s: string, drop: char -> bool, i: int, r: string)
    requires CutBounds(s, drop, i, i + |r|) && r == s[i..i + |r|]
    requires |r| > 0 ==> !drop(r[0])
    ensures r == "" <==> forall k :: 0 <= k < |s| ==> drop(s[k])
  {
    if |r| > 0 {
      assert r[0] == s[i];
    }
  }

  /** A prefix `r` of a suffix `front` of `s` is an infix of `s`, and what follows it in `s` follows it in `front`. */
  lemma PrefixOfSuffix<T>(s: seq<T>, front: seq<T>, r: seq<T>)
    requires |front| <= |s| && front == s[|s| - |front|..]
    requires |r| <= |front| && r == front[..|r|]
    ensures var i := |s| - |front|;
      && r == s[i..i + |r|]
      && forall k :: i + |r| <= k < |s| ==> s[k] == front[k - i]
  {
  }

  /** The cut is the only one: bounds whose infix does not start or end with a dropped character give the same string. */
  lemma TrimByUnique(s: string, drop: char -> bool, i: int, j: int)
    requires CutBounds(s, drop, i, j) && i < j
    requires !drop(s[i]) && !drop(s[j - 1])
    ensures TrimBy(s, drop) == s[i..j]
  {
    CutUnique(s, drop, TrimBy(s, drop), i, j);
  }

  lemma CutUnique(s: string, drop: char -> bool, r: string, i: int, j: int)
    requires CutBounds(s, drop, i, j) && i < j && !drop(s[i]) && !drop(s[j - 1])
    requires exists i', j' :: CutBounds(s, drop, i', j') && r == s[i'..j']
    requires |r| > 0 ==> !drop(r[0]) && !drop(r[|r| - 1])
    requires r == "" <==> forall k :: 0 <= k < |s| ==> drop(s[k])
    ensures r == s[i..j]
  {
    assert |r| > 0;
    var i', j' :| CutBounds(s, drop, i', j') && r == s[i'..j'];
    InfixEnds(s, i', j');
    SameCut(s, drop, i, j, i', j');
  }

  /** The first and last elements of a non-empty infix. */
  lemma InfixEnds<T>(s: seq<T>, i: int, j: int)
    requires 0 <= i < j <= |s|
    ensures s[i..j][0] == s[i] && s[i..j][j - i - 1] == s[j - 1]
  {
  }

  /** Two cuts whose infixes neither start nor end with a dropped character are the same cut. */
  lemma SameCut(s: string, drop: char -> bool, i: int, j: int, i': int, j': int)
    requires CutBounds(s, drop, i, j) && i < j && !drop(s[i]) && !drop(s[j - 1])
    requires CutBounds(s, drop, i', j') && i' < j' && !drop(s[i']) && !drop(s[j' - 1])
    ensures i == i' && j == j'
  {
  }

  /** `s[i..j]` is what is left after cutting off only whitespace before `i` and from `j` on. */
  predicate TrimBounds(s: string, i: int, j: int) {
    CutBounds(s, IsWhitespace, i, j)
  }

  /**
   * `s.trim()`: the infix left after cutting off whitespace at both ends,
   * and neither of whose ends is whitespace.
   */
  function Trim(s: string): (r: string)
    ensures exists i, j :: TrimBounds(s, i, j) && r == s[i..j]
    ensures |r| > 0 ==> !IsWhitespace(r[0]) && !IsWhitespace(r[|r| - 1])
    ensures r == "" <==> forall k :: 0 <= k < |s| ==> IsWhitespace(s[k])
  {
    TrimBy(s, IsWhitespace)
  }

  /** `trim` cuts exactly at the first and after the last character that is not whitespace. */
  lemma TrimUnique(s: string, i: int, j: int)
    requires TrimBounds(s, i, j) && i < j
    requires !IsWhitespace(s[i]) && !IsWhitespace(s[j - 1])
    ensures Trim(s) == s[i..j]
  {
    TrimByUnique(s, IsWhitespace, i, j);
  }

  /** A string that neither starts nor ends with whitespace is its own trim. */
  lemma TrimKeepsTrimmed(s: string)
    requires |s| > 0 ==> !IsWhitespace(s[0]) && !IsWhitespace(s[|s| - 1])
    ensures Trim(s) == s
  {
    if |s| > 0 {
      TrimUnique(s, 0, |s|);
    }
  }
}
