/** The JavaScript string built-ins the inventory view relies on:
    String.prototype.trim, toLowerCase, includes and localeCompare.
    Strings are sequences of characters. */
module JsText {

  /** The ECMAScript WhiteSpace and LineTerminator code points: exactly what trim removes. */
  const WhiteSpace: set<char> := {
    '\t', '\n', '\U{000B}', '\U{000C}', '\r', ' ', '\U{00A0}', '\U{1680}',
    '\U{2000}', '\U{2001}', '\U{2002}', '\U{2003}', '\U{2004}', '\U{2005}',
    '\U{2006}', '\U{2007}', '\U{2008}', '\U{2009}', '\U{200A}',
    '\U{2028}', '\U{2029}', '\U{202F}', '\U{205F}', '\U{3000}', '\U{FEFF}' }

  predicate IsWhite(c: char) {
    c in WhiteSpace
  }

  predicate AllWhite(s: string) {
    forall i :: 0 <= i < |s| ==> IsWhite(s[i])
  }

  /** Drops leading white space: the result is a suffix of s that starts with a
      non-white character (or is empty), and everything dropped was white. */
  function TrimStart(s: string): (r: string)
    ensures |r| <= |s| && r == s[|s| - |r|..]
    ensures AllWhite(s[..|s| - |r|])
    ensures r != [] ==> !IsWhite(r[0])
  {
    if s != [] && IsWhite(s[0]) then
      var r := TrimStart(s[1..]);
      assert s[..|s| - |r|] == [s[0]] + s[1..][..|s| - 1 - |r|];
      r
    else s
  }

  /** Drops trailing white space: the result is a prefix of s that ends with a
      non-white character (or is empty), and everything dropped was white. */
  function TrimEnd(s: string): (r: string)
    ensures |r| <= |s| && r == s[..|r|]
    ensures AllWhite(s[|r|..])
    ensures r != [] ==> !IsWhite(r[|r| - 1])
  {
    if s != [] && IsWhite(s[|s| - 1]) then TrimEnd(s[..|s| - 1]) else s
  }

  /** q occurs in s starting at index i. */
  predicate OccursAt(s: string, q: string, i: int) {
    0 <= i <= |s| - |q| && s[i..i + |q|] == q
  }

  /** String.prototype.trim: a contiguous piece of s with no white space at either end. */
  function Trim(s: string): (r: string)
    ensures exists k :: OccursAt(s, r, k)
    ensures r != [] ==> !IsWhite(r[0]) && !IsWhite(r[|r| - 1])
  {
    var t := TrimStart(s);
    var r := TrimEnd(t);
    assert OccursAt(s, r, |s| - |t|);
    r
  }

  /** trim cuts off white space only: what lies before and after the trimmed piece is
      all white. */
  lemma TrimCutsWhite(s: string)
    ensures exists k :: OccursAt(s, Trim(s), k) && AllWhite(s[..k]) && AllWhite(s[k + |Trim(s)|..])
  {
    var t := TrimStart(s);
    var r := TrimEnd(t);
    var k := |s| - |t|;
    PieceOfSuffix(s, k, t, r);
    assert r == Trim(s);
  }

  /** A prefix r of the suffix t = s[k..] sits at k in s, and what follows r in t
      follows it in s. */
  lemma PieceOfSuffix(s: string, k: nat, t: string, r: string)
    requires k <= |s| && t == s[k..] && |r| <= |t| && r == t[..|r|]
    ensures OccursAt(s, r, k) && s[k + |r|..] == t[|r|..]
  {
  }

  /** A string trims to nothing exactly when every character of it is white space. */
  lemma TrimEmptyIff(s: string)
    ensures Trim(s) == [] <==> AllWhite(s)
  {
    var t := TrimStart(s);
    if Trim(s) == [] {
      assert AllWhite(t[0..]);
      assert s == s[..|s| - |t|] + t;
    } else {
      var k :| OccursAt(s, Trim(s), k);
      assert s[k] == Trim(s)[0];
    }
  }

  /** toLowerCase on one character (ASCII letters only): a capital letter becomes the
      small letter 32 code points on, and every other character stays. */
  function LowerChar(c: char): (r: char)
    ensures !('A' <= r <= 'Z')
    ensures 'A' <= c <= 'Z' ==> r as int == c as int + 32 && 'a' <= r <= 'z'
    ensures !('A' <= c <= 'Z') ==> r == c
  {
    if 'A' <= c <= 'Z' then (c as int + 32) as char else c
  }

  /** String.prototype.toLowerCase, ASCII case mapping. */
  function ToLower(s: string): (r: string)
    ensures |r| == |s|
    ensures forall i :: 0 <= i < |s| ==> r[i] == LowerChar(s[i])
  {
    seq(|s|, i requires 0 <= i < |s| => LowerChar(s[i]))
  }

  /** Lower-casing twice is lower-casing once. */
  lemma ToLowerIdempotent(s: string)
    ensures ToLower(ToLower(s)) == ToLower(s)
  {
    var l := ToLower(s);
    assert forall i :: 0 <= i < |l| ==> LowerChar(l[i]) == l[i];
  }

  /** Lower-casing neither creates nor removes white space. */
  lemma LowerCharWhite(c: char)
    ensures IsWhite(LowerChar(c)) <==> IsWhite(c)
  {
  }

  /** A string is all white space exactly when its lower-cased form is. */
  lemma AllWhiteToLower(s: string)
    ensures AllWhite(ToLower(s)) <==> AllWhite(s)
  {
    forall i | 0 <= i < |s|
      ensures IsWhite(ToLower(s)[i]) <==> IsWhite(s[i])
    {
      LowerCharWhite(s[i]);
    }
  }

  /** s begins with q. */
  predicate StartsWith(s: string, q: string) {
    |q| <= |s| && s[..|q|] == q
  }

  /** String.prototype.includes: q occurs in s at some position (the empty
      string occurs everywhere). */
  function Includes(s: string, q: string): (r: bool)
    decreases |s|
  {
    StartsWith(s, q) || (s != [] && Includes(s[1..], q))
  }

  /** includes holds exactly when q is a contiguous piece of s. */
  lemma {:induction false} IncludesIff(s: string, q: string)
    ensures Includes(s, q) <==> exists i :: OccursAt(s, q, i)
    decreases |s|
  {
    if StartsWith(s, q) {
      assert OccursAt(s, q, 0);
    } else if s == [] {
    } else {
      IncludesIff(s[1..], q);
      if Includes(s, q) {
        var i :| OccursAt(s[1..], q, i);
        assert OccursAt(s, q, i + 1);
      } else {
        forall i | 0 <= i <= |s| - |q|
          ensures !OccursAt(s, q, i)
        {
          if i == 0 {
            assert s[..|q|] != q;
          } else {
            assert !OccursAt(s[1..], q, i - 1);
            assert s[i..i + |q|] == s[1..][i - 1..i - 1 + |q|];
          }
        }
      }
    }
  }

  /** String.prototype.localeCompare, modelled as lexicographic order on
      characters: negative, zero or positive as a sorts before, with, or after b. */
  function LocaleCompare(a: string, b: string): (r: int)
    ensures -1 <= r <= 1
    ensures r == 0 <==> a == b
  {
    if a == [] && b == [] then 0
    else if a == [] then -1
    else if b == [] then 1
    else if a[0] < b[0] then -1
    else if b[0] < a[0] then 1
    else
      assert a == [a[0]] + a[1..] && b == [b[0]] + b[1..];
      LocaleCompare(a[1..], b[1..])
  }

  /** Swapping the arguments negates the comparison. */
  lemma {:induction false} LocaleCompareFlip(a: string, b: string)
    ensures LocaleCompare(b, a) == -LocaleCompare(a, b)
  {
    if a != [] && b != [] && a[0] == b[0] {
      LocaleCompareFlip(a[1..], b[1..]);
    }
  }

  /** "Sorts no later than" is transitive. */
  lemma {:induction false} LocaleCompareTrans(a: string, b: string, c: string)
    requires LocaleCompare(a, b) <= 0 && LocaleCompare(b, c) <= 0
    ensures LocaleCompare(a, c) <= 0
  {
    if a != [] && b != [] && c != [] && a[0] == b[0] == c[0] {
      LocaleCompareTrans(a[1..], b[1..], c[1..]);
    }
  }
}
