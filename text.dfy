/**
 * String helpers shared by the dashboard's components: the ASCII part of
 * `toUpperCase`/`toLowerCase`, the `charAt(0).toUpperCase() + slice(1)` idiom,
 * `split` on one separator character, `trim`, and decimal rendering of a
 * natural number (template-literal interpolation of `Date.now()` and of step
 * numbers).
 */
module Text {

  // ---------------------------------------------------------------- case

  predicate IsAsciiLower(c: char) { 'a' <= c <= 'z' }
  predicate IsAsciiUpper(c: char) { 'A' <= c <= 'Z' }

  function UpperChar(c: char): (u: char)
    ensures !IsAsciiLower(u)
    ensures !IsAsciiLower(c) ==> u == c
  {
    if IsAsciiLower(c) then (c as int - 32) as char else c
  }

  function LowerChar(c: char): (l: char)
    ensures !IsAsciiUpper(l)
    ensures !IsAsciiUpper(c) ==> l == c
  {
    if IsAsciiUpper(c) then (c as int + 32) as char else c
  }

  /** `s.toUpperCase()` restricted to ASCII letters: length-preserving, character-wise. */
  function Upper(s: string): (r: string)
    ensures |r| == |s|
    ensures forall i :: 0 <= i < |s| ==> r[i] == UpperChar(s[i])
  {
    seq(|s|, i requires 0 <= i < |s| => UpperChar(s[i]))
  }

  /** `s.toLowerCase()` restricted to ASCII letters. */
  function Lower(s: string): (r: string)
    ensures |r| == |s|
    ensures forall i :: 0 <= i < |s| ==> r[i] == LowerChar(s[i])
  {
    seq(|s|, i requires 0 <= i < |s| => LowerChar(s[i]))
  }

  /** A string without ASCII capitals is its own lower-case form. */
  lemma LowerOfLowerCase(s: string)
    requires forall i :: 0 <= i < |s| ==> !IsAsciiUpper(s[i])
    ensures Lower(s) == s
  {
  }

  /** `s.charAt(0).toUpperCase() + s.slice(1)`. */
  function Capitalize(s: string): (r: string)
    ensures |r| == |s|
    ensures s == [] <==> r == []
    ensures s != [] ==> r[0] == UpperChar(s[0]) && r[1..] == s[1..]
  {
    if s == [] then [] else [UpperChar(s[0])] + s[1..]
  }

  // ---------------------------------------------------------------- split

  /**
   * `s.split(sep)` for a one-character separator: the maximal runs between
   * separators, so there is always one more part than separators.
   */
  function Split(s: string, sep: char): (parts: seq<string>)
    ensures |parts| >= 1
    decreases |s|
  {
    if s == [] then [[]]
    else
      var rest := Split(s[1..], sep);
      if s[0] == sep then [[]] + rest
      else [[s[0]] + rest[0]] + rest[1..]
  }

  /** `parts.join(sep)`. */
  function Join(parts: seq<string>, sep: char): string
  {
    if |parts| == 0 then []
    else if |parts| == 1 then parts[0]
    else parts[0] + [sep] + Join(parts[1..], sep)
  }

  /** `parts.filter(Boolean)` on strings: drop the empty ones, keep order. */
  function NonEmpty(parts: seq<string>): (r: seq<string>)
    ensures |r| <= |parts|
    ensures forall i :: 0 <= i < |r| ==> r[i] != []
    ensures forall p :: p in r <==> p in parts && p != []
  {
    if parts == [] then []
    else if parts[0] == [] then NonEmpty(parts[1..])
    else [parts[0]] + NonEmpty(parts[1..])
  }

  /** Splitting and joining again gives back the string. */
  lemma {:induction false} JoinSplit(s: string, sep: char)
    ensures Join(Split(s, sep), sep) == s
    decreases |s|
  {
    if s != [] {
      JoinSplit(s[1..], sep);
      var rest := Split(s[1..], sep);
      if s[0] == sep {
        assert Split(s, sep) == [[]] + rest;
        assert ([[]] + rest)[1..] == rest;
      } else {
        var parts := Split(s, sep);
        assert parts[0] == [s[0]] + rest[0];
        assert parts[1..] == rest[1..];
        if |rest| == 1 {
          assert Join(parts, sep) == [s[0]] + rest[0];
        } else {
          assert Join(parts, sep) == [s[0]] + rest[0] + [sep] + Join(rest[1..], sep);
        }
      }
    }
  }

  /** No part of a split contains the separator. */
  lemma {:induction false} SplitPartsFree(s: string, sep: char)
    ensures forall p :: p in Split(s, sep) ==> sep !in p
    decreases |s|
  {
    if s != [] {
      SplitPartsFree(s[1..], sep);
    }
  }

  /** A leading separator opens an empty first part. */
  lemma SplitConsSep(t: string, sep: char)
    ensures Split([sep] + t, sep) == [[]] + Split(t, sep)
  {
    assert ([sep] + t)[1..] == t;
  }

  /** Any other leading character joins the first part. */
  lemma SplitConsOther(c: char, t: string, sep: char)
    requires c != sep
    ensures Split([c] + t, sep) == [[c] + Split(t, sep)[0]] + Split(t, sep)[1..]
  {
    assert ([c] + t)[1..] == t;
  }

  /** A leading separator keeps a shared tail of two splits shared. */
  lemma SplitSepShared(x: string, t: string, right: seq<string>, sep: char)
    requires Split(x, sep) == Split(t, sep) + right
    ensures Split([sep] + x, sep) == Split([sep] + t, sep) + right
  {
    SplitConsSep(x, sep);
    SplitConsSep(t, sep);
    assert [[]] + (Split(t, sep) + right) == ([[]] + Split(t, sep)) + right;
  }

  /** Any other leading character keeps a shared tail of two splits shared. */
  lemma SplitOtherShared(c: char, x: string, t: string, right: seq<string>, sep: char)
    requires c != sep && Split(x, sep) == Split(t, sep) + right
    ensures Split([c] + x, sep) == Split([c] + t, sep) + right
  {
    var left, mid := Split(t, sep), Split(x, sep);
    SplitConsOther(c, x, sep);
    SplitConsOther(c, t, sep);
    assert mid[0] == left[0];
    assert mid[1..] == left[1..] + right;
    assert [[c] + left[0]] + (left[1..] + right) == ([[c] + left[0]] + left[1..]) + right;
  }

  /** A separator in the middle splits the string into the parts of each side. */
  lemma {:induction false} SplitAround(a: string, b: string, sep: char)
    ensures Split(a + [sep] + b, sep) == Split(a, sep) + Split(b, sep)
    decreases |a|
  {
    if a == [] {
      assert a + [sep] + b == [sep] + b;
      SplitConsSep(b, sep);
    } else {
      var c, t := a[0], a[1..];
      SplitAround(t, b, sep);
      if c == sep {
        SplitSepShared(t + [sep] + b, t, Split(b, sep), sep);
      } else {
        SplitOtherShared(c, t + [sep] + b, t, Split(b, sep), sep);
      }
      assert a == [c] + t;
      assert a + [sep] + b == [c] + (t + [sep] + b);
    }
  }

  /** A string without the separator is a single part. */
  lemma {:induction false} SplitNoSeparator(s: string, sep: char)
    requires sep !in s
    ensures Split(s, sep) == [s]
    decreases |s|
  {
    if s != [] {
      SplitNoSeparator(s[1..], sep);
      assert s == [s[0]] + s[1..];
    }
  }

  /** Joining one more part appends the separator and that part. */
  lemma {:induction false} JoinSnoc(parts: seq<string>, x: string, sep: char)
    requires parts != []
    ensures Join(parts + [x], sep) == Join(parts, sep) + [sep] + x
    decreases |parts|
  {
    if |parts| == 1 {
      assert (parts + [x])[1..] == [x];
    } else {
      assert (parts + [x])[1..] == parts[1..] + [x];
      JoinSnoc(parts[1..], x, sep);
    }
  }

  /** Dropping empty parts distributes over concatenation. */
  lemma NonEmptyAppend(p: seq<string>, q: seq<string>)
    ensures NonEmpty(p + q) == NonEmpty(p) + NonEmpty(q)
  {
    if p != [] {
      assert (p + q)[1..] == p[1..] + q;
      NonEmptyAppend(p[1..], q);
    } else {
      assert p + q == q;
    }
  }

  // ---------------------------------------------------------------- search

  /** `part` occurs in `s` starting at index `i`. */
  predicate OccursAt(s: string, part: string, i: int)
  {
    0 <= i && i + |part| <= |s| && s[i..i + |part|] == part
  }

  predicate Contains(s: string, part: string)
  {
    exists i :: 0 <= i <= |s| && OccursAt(s, part, i)
  }

  /** `s.indexOf(part)`: the first index where `part` occurs, or -1. */
  function IndexOf(s: string, part: string): (i: int)
    ensures i == -1 || OccursAt(s, part, i)
    ensures forall j :: 0 <= j < (if i == -1 then |s| + 1 else i) ==> !OccursAt(s, part, j)
    ensures i == -1 <==> !Contains(s, part)
  {
    IndexFrom(s, part, 0)
  }

  function IndexFrom(s: string, part: string, k: nat): (i: int)
    requires k <= |s|
    ensures i == -1 || (k <= i && OccursAt(s, part, i))
    ensures forall j :: k <= j < (if i == -1 then |s| + 1 else i) ==> !OccursAt(s, part, j)
    decreases |s| - k
  {
    if OccursAt(s, part, k) then k
    else if k == |s| then -1
    else IndexFrom(s, part, k + 1)
  }

  /** A last character other than `c` changes neither where `c` last occurs nor whether it occurs. */
  lemma LastIndexStep(s: string, c: char, i: int)
    requires s != [] && s[|s| - 1] != c
    requires -1 <= i < |s| - 1
    requires i >= 0 ==> s[..|s| - 1][i] == c && c !in s[..|s| - 1][i + 1..]
    requires i == -1 <==> c !in s[..|s| - 1]
    ensures i >= 0 ==> s[i] == c && c !in s[i + 1..]
    ensures i == -1 <==> c !in s
  {
    var p := s[..|s| - 1];
    if c in s {
      var k :| 0 <= k < |s| && s[k] == c;
      assert p[k] == c;
    }
    if c in p {
      var k :| 0 <= k < |p| && p[k] == c;
      assert s[k] == c;
    }
    if i >= 0 {
      assert s[i] == p[i];
      var after, before := s[i + 1..], p[i + 1..];
      forall k | 0 <= k < |after| ensures after[k] != c {
        if i + 1 + k < |p| {
          assert after[k] == before[k];
        }
      }
    }
  }

  /** `s.lastIndexOf(c)` for one character: the last index holding `c`, or -1. */
  function LastIndexOf(s: string, c: char): (i: int)
    ensures -1 <= i < |s|
    ensures i >= 0 ==> s[i] == c && c !in s[i + 1..]
    ensures i == -1 <==> c !in s
  {
    if s == [] then -1
    else if s[|s| - 1] == c then |s| - 1
    else
      var i := LastIndexOf(s[..|s| - 1], c);
      LastIndexStep(s, c, i);
      i
  }

  // ---------------------------------------------------------------- trim

  /**
   * ECMAScript's WhiteSpace and LineTerminator code points, the set that
   * `String.prototype.trim` removes.
   */
  predicate IsWhiteSpace(c: char)
  {
    var n := c as int;
    (0x09 <= n <= 0x0D) || n == 0x20 || n == 0xA0 || n == 0x1680 ||
    (0x2000 <= n <= 0x200A) || n == 0x2028 || n == 0x2029 || n == 0x202F ||
    n == 0x205F || n == 0x3000 || n == 0xFEFF
  }

  predicate HasVisible(s: string)
  {
    exists i :: 0 <= i < |s| && !IsWhiteSpace(s[i])
  }

  /** A leading white-space character does not change whether a visible one follows. */
  lemma HasVisibleAfterSpace(s: string)
    requires s != [] && IsWhiteSpace(s[0])
    ensures HasVisible(s) <==> HasVisible(s[1..])
  {
    if HasVisible(s) {
      var i :| 0 <= i < |s| && !IsWhiteSpace(s[i]);
      assert s[1..][i - 1] == s[i];
    }
    if HasVisible(s[1..]) {
      var i :| 0 <= i < |s[1..]| && !IsWhiteSpace(s[1..][i]);
      assert s[i + 1] == s[1..][i];
    }
  }

  predicate AllWhiteSpace(t: string)
  {
    forall k :: 0 <= k < |t| ==> IsWhiteSpace(t[k])
  }

  /** Dropping one leading white-space character before trimming the rest trims the whole. */
  lemma TrimStartStep(s: string, r: string)
    requires s != [] && IsWhiteSpace(s[0])
    requires |r| <= |s| - 1 && r == s[1..][|s| - 1 - |r|..]
    requires AllWhiteSpace(s[1..][..|s| - 1 - |r|])
    requires r == [] <==> !HasVisible(s[1..])
    ensures r == s[|s| - |r|..] && AllWhiteSpace(s[..|s| - |r|])
    ensures r == [] <==> !HasVisible(s)
  {
    HasVisibleAfterSpace(s);
    assert s[1..][|s| - 1 - |r|..] == s[|s| - |r|..];
    assert s[..|s| - |r|] == [s[0]] + s[1..][..|s| - 1 - |r|];
  }

  /** `s.trimStart()`: the longest suffix that does not start with white space. */
  function TrimStart(s: string): (r: string)
    ensures |r| <= |s| && r == s[|s| - |r|..]
    ensures AllWhiteSpace(s[..|s| - |r|])
    ensures r == [] <==> !HasVisible(s)
    ensures r != [] ==> !IsWhiteSpace(r[0])
  {
    if s != [] && IsWhiteSpace(s[0]) then
      var r := TrimStart(s[1..]);
      TrimStartStep(s, r);
      r
    else
      assert s != [] ==> HasVisible(s) by { if s != [] { assert !IsWhiteSpace(s[0]); } }
      assert s[..0] == [];
      s
  }

  /** Dropping one trailing white-space character before trimming the rest trims the whole. */
  lemma TrimEndStep(s: string, r: string)
    requires s != [] && IsWhiteSpace(s[|s| - 1])
    requires |r| <= |s| - 1 && r == s[..|s| - 1][..|r|]
    requires AllWhiteSpace(s[..|s| - 1][|r|..])
    ensures r == s[..|r|] && AllWhiteSpace(s[|r|..])
  {
    assert s[..|s| - 1][..|r|] == s[..|r|];
    assert s[|r|..] == s[..|s| - 1][|r|..] + [s[|s| - 1]];
  }

  /** `s.trimEnd()`: the longest prefix that does not end with white space. */
  function TrimEnd(s: string): (r: string)
    ensures |r| <= |s| && r == s[..|r|]
    ensures AllWhiteSpace(s[|r|..])
    ensures r != [] ==> !IsWhiteSpace(r[|r| - 1])
    ensures s != [] && !IsWhiteSpace(s[0]) ==> r != []
  {
    if s != [] && IsWhiteSpace(s[|s| - 1]) then
      var r := TrimEnd(s[..|s| - 1]);
      TrimEndStep(s, r);
      r
    else
      assert s[|s|..] == [];
      s
  }

  /** `r` sits in `s` at `lo`, with only white space before and after it. */
  predicate TrimmedAt(s: string, r: string, lo: int)
  {
    0 <= lo <= |s| - |r| && r == s[lo..lo + |r|] && AllWhiteSpace(s[..lo]) && AllWhiteSpace(s[lo + |r|..])
  }

  /** Trimming the end of what is left after trimming the start leaves a stretch with white space on both sides. */
  lemma TrimBothEnds(s: string, t: string, r: string)
    requires |t| <= |s| && t == s[|s| - |t|..] && AllWhiteSpace(s[..|s| - |t|])
    requires |r| <= |t| && r == t[..|r|] && AllWhiteSpace(t[|r|..])
    ensures TrimmedAt(s, r, |s| - |t|)
  {
    var lo := |s| - |t|;
    assert r == s[lo..lo + |r|];
    assert s[lo + |r|..] == t[|r|..];
  }

  /** `s.trim()`. */
  function Trim(s: string): (r: string)
    ensures |r| <= |s|
  {
    TrimEnd(TrimStart(s))
  }

  /** `s.trim()` neither starts nor ends with white space. */
  lemma TrimEndsVisible(s: string)
    ensures var r := Trim(s); r != [] ==> !IsWhiteSpace(r[0]) && !IsWhiteSpace(r[|r| - 1])
  {
    var t := TrimStart(s);
    var r := TrimEnd(t);
    assert r == Trim(s);
    if r != [] {
      assert r[0] == t[0];
    }
  }

  /** `s.trim()` is a stretch of `s` with only white space outside it. */
  lemma TrimIsStretch(s: string)
    ensures exists lo :: TrimmedAt(s, Trim(s), lo)
  {
    var t := TrimStart(s);
    var r := TrimEnd(t);
    assert r == Trim(s);
    TrimBothEnds(s, t, r);
    assert TrimmedAt(s, r, |s| - |t|);
  }

  /** `s.trim()` is non-empty exactly when `s` holds a character that is not white space. */
  lemma TrimNonEmpty(s: string)
    ensures Trim(s) != [] <==> HasVisible(s)
  {
  }

  // ---------------------------------------------------------------- decimals

  function DigitChar(d: nat): (c: char)
    requires d < 10
    ensures '0' <= c <= '9'
  {
    ('0' as int + d) as char
  }

  predicate IsDigits(s: string)
  {
    forall i :: 0 <= i < |s| ==> '0' <= s[i] <= '9'
  }

  /** The decimal rendering of a natural number, as `${n}` gives it. */
  function Decimal(n: nat): (s: string)
    ensures s != [] && IsDigits(s)
  {
    if n < 10 then [DigitChar(n)] else Decimal(n / 10) + [DigitChar(n % 10)]
  }

  /** The number a string of decimal digits denotes. */
  function DecimalValue(s: string): nat
    requires IsDigits(s)
  {
    if s == [] then 0
    else DecimalValue(s[..|s| - 1]) * 10 + (s[|s| - 1] as int - '0' as int)
  }

  /** Reading back a rendered number gives the number. */
  lemma {:induction false} DecimalRoundTrip(n: nat)
    ensures DecimalValue(Decimal(n)) == n
  {
    if n >= 10 {
      DecimalRoundTrip(n / 10);
      var s := Decimal(n);
      assert s[..|s| - 1] == Decimal(n / 10);
    }
  }

  /** Rendering is injective: distinct numbers give distinct strings. */
  lemma DecimalInjective(m: nat, n: nat)
    requires Decimal(m) == Decimal(n)
    ensures m == n
  {
    DecimalRoundTrip(m);
    DecimalRoundTrip(n);
  }
}
