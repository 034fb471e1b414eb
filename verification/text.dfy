/**
 * The JavaScript string operations the application relies on, over
 * `string` = `seq<char>`: prefix and substring tests, ASCII case mapping,
 * `split`/`join` on a single-character separator, and decimal rendering
 * of a natural number.
 */
module Text {

  /** `s.startsWith(p)`. */
  predicate StartsWith(s: string, p: string) {
    |p| <= |s| && s[..|p|] == p
  }

  /** `p` occurs in `s` starting at position `i`. */
  predicate MatchesAt(s: string, p: string, i: int) {
    0 <= i && i + |p| <= |s| && s[i..i + |p|] == p
  }

  /** `s.includes(p)`. */
  predicate Contains(s: string, p: string) {
    exists i | 0 <= i <= |s| - |p| :: MatchesAt(s, p, i)
  }

  /** A witness position is enough to show containment. */
  lemma ContainsWitness(s: string, p: string, i: int)
    requires MatchesAt(s, p, i)
    ensures Contains(s, p)
  {
  }

  /** If some character of `p` never occurs in `s`, then `p` does not occur in `s`. */
  lemma NotContainsByAbsentChar(s: string, p: string, j: nat)
    requires j < |p| && p[j] !in s
    ensures !Contains(s, p)
  {
    forall i | 0 <= i <= |s| - |p|
      ensures !MatchesAt(s, p, i)
    {
      assert s[i..i + |p|][j] == s[i + j];
    }
  }

  /**
   * If character `p[j]` occurs in `s` only at position `m`, the only place
   * `p` could start is `m - j`; so when `p` does not match there, `p` does
   * not occur in `s` at all.
   */
  lemma NotContainsByUniqueChar(s: string, p: string, j: nat, m: nat)
    requires j < |p| && m < |s| && s[m] == p[j]
    requires p[j] !in s[..m] && p[j] !in s[m + 1..]
    requires !MatchesAt(s, p, m - j)
    ensures !Contains(s, p)
  {
    forall i | 0 <= i <= |s| - |p|
      ensures !MatchesAt(s, p, i)
    {
      assert s[i..i + |p|][j] == s[i + j];
      if i + j < m {
        assert s[i + j] == s[..m][i + j];
      } else if i + j > m {
        assert s[i + j] == s[m + 1..][i + j - m - 1];
      }
    }
  }

  /** Every character of `s` is drawn from `alphabet`. */
  predicate Within(s: string, alphabet: set<char>) {
    forall i | 0 <= i < |s| :: s[i] in alphabet
  }

  /** A pattern with a character outside the alphabet of `s` does not occur in `s`. */
  lemma NotContainsOutside(s: string, alphabet: set<char>, p: string, j: nat)
    requires Within(s, alphabet) && j < |p| && p[j] !in alphabet
    ensures !Contains(s, p)
  {
    forall i | 0 <= i <= |s| - |p|
      ensures !MatchesAt(s, p, i)
    {
      assert s[i..i + |p|][j] == s[i + j];
    }
  }

  /** A concatenation starts with its first part. */
  lemma StartsWithConcat(a: string, b: string)
    ensures StartsWith(a + b, a)
  {
    assert (a + b)[..|a|] == a;
  }

  /** `p` occurs in `a + p + b`, starting right after `a`. */
  lemma ContainsMiddle(a: string, p: string, b: string)
    ensures Contains(a + p + b, p)
  {
    assert (a + p + b)[|a|..|a| + |p|] == p;
    assert MatchesAt(a + p + b, p, |a|);
  }

  /** `p` occurs in `a + p`. */
  lemma ContainsSuffix(a: string, p: string)
    ensures Contains(a + p, p)
  {
    assert a + p == a + p + "";
    ContainsMiddle(a, p, "");
  }

  /**
   * `NotContainsByUniqueChar` for a string written as `a + [c] + b` with
   * `c` in neither `a` nor `b`.
   */
  lemma NotContainsAround(a: string, c: char, b: string, p: string, j: nat)
    requires j < |p| && p[j] == c && c !in a && c !in b
    requires !MatchesAt(a + [c] + b, p, |a| - j)
    ensures !Contains(a + [c] + b, p)
  {
    var s := a + [c] + b;
    assert s[..|a|] == a && s[|a| + 1..] == b;
    NotContainsByUniqueChar(s, p, j, |a|);
  }

  /** `toUpperCase` on one character, for the ASCII letters. */
  function UpperChar(c: char): char {
    if 'a' <= c <= 'z' then (c as int - 32) as char else c
  }

  /** `toLowerCase` on one character, for the ASCII letters. */
  function LowerChar(c: char): char {
    if 'A' <= c <= 'Z' then (c as int + 32) as char else c
  }

  /** `s.toLowerCase()`. */
  function Lower(s: string): (r: string)
    ensures |r| == |s|
    ensures forall i :: 0 <= i < |s| ==> r[i] == LowerChar(s[i])
  {
    seq(|s|, i requires 0 <= i < |s| => LowerChar(s[i]))
  }

  /** `s.charAt(0).toUpperCase() + s.slice(1)`. */
  function Capitalise(s: string): (r: string)
    ensures |r| == |s|
    ensures |s| > 0 ==> r[0] == UpperChar(s[0]) && r[1..] == s[1..]
    ensures s == "" ==> r == ""
  {
    if |s| == 0 then "" else [UpperChar(s[0])] + s[1..]
  }

  /** Number of occurrences of `c` in `s`. */
  function Count(s: string, c: char): nat
  {
    if |s| == 0 then 0 else (if s[0] == c then 1 else 0) + Count(s[1..], c)
  }

  /**
   * `s.split(c)` for a one-character separator: the maximal runs of
   * non-separator characters, including the empty runs before, between and
   * after separators. Never an empty list.
   */
  function Split(s: string, c: char): (r: seq<string>)
    ensures |r| == Count(s, c) + 1
    ensures forall k :: 0 <= k < |r| ==> c !in r[k]
    decreases |s|
  {
    if |s| == 0 then [""]
    else
      var rest := Split(s[1..], c);
      if s[0] == c then [""] + rest
      else [[s[0]] + rest[0]] + rest[1..]
  }

  /** `parts.join(c)`. */
  function Join(parts: seq<string>, c: char): string
    decreases |parts|
  {
    if |parts| == 0 then ""
    else if |parts| == 1 then parts[0]
    else parts[0] + [c] + Join(parts[1..], c)
  }

  /** Splitting and re-joining on the same separator gives back the string. */
  lemma {:induction false} JoinSplit(s: string, c: char)
    ensures Join(Split(s, c), c) == s
    decreases |s|
  {
    if |s| > 0 {
      var rest := Split(s[1..], c);
      JoinSplit(s[1..], c);
      if s[0] == c {
        assert Split(s, c) == [""] + rest;
        assert ([""] + rest)[1..] == rest;
      } else {
        assert Split(s, c) == [[s[0]] + rest[0]] + rest[1..];
        if |rest| > 1 {
          assert ([[s[0]] + rest[0]] + rest[1..])[1..] == rest[1..];
        }
      }
    }
  }

  /** A string without the separator splits into itself alone. */
  lemma {:induction false} SplitFree(s: string, c: char)
    requires c !in s
    ensures Split(s, c) == [s]
    decreases |s|
  {
    if |s| > 0 {
      SplitFree(s[1..], c);
      assert [s[0]] + s[1..] == s;
    }
  }

  /** A separator after a separator-free prefix ends the first piece there. */
  lemma {:induction false} SplitAround(a: string, c: char, b: string)
    requires c !in a
    ensures Split(a + [c] + b, c) == [a] + Split(b, c)
    decreases |a|
  {
    var s := a + [c] + b;
    if |a| == 0 {
      assert s == [c] + b && s[1..] == b;
    } else {
      assert s[1..] == a[1..] + [c] + b;
      SplitAround(a[1..], c, b);
      assert [a[0]] + a[1..] == a;
    }
  }

  /** The first piece of `s.split(c)`: the text before the first `c`. */
  function FirstSegment(s: string, c: char): (r: string)
    ensures c !in r
    ensures StartsWith(s, r)
    ensures |r| < |s| ==> s[|r|] == c
    ensures c !in s ==> r == s
    decreases |s|
  {
    if |s| == 0 || s[0] == c then "" else [s[0]] + FirstSegment(s[1..], c)
  }

  /** `FirstSegment` is indeed the first piece that `Split` produces. */
  lemma {:induction false} FirstSegmentIsFirstPiece(s: string, c: char)
    ensures Split(s, c)[0] == FirstSegment(s, c)
    decreases |s|
  {
    if |s| > 0 && s[0] != c {
      FirstSegmentIsFirstPiece(s[1..], c);
    }
  }

  /**
   * `s.split(c).pop()`: the last piece. It is a suffix of `s` free of `c`,
   * and either it is all of `s` or a `c` stands just before it.
   */
  function LastSegment(s: string, c: char): (r: string)
    ensures c !in r
    ensures |r| <= |s| && s[|s| - |r|..] == r
    ensures |r| < |s| ==> s[|s| - |r| - 1] == c
    ensures |r| == |s| ==> c !in s
    decreases |s|
  {
    if |s| == 0 then ""
    else if s[|s| - 1] == c then ""
    else LastSegment(s[..|s| - 1], c) + [s[|s| - 1]]
  }

  /** `LastSegment` is indeed the last piece that `Split` produces. */
  lemma {:induction false} LastSegmentIsLastPiece(s: string, c: char)
    ensures Split(s, c)[|Split(s, c)| - 1] == LastSegment(s, c)
  {
    var parts := Split(s, c);
    var last := parts[|parts| - 1];
    JoinSplit(s, c);
    assert Join(parts, c) == s;
    assert c !in last;
    if |parts| == 1 {
      assert last == s;
      assert s[|s| - |last|..] == last;
    } else {
      JoinEndsWithLast(parts, c);
    }
    // Both are the longest c-free suffix of s.
    SuffixUnique(s, c, last, LastSegment(s, c));
  }

  /** `Join` of several parts ends with the last part, preceded by the separator. */
  lemma {:induction false} JoinEndsWithLast(parts: seq<string>, c: char)
    requires |parts| > 1
    ensures |parts[|parts| - 1]| < |Join(parts, c)|
    ensures Join(parts, c)[|Join(parts, c)| - |parts[|parts| - 1]|..] == parts[|parts| - 1]
    ensures Join(parts, c)[|Join(parts, c)| - |parts[|parts| - 1]| - 1] == c
    decreases |parts|
  {
    var rest := parts[1..];
    assert Join(parts, c) == parts[0] + [c] + Join(rest, c);
    assert rest[|rest| - 1] == parts[|parts| - 1];
    if |parts| > 2 {
      JoinEndsWithLast(rest, c);
    } else {
      assert Join(rest, c) == parts[1];
    }
  }

  /** Two suffixes of `s` that are free of `c` and are maximal (whole string or preceded by `c`) coincide. */
  lemma SuffixUnique(s: string, c: char, a: string, b: string)
    requires c !in a && |a| <= |s| && s[|s| - |a|..] == a && (|a| < |s| ==> s[|s| - |a| - 1] == c)
    requires c !in b && |b| <= |s| && s[|s| - |b|..] == b && (|b| < |s| ==> s[|s| - |b| - 1] == c)
    ensures a == b
  {
    forall i | |s| - |b| <= i < |s|
      ensures s[i] != c
    {
      assert s[i] == b[i - (|s| - |b|)];
    }
    forall i | |s| - |a| <= i < |s|
      ensures s[i] != c
    {
      assert s[i] == a[i - (|s| - |a|)];
    }
    assert |a| == |b|;
  }

  /** One decimal digit. */
  function DigitChar(d: nat): (r: char)
    requires d < 10
    ensures '0' <= r <= '9'
  {
    "0123456789"[d]
  }

  /** A decimal numeral: non-empty and made of digits. */
  predicate IsNumeral(s: string) {
    |s| > 0 && forall i :: 0 <= i < |s| ==> '0' <= s[i] <= '9'
  }

  /** Template-literal rendering `${n}` of a natural number. */
  function NatToDecimal(n: nat): (r: string)
    ensures IsNumeral(r)
  {
    if n < 10 then [DigitChar(n)] else NatToDecimal(n / 10) + [DigitChar(n % 10)]
  }
}
