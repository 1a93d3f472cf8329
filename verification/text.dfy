/** Text handling used by the board's guards: JavaScript's `String.prototype.trim`
    and `String.prototype.length`, which counts UTF-16 code units. */
module Text {

  /** The characters `trim` removes: ECMAScript's WhiteSpace and LineTerminator
      code points (tab, vertical tab, form feed, the byte-order mark, every
      space separator, line feed, carriage return, line and paragraph separator). */
  const TrimmableChars: seq<char> := [
    '\t', '\n', '\U{000B}', '\U{000C}', '\r', ' ', '\U{00A0}', '\U{1680}',
    '\U{2000}', '\U{2001}', '\U{2002}', '\U{2003}', '\U{2004}', '\U{2005}',
    '\U{2006}', '\U{2007}', '\U{2008}', '\U{2009}', '\U{200A}',
    '\U{2028}', '\U{2029}', '\U{202F}', '\U{205F}', '\U{3000}', '\U{FEFF}'
  ]

  predicate IsTrimmable(c: char) {
    Listed(c, TrimmableChars)
  }

  /** `c` occurs in `cs` (looked up one entry at a time, so that proofs that do
      not depend on which characters are listed never enumerate them). */
  predicate Listed(c: char, cs: seq<char>) {
    cs != [] && (cs[0] == c || Listed(c, cs[1..]))
  }

  /** Every character of `s` is one that `trim` removes. */
  predicate Blank(s: string) {
    forall k :: 0 <= k < |s| ==> IsTrimmable(s[k])
  }

  /** Index of the first character at `i` or later that `trim` keeps, or
      `|s|` when there is none. */
  function TrimFrom(s: string, i: nat): (a: nat)
    requires i <= |s|
    ensures i <= a <= |s|
    ensures forall k :: i <= k < a ==> IsTrimmable(s[k])
    ensures a < |s| ==> !IsTrimmable(s[a])
    decreases |s| - i
  {
    if i < |s| && IsTrimmable(s[i]) then TrimFrom(s, i + 1) else i
  }

  /** End (exclusive) of the last character before `j`, and not before `lo`,
      that `trim` keeps, or `lo` when there is none. */
  function TrimTo(s: string, lo: nat, j: nat): (b: nat)
    requires lo <= j <= |s|
    ensures lo <= b <= j
    ensures forall k :: b <= k < j ==> IsTrimmable(s[k])
    ensures b > lo ==> !IsTrimmable(s[b - 1])
    decreases j
  {
    if j > lo && IsTrimmable(s[j - 1]) then TrimTo(s, lo, j - 1) else j
  }

  /** `r` is what remains of `s` after removing the `i` characters before it
      and the characters after it, all of them trimmable, and `r` neither
      starts nor ends with a trimmable character. */
  predicate StripsTo(s: string, i: nat, r: string) {
    && i + |r| <= |s| && r == s[i..i + |r|]
    && (forall k :: 0 <= k < i ==> IsTrimmable(s[k]))
    && (forall k :: i + |r| <= k < |s| ==> IsTrimmable(s[k]))
    && (r == [] || (!IsTrimmable(r[0]) && !IsTrimmable(r[|r| - 1])))
  }

  /** `s.trim()`: the characters between the first and the last one that are
      not trimmable. The result is no longer than `s` and neither starts nor
      ends with a trimmable character; `TrimStrips` and `StripsToUnique` say
      that it is the only such slice. */
  function Trim(s: string): (t: string)
    ensures |t| <= |s|
    ensures t == [] || (!IsTrimmable(t[0]) && !IsTrimmable(t[|t| - 1]))
  {
    var a := TrimFrom(s, 0);
    s[a..TrimTo(s, a, |s|)]
  }

  /** The trimmed text is `s` stripped of trimmable characters at both ends,
      and it neither starts nor ends with one. */
  lemma TrimStrips(s: string)
    ensures StripsTo(s, TrimFrom(s, 0), Trim(s))
  {
    var a := TrimFrom(s, 0);
    var b := TrimTo(s, a, |s|);
    var r := s[a..b];
    if r != [] {
      assert r[0] == s[a] && r[|r| - 1] == s[b - 1];
    }
  }

  /** Trimming leaves nothing exactly when the whole string is trimmable. */
  lemma TrimEmptyIffBlank(s: string)
    ensures Trim(s) == [] <==> Blank(s)
  {
    var a := TrimFrom(s, 0);
    var b := TrimTo(s, a, |s|);
  }

  /** At most one string is left by stripping trimmable characters from both
      ends of `s`. */
  lemma StripsToUnique(s: string, i: nat, r: string, j: nat, q: string)
    requires StripsTo(s, i, r) && StripsTo(s, j, q)
    ensures r == q
  {
    if r != [] && q != [] {
      assert s[i] == r[0] && s[j] == q[0];
      assert i == j;
      assert s[i + |r| - 1] == r[|r| - 1] && s[j + |q| - 1] == q[|q| - 1];
      assert |r| == |q|;
    }
  }

  /** Trimming twice is trimming once. */
  lemma TrimIdempotent(s: string)
    ensures Trim(Trim(s)) == Trim(s)
  {
    var r := Trim(s);
    TrimStrips(s);
    TrimStrips(r);
    assert StripsTo(r, 0, r);
    StripsToUnique(r, TrimFrom(r, 0), Trim(r), 0, r);
  }

  /** Number of UTF-16 code units of `s`, which is what JavaScript's `length`
      reports: two for a code point above U+FFFF, one otherwise. */
  function Utf16Length(s: string): (n: nat)
    ensures |s| <= n <= 2 * |s|
  {
    if s == [] then 0
    else (if s[0] > '\U{FFFF}' then 2 else 1) + Utf16Length(s[1..])
  }

  /** Within the Basic Multilingual Plane the JavaScript length is the number
      of characters. */
  lemma {:induction false} Utf16LengthOfBmp(s: string)
    requires forall k :: 0 <= k < |s| ==> s[k] <= '\U{FFFF}'
    ensures Utf16Length(s) == |s|
  {
    if s != [] {
      Utf16LengthOfBmp(s[1..]);
    }
  }
}
