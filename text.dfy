/**
 * String facts the service relies on: decimal rendering of ids (cache keys and
 * messages), blank and whitespace tests (`@NotBlank`, `StringUtils.hasText`),
 * ASCII lower-casing, substring tests and PostgreSQL's `LIKE`.
 */
module Text {
  import opened Common

  // ---------------------------------------------------------------- digits

  predicate IsDigit(c: char) {
    '0' <= c <= '9'
  }

  predicate AllDigits(s: string) {
    forall i :: 0 <= i < |s| ==> IsDigit(s[i])
  }

  function DigitChar(d: nat): (c: char)
    requires d < 10
    ensures IsDigit(c)
    ensures c as int - '0' as int == d
  {
    ('0' as int + d) as char
  }

  /** `Long.toString` on a non-negative value: most significant digit first, no leading zeros. */
  function NatToString(n: nat): (s: string)
    ensures 1 <= |s| && AllDigits(s)
    ensures (n < 10) == (|s| == 1)
  {
    if n < 10 then [DigitChar(n)] else NatToString(n / 10) + [DigitChar(n % 10)]
  }

  /** Reads a string of decimal digits back as a number. */
  function ParseDigits(s: string): (n: nat)
    requires AllDigits(s)
  {
    if s == [] then 0 else 10 * ParseDigits(s[..|s| - 1]) + (s[|s| - 1] as int - '0' as int)
  }

  /** Rendering an id and reading it back gives the id: the rendering loses nothing. */
  lemma {:induction false} ParseNatToString(n: nat)
    ensures ParseDigits(NatToString(n)) == n
  {
    var s := NatToString(n);
    if n >= 10 {
      assert s[..|s| - 1] == NatToString(n / 10);
      ParseNatToString(n / 10);
    }
  }

  /** Distinct ids render as distinct strings. */
  lemma NatToStringInjective(n: nat, m: nat)
    requires NatToString(n) == NatToString(m)
    ensures n == m
  {
    ParseNatToString(n);
    ParseNatToString(m);
  }

  // ------------------------------------------------------------ whitespace

  /** `Character.isWhitespace`: ASCII controls and the Unicode space separators except no-break spaces. */
  predicate IsJavaWhitespace(c: char) {
    || c == ' ' || c == '\t' || c == '\n' || c == '\U{B}' || c == '\U{C}' || c == '\r'
    || ('\U{1C}' <= c <= '\U{1F}')
    || c == '\U{1680}' || ('\U{2000}' <= c <= '\U{2006}') || ('\U{2008}' <= c <= '\U{200A}')
    || c == '\U{2028}' || c == '\U{2029}' || c == '\U{205F}' || c == '\U{3000}'
  }

  /** Spring's `StringUtils.hasText`: not null and holding a character that is not whitespace. */
  predicate HasText(s: Option<string>) {
    s.Some? && exists i :: 0 <= i < |s.value| && !IsJavaWhitespace(s.value[i])
  }

  /** Bean Validation's `@NotBlank`: not null and `trim()` (which drops characters up to U+0020) leaves something. */
  predicate NotBlank(s: Option<string>) {
    s.Some? && exists i :: 0 <= i < |s.value| && s.value[i] > ' '
  }

  // ------------------------------------------------------------ lower case

  function LowerChar(c: char): char {
    if 'A' <= c <= 'Z' then (c as int + 32) as char else c
  }

  /** `toLowerCase()` and SQL `LOWER`, on the ASCII letters. */
  function Lower(s: string): (r: string)
    ensures |r| == |s|
    ensures forall i :: 0 <= i < |s| ==> r[i] == LowerChar(s[i])
  {
    seq(|s|, i requires 0 <= i < |s| => LowerChar(s[i]))
  }

  /** Lower-casing twice is lower-casing once. */
  lemma LowerIdempotent(s: string)
    ensures Lower(Lower(s)) == Lower(s)
  {
  }

  /** Lower-casing neither creates nor removes a non-whitespace character. */
  lemma LowerKeepsText(s: string)
    ensures HasText(Some(Lower(s))) <==> HasText(Some(s))
  {
    if HasText(Some(s)) {
      var i :| 0 <= i < |s| && !IsJavaWhitespace(s[i]);
      assert !IsJavaWhitespace(Lower(s)[i]);
    }
    if HasText(Some(Lower(s))) {
      var i :| 0 <= i < |s| && !IsJavaWhitespace(Lower(s)[i]);
      assert !IsJavaWhitespace(s[i]);
    }
  }

  // ------------------------------------------------------------ substrings

  predicate StartsWith(s: string, prefix: string) {
    |prefix| <= |s| && s[..|prefix|] == prefix
  }

  /** `String.contains`. */
  predicate Contains(s: string, t: string) {
    exists i :: 0 <= i <= |s| && StartsWith(s[i..], t)
  }

  /** Unfolds `Contains` one character at a time. */
  lemma ContainsStep(s: string, t: string)
    ensures Contains(s, t) <==> StartsWith(s, t) || (s != [] && Contains(s[1..], t))
  {
    if Contains(s, t) && !StartsWith(s, t) {
      var i :| 0 <= i <= |s| && StartsWith(s[i..], t);
      assert i != 0 by { assert s[0..] == s; }
      assert s[1..][i - 1..] == s[i..];
    }
    if s != [] && Contains(s[1..], t) {
      var i :| 0 <= i <= |s[1..]| && StartsWith(s[1..][i..], t);
      assert s[1..][i..] == s[i + 1..];
    }
    if StartsWith(s, t) {
      assert s[0..] == s;
    }
  }

  /** If some character of `t` occurs nowhere in `s`, then `s` does not contain `t`. */
  lemma NotContainsForeignChar(s: string, t: string, j: nat)
    requires j < |t|
    requires forall i :: 0 <= i < |s| ==> s[i] != t[j]
    ensures !Contains(s, t)
  {
    if Contains(s, t) {
      var i :| 0 <= i <= |s| && StartsWith(s[i..], t);
      CharOfPrefix(s, t, i, j);
      assert false;
    }
  }

  lemma CharOfPrefix(s: string, t: string, i: nat, j: nat)
    requires i <= |s| && StartsWith(s[i..], t) && j < |t|
    ensures i + j < |s| && s[i + j] == t[j]
  {
    assert s[i..][..|t|][j] == t[j];
  }

  /** Every character of an occurrence of `t` at position `i`. */
  lemma OccurrenceChars(s: string, t: string, i: nat)
    requires i <= |s| && StartsWith(s[i..], t)
    ensures i + |t| <= |s|
    ensures forall j :: 0 <= j < |t| ==> s[i + j] == t[j]
  {
    forall j | 0 <= j < |t|
      ensures s[i + j] == t[j]
    {
      CharOfPrefix(s, t, i, j);
    }
  }

  /** An occurrence of `t` at position `i` makes `s` contain `t`. */
  lemma ContainsAt(s: string, t: string, i: nat)
    requires i + |t| <= |s| && s[i..i + |t|] == t
    ensures Contains(s, t)
  {
    assert s[i..][..|t|] == s[i..i + |t|];
  }

  /**
   * A `t` ending in a non-digit cannot straddle into, or lie within, a
   * trailing run of digits: any occurrence in `p + d` lies within `p`.
   */
  lemma ContainsBeforeDigits(p: string, d: string, t: string)
    requires AllDigits(d) && |t| > 0 && !IsDigit(t[|t| - 1])
    requires Contains(p + d, t)
    ensures Contains(p, t)
  {
    var s := p + d;
    var i :| 0 <= i <= |s| && StartsWith(s[i..], t);
    OccurrenceChars(s, t, i);
    var last := i + |t| - 1;
    assert s[last] == t[|t| - 1];
    assert last < |p|;
    assert s[i..i + |t|] == p[i..i + |t|];
    ContainsAt(p, t, i);
  }

  /**
   * `s` does not contain `t` when `t`'s first character occurs in `s` only at
   * position `at` (among positions where `t` would fit), and an occurrence at
   * `at` is spoiled by character `j`.
   */
  lemma AbsentUnlessAt(s: string, t: string, at: nat, j: nat)
    requires j < |t|
    requires forall i :: 0 <= i && i + |t| <= |s| && i != at ==> s[i] != t[0]
    requires at + |t| <= |s| ==> s[at + j] != t[j]
    ensures !Contains(s, t)
  {
    if Contains(s, t) {
      var i :| 0 <= i <= |s| && StartsWith(s[i..], t);
      OccurrenceChars(s, t, i);
      assert false;
    }
  }

  // ------------------------------------------------------------------ LIKE

  /** A pattern character that `LIKE` treats specially (PostgreSQL: `\` is the default escape). */
  predicate IsLikeMeta(c: char) {
    c == '%' || c == '_' || c == '\\'
  }

  /** A pattern with no wildcard and no escape: it matches itself only. */
  predicate IsLiteral(p: string) {
    forall i :: 0 <= i < |p| ==> !IsLikeMeta(p[i])
  }

  /**
   * PostgreSQL `s LIKE p`: `%` matches any run, `_` any one character, and `\`
   * makes the next character literal. A pattern ending in a lone `\` is an error
   * in PostgreSQL; it matches nothing here (the filters below never build one).
   */
  function Like(s: string, p: string): bool
    decreases |p|, |s|
  {
    if p == [] then s == []
    else if p[0] == '%' then Like(s, p[1..]) || (s != [] && Like(s[1..], p))
    else if p[0] == '_' then s != [] && Like(s[1..], p[1..])
    else if p[0] == '\\' then |p| >= 2 && s != [] && s[0] == p[1] && Like(s[1..], p[2..])
    else s != [] && s[0] == p[0] && Like(s[1..], p[1..])
  }

  /** `%` alone matches every string. */
  lemma {:induction false} LikeAnything(s: string)
    ensures Like(s, "%")
  {
    if s != [] {
      LikeAnything(s[1..]);
    }
  }

  /** A literal followed by `%` matches exactly the strings that start with the literal. */
  lemma {:induction false} LikePrefix(s: string, p: string)
    requires IsLiteral(p)
    ensures Like(s, p + "%") <==> StartsWith(s, p)
    decreases |p|
  {
    if p == [] {
      assert p + "%" == "%";
      LikeAnything(s);
    } else {
      assert (p + "%")[0] == p[0];
      assert (p + "%")[1..] == p[1..] + "%";
      assert !IsLikeMeta(p[0]);
      if s != [] {
        LikePrefix(s[1..], p[1..]);
        if StartsWith(s, p) {
          assert s[1..][..|p| - 1] == s[..|p|][1..];
        }
        if s[0] == p[0] && StartsWith(s[1..], p[1..]) {
          assert s[..|p|] == [s[0]] + s[1..][..|p| - 1];
        }
      }
    }
  }

  /**
   * The filters' pattern `"%" + p + "%"` with a literal `p` is a substring test:
   * this is what `LIKE` does for filters without `%`, `_` or `\`.
   */
  lemma {:induction false} LikeContains(s: string, p: string)
    requires IsLiteral(p)
    ensures Like(s, "%" + p + "%") <==> Contains(s, p)
    decreases |s|
  {
    var q := "%" + p + "%";
    assert q[0] == '%';
    assert q[1..] == p + "%";
    LikePrefix(s, p);
    ContainsStep(s, p);
    if s != [] {
      LikeContains(s[1..], p);
    }
  }

  /** Lower-casing cannot create a wildcard or an escape. */
  lemma LowerKeepsLiteral(p: string)
    requires IsLiteral(p)
    ensures IsLiteral(Lower(p))
  {
  }

  /**
   * The text filter of the list endpoints: a filter without text imposes
   * nothing; otherwise `lower(column) LIKE '%' || lower(filter) || '%'`, so
   * `%`, `_` and `\` typed into the filter keep their `LIKE` meaning.
   */
  predicate TextFilter(column: string, filter: Option<string>) {
    !HasText(filter) || Like(Lower(column), "%" + Lower(filter.value) + "%")
  }

  /** A filter with text and without wildcard characters is a case-insensitive substring test. */
  lemma TextFilterLiteral(column: string, filter: string)
    requires HasText(Some(filter)) && IsLiteral(filter)
    ensures TextFilter(column, Some(filter)) <==> Contains(Lower(column), Lower(filter))
  {
    LowerKeepsLiteral(filter);
    LikeContains(Lower(column), Lower(filter));
  }

  /** Neither the case of the column nor that of the filter matters. */
  lemma TextFilterIgnoresCase(column: string, filter: string)
    ensures TextFilter(column, Some(filter)) <==> TextFilter(Lower(column), Some(Lower(filter)))
  {
    LowerIdempotent(column);
    LowerIdempotent(filter);
    LowerKeepsText(filter);
  }

  /** A blank filter is no filter: a filter made only of whitespace has no text and accepts every column. */
  lemma BlankTextFilterAcceptsAll(column: string, filter: string)
    requires forall i :: 0 <= i < |filter| ==> IsJavaWhitespace(filter[i])
    ensures !HasText(Some(filter))
    ensures TextFilter(column, Some(filter))
  {
  }

  /** `_` is a wildcard: the one-character filter `_` matches any non-empty text, which holds no `_`. */
  lemma UnderscoreMatchesAnyCharacter(s: string)
    requires s != []
    ensures Like(s, "%" + "_" + "%")
  {
    var q := "%" + "_" + "%";
    assert q[0] == '%' && q[1..] == "_%";
    assert "_%"[1..] == "%";
    LikeAnything(s[1..]);
    assert Like(s, "_%");
  }
}
