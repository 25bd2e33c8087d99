/**
 * The JavaScript string operations the authentication layer relies on:
 * `String.prototype.trim`, `toLowerCase` and `startsWith`.
 * A string is a sequence of Unicode characters. `s.length` counts UTF-16
 * code units (`Utf16Length`), and the validator's `isLength` counts
 * characters other than variation selectors (`ValidatorLength`).
 */
module JsString {

  /**
   * The characters `trim` removes: WhiteSpace and LineTerminator of ECMAScript
   * (tab, line feed, vertical tab, form feed, carriage return, space, no-break
   * space, the other space separators, line and paragraph separators, and the
   * byte order mark).
   */
  predicate IsWhitespace(c: char) {
    if c <= ' ' then c == ' ' || '\t' <= c <= '\r'
    else if c < '\U{00A0}' then false
    else if c < '\U{2000}' then c == '\U{00A0}' || c == '\U{1680}'
    else if c <= '\U{200A}' then true
    else c == '\U{2028}' || c == '\U{2029}' || c == '\U{202F}' || c == '\U{205F}'
         || c == '\U{3000}' || c == '\U{FEFF}'
  }

  predicate AllWhitespace(s: string) {
    forall i :: 0 <= i < |s| ==> IsWhitespace(s[i])
  }

  /** Neither end of `s` is whitespace. */
  predicate Trimmed(s: string) {
    s == [] || (!IsWhitespace(s[0]) && !IsWhitespace(s[|s| - 1]))
  }

  /** `r` sits in `s` at offset `k` with only whitespace before and after it. */
  predicate SurroundedByWhitespace(s: string, k: int, r: string) {
    0 <= k <= |s| - |r| && s[k..k + |r|] == r && AllWhitespace(s[..k]) && AllWhitespace(s[k + |r|..])
  }

  /** Drops leading whitespace: the result is a suffix of `s` preceded only by whitespace. */
  function TrimStart(s: string): (r: string)
    ensures |r| <= |s| && r == s[|s| - |r|..]
    ensures AllWhitespace(s[..|s| - |r|])
    ensures r == [] || !IsWhitespace(r[0])
  {
    if |s| > 0 && IsWhitespace(s[0]) then
      var r := TrimStart(s[1..]);
      var n := |s| - |r|;
      assert AllWhitespace(s[1..][..n - 1]);
      WhitespacePrefixExtends(s, n);
      SliceOfSuffix(s, 1, n - 1);
      r
    else s
  }

  /** Drops trailing whitespace: the result is a prefix of `s` followed only by whitespace. */
  function TrimEnd(s: string): (r: string)
    ensures |r| <= |s| && r == s[..|r|]
    ensures AllWhitespace(s[|r|..])
    ensures r == [] || !IsWhitespace(r[|r| - 1])
  {
    if |s| > 0 && IsWhitespace(s[|s| - 1]) then
      var r := TrimEnd(s[..|s| - 1]);
      assert s[|r|..] == s[..|s| - 1][|r|..] + [s[|s| - 1]];
      r
    else s
  }

  /**
   * `s.trim()`: the result has no whitespace at either end and is what is left
   * of `s` after removing a whitespace-only prefix and suffix. Already-trimmed
   * strings are returned unchanged.
   */
  function Trim(s: string): (r: string)
    ensures Trimmed(r)
    ensures exists k :: SurroundedByWhitespace(s, k, r)
    ensures Trimmed(s) ==> r == s
  {
    var t := TrimStart(s);
    var r := TrimEnd(t);
    TrimmedAfterBothEnds(t, r);
    SurroundedByStrippedEnds(s, t, r);
    if Trimmed(s) then
      TrimmedUntouched(s);
      r
    else r
  }

  /** A whitespace-only prefix, then a whitespace-only suffix of the rest, leave `r` surrounded by whitespace. */
  lemma SurroundedByStrippedEnds(s: string, t: string, r: string)
    requires |t| <= |s| && t == s[|s| - |t|..] && AllWhitespace(s[..|s| - |t|])
    requires |r| <= |t| && r == t[..|r|] && AllWhitespace(t[|r|..])
    ensures SurroundedByWhitespace(s, |s| - |t|, r)
  {
  }

  /** A whitespace character followed by a whitespace run is a whitespace run. */
  lemma WhitespacePrefixExtends(s: string, n: nat)
    requires 0 < n <= |s| && IsWhitespace(s[0]) && AllWhitespace(s[1..][..n - 1])
    ensures AllWhitespace(s[..n])
  {
    forall i | 0 < i < n
      ensures IsWhitespace(s[i])
    {
      assert s[i] == s[1..][..n - 1][i - 1];
    }
  }

  lemma SliceOfSuffix<T>(s: seq<T>, k: nat, n: nat)
    requires k + n <= |s|
    ensures s[k..k + n] == s[k..][..n]
    ensures s[k + n..] == s[k..][n..]
  {
  }

  lemma TrimmedAfterBothEnds(t: string, r: string)
    requires t == [] || !IsWhitespace(t[0])
    requires r == TrimEnd(t)
    ensures Trimmed(r)
  {
  }

  lemma TrimmedUntouched(s: string)
    requires Trimmed(s)
    ensures TrimStart(s) == s && TrimEnd(s) == s
  {
  }

  /** The ASCII upper-case letters, the only ones `ToLower` maps. */
  predicate IsUpper(c: char) {
    'A' <= c <= 'Z'
  }

  /** Lower-casing a character maps whitespace to itself and nothing else to whitespace. */
  function LowerChar(c: char): (d: char)
    ensures IsWhitespace(d) <==> IsWhitespace(c)
    ensures !IsUpper(d)
  {
    if IsUpper(c) then (c as int + 32) as char else c
  }

  predicate IsLower(s: string) {
    forall i :: 0 <= i < |s| ==> !IsUpper(s[i])
  }

  /**
   * `s.toLowerCase()`: the result has no upper-case letter and differs from `s`
   * only where `s` had an upper-case letter, which becomes its lower-case form.
   * Trimmed strings stay trimmed.
   */
  function ToLower(s: string): (r: string)
    ensures |r| == |s| && IsLower(r)
    ensures forall i :: 0 <= i < |s| ==>
              r[i] == s[i] || (IsUpper(s[i]) && r[i] as int == s[i] as int + 32)
    ensures IsLower(s) ==> r == s
    ensures Trimmed(s) ==> Trimmed(r)
  {
    seq(|s|, i requires 0 <= i < |s| => LowerChar(s[i]))
  }

  /** A character outside the Basic Multilingual Plane: a surrogate pair in UTF-16. */
  predicate IsAstral(c: char) {
    c as int >= 0x1_0000
  }

  /** The emoji and text presentation selectors U+FE0F and U+FE0E. */
  predicate IsPresentationSelector(c: char) {
    c == '\U{FE0E}' || c == '\U{FE0F}'
  }

  /**
   * `s.length`, the measure Mongoose's `minlength`/`maxlength` use: UTF-16
   * code units, two for an astral character and one for any other.
   */
  function Utf16Length(s: string): (n: nat)
    ensures |s| <= n <= 2 * |s|
    ensures n == |s| <==> forall i :: 0 <= i < |s| ==> !IsAstral(s[i])
    ensures n == 2 * |s| <==> forall i :: 0 <= i < |s| ==> IsAstral(s[i])
    ensures |s| == 1 ==> n == if IsAstral(s[0]) then 2 else 1
  {
    if s == [] then 0 else (if IsAstral(s[0]) then 2 else 1) + Utf16Length(s[1..])
  }

  /**
   * The measure of the validator's `isLength`: `s.length` less one per
   * surrogate pair and one per presentation selector, that is, one per
   * character that is not a presentation selector.
   */
  function ValidatorLength(s: string): (n: nat)
    ensures n <= |s|
    ensures n == |s| <==> forall i :: 0 <= i < |s| ==> !IsPresentationSelector(s[i])
    ensures |s| == 1 ==> n == if IsPresentationSelector(s[0]) then 0 else 1
  {
    if s == [] then 0 else (if IsPresentationSelector(s[0]) then 0 else 1) + ValidatorLength(s[1..])
  }

  /** UTF-16 length is additive: it counts each character on its own, one unit or two. */
  lemma {:induction false} Utf16LengthConcat(a: string, b: string)
    ensures Utf16Length(a + b) == Utf16Length(a) + Utf16Length(b)
  {
    if a != [] {
      assert (a + b)[1..] == a[1..] + b;
      Utf16LengthConcat(a[1..], b);
    } else {
      assert a + b == b;
    }
  }

  /** The validator's length is additive: it counts each character on its own, zero or one. */
  lemma {:induction false} ValidatorLengthConcat(a: string, b: string)
    ensures ValidatorLength(a + b) == ValidatorLength(a) + ValidatorLength(b)
  {
    if a != [] {
      assert (a + b)[1..] == a[1..] + b;
      ValidatorLengthConcat(a[1..], b);
    } else {
      assert a + b == b;
    }
  }

  predicate StartsWith(s: string, prefix: string) {
    |prefix| <= |s| && s[..|prefix|] == prefix
  }

  /**
   * The trim characterisation determines the result: any whitespace-free-ended
   * infix of `s` whose surroundings are whitespace is `Trim(s)`.
   */
  lemma {:induction false} TrimUnique(s: string, a: string, t: string, b: string)
    requires s == a + t + b && AllWhitespace(a) && AllWhitespace(b) && Trimmed(t)
    ensures Trim(s) == t
  {
    if t == [] {
      assert s == (a + b) + [];
      TrimStartOf(a + b, []);
    } else {
      assert s == a + (t + b);
      TrimStartOf(a, t + b);
      TrimEndOf(t, b);
    }
  }

  lemma {:induction false} TrimStartOf(a: string, u: string)
    requires AllWhitespace(a) && (u == [] || !IsWhitespace(u[0]))
    ensures TrimStart(a + u) == u
  {
    if a != [] {
      assert (a + u)[1..] == a[1..] + u;
      TrimStartOf(a[1..], u);
    }
  }

  lemma {:induction false} TrimEndOf(t: string, b: string)
    requires AllWhitespace(b) && Trimmed(t)
    ensures TrimEnd(t + b) == t
  {
    if b != [] {
      assert (t + b)[..|t + b| - 1] == t + b[..|b| - 1];
      TrimEndOf(t, b[..|b| - 1]);
    } else {
      assert t + b == t;
    }
  }
}
