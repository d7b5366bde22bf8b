/**
 * The string primitives of Go's standard library (`strings`, `unicode` and the
 * character classes of package `regexp`) that the compiler builds on. Strings
 * are sequences of Unicode code points.
 */
module Text {

  datatype Option<T> = None | Some(value: T)

  // ---------------------------------------------------------------------------
  // Character classes
  // ---------------------------------------------------------------------------

  /** RE2's `\s`: tab, newline, form feed, carriage return and space (not vertical tab). */
  predicate IsRegexSpace(c: char) {
    c == '\t' || c == '\n' || c == '\U{C}' || c == '\r' || c == ' '
  }

  /** `unicode.IsSpace`, the set `strings.TrimSpace` removes. */
  predicate IsSpace(c: char) {
    || c == '\t' || c == '\n' || c == '\U{B}' || c == '\U{C}' || c == '\r' || c == ' '
    || c == '\U{85}' || c == '\U{A0}' || c == '\U{1680}'
    || ('\U{2000}' <= c <= '\U{200A}')
    || c == '\U{2028}' || c == '\U{2029}' || c == '\U{202F}' || c == '\U{205F}' || c == '\U{3000}'
  }

  predicate IsUpper(c: char) { 'A' <= c <= 'Z' }
  predicate IsLower(c: char) { 'a' <= c <= 'z' }
  predicate IsDigit(c: char) { '0' <= c <= '9' }
  predicate IsLetter(c: char) { IsUpper(c) || IsLower(c) }

  /** ASCII upper-casing of one character, as the byte arithmetic `v += 'A'; v -= 'a'` does. */
  function UpperChar(c: char): (r: char)
    ensures IsLower(c) ==> IsUpper(r) && r as int == c as int - 32
    ensures !IsLower(c) ==> r == c
  {
    if IsLower(c) then (c as int - 32) as char else c
  }

  /** ASCII lower-casing of one character. */
  function LowerChar(c: char): (r: char)
    ensures IsUpper(c) ==> IsLower(r) && r as int == c as int + 32
    ensures !IsUpper(c) ==> r == c
  {
    if IsUpper(c) then (c as int + 32) as char else c
  }

  /** `strings.ToLower`, restricted to the ASCII letters (see README). */
  function ToLower(s: string): (r: string)
    ensures |r| == |s|
    ensures forall i :: 0 <= i < |s| ==> r[i] == LowerChar(s[i])
    ensures forall i :: 0 <= i < |r| ==> !IsUpper(r[i])
  {
    seq(|s|, i requires 0 <= i < |s| => LowerChar(s[i]))
  }

  /** Lower-casing text without upper-case letters changes nothing. */
  lemma ToLowerOfLower(s: string)
    requires forall i :: 0 <= i < |s| ==> !IsUpper(s[i])
    ensures ToLower(s) == s
  {
  }

  // ---------------------------------------------------------------------------
  // Runs and trimming
  // ---------------------------------------------------------------------------

  /** Length of the run of characters satisfying `p` that starts at position `lo`. */
  function SpanFrom(s: string, lo: nat, p: char -> bool): (n: nat)
    requires lo <= |s|
    ensures lo + n <= |s|
    ensures forall k :: lo <= k < lo + n ==> p(s[k])
    ensures lo + n < |s| ==> !p(s[lo + n])
    decreases |s| - lo
  {
    if lo == |s| || !p(s[lo]) then 0 else 1 + SpanFrom(s, lo + 1, p)
  }

  /** Length of the run of characters satisfying `p` that ends just before position `hi`. */
  function SpanBefore(s: string, hi: nat, p: char -> bool): (n: nat)
    requires hi <= |s|
    ensures n <= hi
    ensures forall k :: hi - n <= k < hi ==> p(s[k])
    ensures n < hi ==> !p(s[hi - n - 1])
  {
    if hi == 0 || !p(s[hi - 1]) then 0 else 1 + SpanBefore(s, hi - 1, p)
  }

  /** No character of `s[lo..hi]` is `c`. */
  predicate NoneIn(s: string, lo: int, hi: int, c: char) {
    0 <= lo <= hi <= |s| && forall k :: lo <= k < hi ==> s[k] != c
  }

  /** Length of the run of white space that starts at position `lo`. */
  function SpacesFrom(s: string, lo: nat): nat
    requires lo <= |s|
    decreases |s| - lo
  {
    if lo == |s| || !IsSpace(s[lo]) then 0 else 1 + SpacesFrom(s, lo + 1)
  }

  /** Length of the run of white space that ends just before position `hi`. */
  function SpacesBefore(s: string, hi: nat): nat
    requires hi <= |s|
  {
    if hi == 0 || !IsSpace(s[hi - 1]) then 0 else 1 + SpacesBefore(s, hi - 1)
  }

  /** SpacesFrom is the white-space instance of SpanFrom. */
  lemma {:induction false} SpacesFromSpan(s: string, lo: nat)
    requires lo <= |s|
    ensures SpacesFrom(s, lo) == SpanFrom(s, lo, IsSpace)
    decreases |s| - lo
  {
    if lo < |s| && IsSpace(s[lo]) {
      SpacesFromSpan(s, lo + 1);
    }
  }

  /** SpacesBefore is the white-space instance of SpanBefore. */
  lemma {:induction false} SpacesBeforeSpan(s: string, hi: nat)
    requires hi <= |s|
    ensures SpacesBefore(s, hi) == SpanBefore(s, hi, IsSpace)
  {
    if hi > 0 && IsSpace(s[hi - 1]) {
      SpacesBeforeSpan(s, hi - 1);
    }
  }

  /** `strings.TrimSpace`: the text between the leading and the trailing white space. */
  function TrimSpace(s: string): string {
    var lo := SpacesFrom(s, 0);
    var hi := |s| - SpacesBefore(s, |s|);
    if hi <= lo then "" else s[lo..hi]
  }

  /**
   * The trimmed text is the slice of `s` that starts after its leading white
   * space, begins and ends with a non-space, and is followed only by white space.
   */
  lemma TrimSpaceSpec(s: string)
    ensures var r := TrimSpace(s);
            && |r| <= |s|
            && (r == "" || (!IsSpace(r[0]) && !IsSpace(r[|r| - 1])))
            && var lo := SpanFrom(s, 0, IsSpace);
               && lo + |r| <= |s| && r == s[lo..lo + |r|]
               && (forall i :: lo + |r| <= i < |s| ==> IsSpace(s[i]))
  {
    SpacesFromSpan(s, 0);
    SpacesBeforeSpan(s, |s|);
  }

  /** Trimming does not create an occurrence of a non-empty text. */
  lemma TrimSpaceKeepsAbsence(s: string, t: string)
    requires t != "" && forall k :: !OccursAt(s, t, k)
    ensures forall k :: !OccursAt(TrimSpace(s), t, k)
  {
    var r := TrimSpace(s);
    TrimSpaceSpec(s);
    var lo := SpanFrom(s, 0, IsSpace);
    forall k | OccursAt(r, t, k) ensures false {
      OccursInSlice(s, lo, lo + |r|, t, k);
    }
  }

  /** `strings.TrimRight(s, cutset)`: drops trailing characters that belong to `cutset`. */
  function TrimRightSet(s: string, cutset: set<char>): (r: string)
    ensures |r| <= |s| && r == s[..|r|]
    ensures r == "" || r[|r| - 1] !in cutset
    ensures forall i :: |r| <= i < |s| ==> s[i] in cutset
  {
    s[..|s| - SpanBefore(s, |s|, c => c in cutset)]
  }

  /** TrimRight stops at the last character outside the cutset. */
  lemma TrimRightSetAt(s: string, cutset: set<char>, n: nat)
    requires n <= |s| && (n == 0 || s[n - 1] !in cutset)
    requires forall i :: n <= i < |s| ==> s[i] in cutset
    ensures TrimRightSet(s, cutset) == s[..n]
  {
    var r := TrimRightSet(s, cutset);
    assert r == "" || s[|r| - 1] !in cutset;
  }

  /** `strings.TrimSuffix`. */
  function TrimSuffix(s: string, suffix: string): (r: string)
    ensures |suffix| <= |s| && s[|s| - |suffix|..] == suffix ==> s == r + suffix
    ensures !(|suffix| <= |s| && s[|s| - |suffix|..] == suffix) ==> r == s
  {
    if |suffix| <= |s| && s[|s| - |suffix|..] == suffix then s[..|s| - |suffix|] else s
  }

  // ---------------------------------------------------------------------------
  // Searching
  // ---------------------------------------------------------------------------

  /** `t` occurs in `s` at position `i`. */
  predicate OccursAt(s: string, t: string, i: int) {
    0 <= i && i + |t| <= |s| && s[i..i + |t|] == t
  }

  /** The first occurrence of `t` in `s` at or after position `from` (`strings.Index` on `s[from:]`). */
  function IndexFrom(s: string, t: string, from: nat): (r: Option<nat>)
    ensures r.Some? ==> from <= r.value && OccursAt(s, t, r.value)
    ensures forall j :: from <= j && (r.None? || j < r.value) ==> !OccursAt(s, t, j)
    decreases |s| - from
  {
    if from + |t| > |s| then None
    else if s[from..from + |t|] == t then Some(from)
    else IndexFrom(s, t, from + 1)
  }

  /** An occurrence in `a` is an occurrence in any extension of `a`. */
  /** `t` occurs right after `a` in `a + b` exactly when `b` starts with `t`. */
  lemma OccursAfterPrefix(a: string, b: string, t: string)
    ensures OccursAt(a + b, t, |a|) <==> OccursAt(b, t, 0)
  {
    if |t| <= |b| {
      assert (a + b)[|a|..|a| + |t|] == b[..|t|];
    }
  }

  lemma OccursInPrefix(a: string, b: string, t: string, i: int)
    requires OccursAt(a, t, i)
    ensures OccursAt(a + b, t, i)
  {
    assert (a + b)[i..i + |t|] == a[i..i + |t|];
  }

  /** An occurrence inside a slice of `s` is an occurrence in `s`. */
  lemma {:induction false} OccursInSlice(s: string, lo: int, hi: int, t: string, k: int)
    requires 0 <= lo <= hi <= |s|
    requires OccursAt(s[lo..hi], t, k)
    ensures OccursAt(s, t, lo + k)
  {
    var u := s[lo..hi];
    forall j | 0 <= j < |t| ensures s[lo + k + j] == t[j] {
      assert u[k..k + |t|][j] == t[j];
    }
    assert s[lo + k..lo + k + |t|] == t;
  }

  /** The last position of `c` in `s` before position `hi`. */
  function LastIndexBefore(s: string, hi: nat, c: char): (r: Option<nat>)
    requires hi <= |s|
    ensures r.Some? ==> r.value < hi && s[r.value] == c && forall k :: r.value < k < hi ==> s[k] != c
    ensures r.None? ==> forall k :: 0 <= k < hi ==> s[k] != c
  {
    if hi == 0 then None
    else if s[hi - 1] == c then Some(hi - 1)
    else LastIndexBefore(s, hi - 1, c)
  }

  // ---------------------------------------------------------------------------
  // Literal replacement
  // ---------------------------------------------------------------------------

  /**
   * `strings.ReplaceAll(s, p, r)`, which is also what `regexp.ReplaceAllString` does
   * for a pattern without metacharacters and a replacement without `$`: the
   * occurrences of `p` are taken from left to right, without overlapping.
   */
  function ReplaceAll(s: string, p: string, r: string): (out: string)
    requires p != ""
    decreases |s|
  {
    if s == "" then ""
    else if OccursAt(s, p, 0) then r + ReplaceAll(s[|p|..], p, r)
    else [s[0]] + ReplaceAll(s[1..], p, r)
  }

  /** A prefix before the first occurrence is copied unchanged. */
  lemma {:induction false} ReplaceAllPrefix(s: string, p: string, r: string, k: nat)
    requires p != "" && k <= |s|
    requires forall j :: 0 <= j < k ==> !OccursAt(s, p, j)
    ensures ReplaceAll(s, p, r) == s[..k] + ReplaceAll(s[k..], p, r)
    decreases k
  {
    if k > 0 {
      assert !OccursAt(s, p, 0);
      forall j | 0 <= j < k - 1 ensures !OccursAt(s[1..], p, j) {
        if OccursAt(s[1..], p, j) {
          assert s[1..|s|] == s[1..];
          OccursInSlice(s, 1, |s|, p, j);
        }
      }
      ReplaceAllPrefix(s[1..], p, r, k - 1);
      assert s[1..][k - 1..] == s[k..];
      assert [s[0]] + s[1..][..k - 1] == s[..k];
    }
  }

  /** With no occurrence of `p`, ReplaceAll changes nothing. */
  lemma {:induction false} ReplaceAllNone(s: string, p: string, r: string)
    requires p != "" && IndexFrom(s, p, 0).None?
    ensures ReplaceAll(s, p, r) == s
  {
    ReplaceAllPrefix(s, p, r, |s|);
    assert s[|s|..] == "";
  }

  /**
   * ReplaceAll agrees with the reference definition by search: the text before the
   * first occurrence `i` of `p` is kept, that occurrence becomes `r`, and the text
   * after it is processed the same way.
   */
  /**
   * A pattern at the start of a text whose remainder lacks the pattern's last
   * character is replaced once, and the remainder is kept.
   */
  lemma ReplaceAllLeading(p: string, m: string, r: string)
    requires p != "" && p[|p| - 1] !in m
    ensures ReplaceAll(p + m, p, r) == r + m
  {
    var s := p + m;
    assert s[..|p|] == p && s[|p|..] == m;
    forall k | 0 <= k && k + |p| <= |m| ensures !OccursAt(m, p, k) {
      assert m[k..k + |p|][|p| - 1] == m[k + |p| - 1];
    }
    ReplaceAllNone(m, p, r);
  }

  /** Replacing a character that does not occur changes nothing. */
  lemma ReplaceAllAbsent(m: string, c: char, r: string)
    requires c !in m
    ensures ReplaceAll(m, [c], r) == m
  {
    forall k | 0 <= k && k + 1 <= |m| ensures !OccursAt(m, [c], k) {
      assert m[k..k + 1][0] == m[k];
    }
    ReplaceAllNone(m, [c], r);
  }

  lemma {:induction false} ReplaceAllFirst(s: string, p: string, r: string, i: nat)
    requires p != "" && IndexFrom(s, p, 0) == Some(i)
    ensures i + |p| <= |s|
    ensures ReplaceAll(s, p, r) == s[..i] + r + ReplaceAll(s[i + |p|..], p, r)
  {
    ReplaceAllPrefix(s, p, r, i);
    var rest := s[i..];
    assert rest[..|p|] == s[i..i + |p|];
    assert OccursAt(rest, p, 0);
    assert rest[|p|..] == s[i + |p|..];
  }

  /** Text without the first character of `p` passes through a replacement unchanged. */
  lemma {:induction false} ReplaceAllSkips(x: string, y: string, p: string, r: string)
    requires p != "" && p[0] !in x
    ensures ReplaceAll(x + y, p, r) == x + ReplaceAll(y, p, r)
    decreases |x|
  {
    if x == "" {
      assert x + y == y;
    } else {
      var xy := x + y;
      assert xy[0] == x[0];
      assert !OccursAt(xy, p, 0);
      assert xy[1..] == x[1..] + y;
      assert p[0] !in x[1..] by { assert forall c :: c in x[1..] ==> c in x; }
      ReplaceAllSkips(x[1..], y, p, r);
      assert ReplaceAll(xy, p, r) == [xy[0]] + ReplaceAll(xy[1..], p, r);
      assert ReplaceAll(xy, p, r) == [x[0]] + (x[1..] + ReplaceAll(y, p, r));
      assert [x[0]] + x[1..] == x;
    }
  }

  /** Concatenation is associative. */
  lemma Associative<T>(x: seq<T>, y: seq<T>, z: seq<T>)
    ensures (x + y) + z == x + (y + z)
  {
  }

  /** An occurrence of `p` after text without its first character is the first one replaced. */
  lemma ReplaceAllHere(x: string, y: string, p: string, r: string)
    requires p != "" && p[0] !in x
    ensures ReplaceAll(x + (p + y), p, r) == x + (r + ReplaceAll(y, p, r))
  {
    ReplaceAllSkips(x, p + y, p, r);
    assert (p + y)[..|p|] == p;
    assert (p + y)[|p|..] == y;
  }

  /**
   * Text `q` that starts like `p` but differs from it at position `k`, and holds
   * no other first character of `p`, passes through a replacement of `p`.
   */
  lemma ReplaceAllPast(x: string, q: string, y: string, p: string, r: string, k: nat)
    requires k < |p| && k < |q| && p[k] != q[k]
    requires p[0] !in x && p[0] !in q[1..]
    ensures ReplaceAll(x + (q + y), p, r) == x + (q + ReplaceAll(y, p, r))
  {
    ReplaceAllSkips(x, q + y, p, r);
    var qy := q + y;
    assert qy[k] == q[k];
    assert !OccursAt(qy, p, 0);
    assert qy[1..] == q[1..] + y;
    ReplaceAllSkips(q[1..], y, p, r);
    var rest := ReplaceAll(y, p, r);
    assert ReplaceAll(qy, p, r) == [qy[0]] + (q[1..] + rest);
    Associative([q[0]], q[1..], rest);
    assert [q[0]] + q[1..] == q;
  }

  /** Every character of the result comes from `s` or from `r`. */
  lemma {:induction false} ReplaceAllChars(s: string, p: string, r: string)
    requires p != ""
    ensures forall c :: c in ReplaceAll(s, p, r) ==> c in s || c in r
    decreases |s|
  {
    if s != "" {
      if OccursAt(s, p, 0) {
        ReplaceAllChars(s[|p|..], p, r);
        assert forall c :: c in s[|p|..] ==> c in s;
      } else {
        ReplaceAllChars(s[1..], p, r);
        assert forall c :: c in s[1..] ==> c in s;
      }
    }
  }

  /** Replacing a character by a text without it removes every occurrence of it. */
  lemma {:induction false} ReplaceAllCharGone(s: string, c: char, r: string)
    requires c !in r
    ensures c !in ReplaceAll(s, [c], r)
    decreases |s|
  {
    if s != "" {
      if OccursAt(s, [c], 0) {
        ReplaceAllCharGone(s[1..], c, r);
      } else {
        assert s[0] != c;
        ReplaceAllCharGone(s[1..], c, r);
      }
    }
  }

  /**
   * Two successive replacements that each put a marker AFTER every occurrence of
   * `p` amount to one replacement putting both markers, the later one first,
   * provided the first marker cannot start an occurrence of `p`.
   */
  lemma {:induction false} ReplaceAllAfterTwice(s: string, p: string, a1: string, a2: string)
    requires p != "" && p[0] !in a1
    ensures ReplaceAll(ReplaceAll(s, p, p + a1), p, p + a2) == ReplaceAll(s, p, p + a2 + a1)
    decreases |s|
  {
    var t := ReplaceAll(s, p, p + a1);
    if s == "" {
    } else if OccursAt(s, p, 0) {
      var rest := ReplaceAll(s[|p|..], p, p + a1);
      assert t == p + (a1 + rest);
      assert OccursAt(t, p, 0);
      assert t[|p|..] == a1 + rest;
      ReplaceAllSkips(a1, rest, p, p + a2);
      ReplaceAllAfterTwice(s[|p|..], p, a1, a2);
    } else {
      var rest := ReplaceAll(s[1..], p, p + a1);
      assert t == [s[0]] + rest;
      assert !OccursAt(t, p, 0) by {
        if OccursAt(t, p, 0) {
          AfterInsertionAgrees(s[1..], p, a1, |p| - 1);
        }
      }
      assert t[1..] == rest;
      ReplaceAllAfterTwice(s[1..], p, a1, a2);
    }
  }

  /** Putting a marker after each occurrence leaves the first `n` characters as they were, when `n < |p|`. */
  lemma {:induction false} AfterInsertionAgrees(y: string, p: string, a1: string, n: nat)
    requires p != "" && n < |p|
    requires n <= |ReplaceAll(y, p, p + a1)|
    ensures n <= |y| && ReplaceAll(y, p, p + a1)[..n] == y[..n]
    decreases |y|
  {
    var t := ReplaceAll(y, p, p + a1);
    if n == 0 || y == "" {
    } else if OccursAt(y, p, 0) {
      assert t == p + (a1 + ReplaceAll(y[|p|..], p, p + a1));
      assert t[..n] == p[..n] == y[..n];
    } else {
      var rest := ReplaceAll(y[1..], p, p + a1);
      assert t == [y[0]] + rest;
      AfterInsertionAgrees(y[1..], p, a1, n - 1);
      assert t[..n] == [y[0]] + rest[..n - 1];
      assert y[..n] == [y[0]] + y[1..][..n - 1];
    }
  }

  /**
   * Two successive replacements that each put a marker BEFORE every occurrence of
   * `p` amount to one replacement putting both markers, the earlier one first,
   * provided the first marker does not contain the first character of `p` and
   * does not start with a character of `p`.
   */
  lemma {:induction false} ReplaceAllBeforeTwice(s: string, p: string, m1: string, m2: string)
    requires p != "" && p[0] !in m1
    requires m1 != "" && m1[0] !in p
    ensures ReplaceAll(ReplaceAll(s, p, m1 + p), p, m2 + p) == ReplaceAll(s, p, m1 + m2 + p)
    decreases |s|
  {
    var t := ReplaceAll(s, p, m1 + p);
    if s == "" {
    } else if OccursAt(s, p, 0) {
      var rest := ReplaceAll(s[|p|..], p, m1 + p);
      assert t == m1 + (p + rest);
      ReplaceAllSkips(m1, p + rest, p, m2 + p);
      assert OccursAt(p + rest, p, 0);
      assert (p + rest)[|p|..] == rest;
      ReplaceAllBeforeTwice(s[|p|..], p, m1, m2);
      assert m1 + m2 + p + ReplaceAll(s[|p|..], p, m1 + m2 + p)
          == m1 + (m2 + p + ReplaceAll(s[|p|..], p, m1 + m2 + p));
    } else {
      var rest := ReplaceAll(s[1..], p, m1 + p);
      assert t == [s[0]] + rest;
      assert !OccursAt(t, p, 0) by {
        if OccursAt(t, p, 0) {
          BeforeInsertionBreaks(s, p, m1);
        }
      }
      assert t[1..] == rest;
      ReplaceAllBeforeTwice(s[1..], p, m1, m2);
    }
  }

  /** The helper of ReplaceAllBeforeTwice: no new occurrence appears at the front. */
  lemma {:induction false} BeforeInsertionBreaks(s: string, p: string, m1: string)
    requires p != "" && m1 != "" && m1[0] !in p
    requires s != "" && !OccursAt(s, p, 0)
    ensures !OccursAt([s[0]] + ReplaceAll(s[1..], p, m1 + p), p, 0)
  {
    var t := [s[0]] + ReplaceAll(s[1..], p, m1 + p);
    if s[0] == p[0] {
      assert !OccursAt(s[1..], p[1..], 0);
      assert m1[0] !in p[1..] by { assert forall c :: c in p[1..] ==> c in p; }
      NoNewPrefix(s[1..], p, m1, p[1..]);
      assert t[1..] == ReplaceAll(s[1..], p, m1 + p);
    }
  }

  /** Putting a marker before each occurrence cannot make the text start with `q`
      when it did not, as long as the marker does not start with a character of `q`. */
  lemma {:induction false} NoNewPrefix(y: string, p: string, m1: string, q: string)
    requires p != "" && m1 != "" && m1[0] !in q
    requires !OccursAt(y, q, 0)
    ensures !OccursAt(ReplaceAll(y, p, m1 + p), q, 0)
    decreases |y|
  {
    var t := ReplaceAll(y, p, m1 + p);
    if y == "" {
    } else if OccursAt(y, p, 0) {
      assert t == m1 + (p + ReplaceAll(y[|p|..], p, m1 + p));
      assert t[0] == m1[0];
    } else {
      var rest := ReplaceAll(y[1..], p, m1 + p);
      assert t == [y[0]] + rest;
      if q != "" && y[0] == q[0] {
        assert !OccursAt(y[1..], q[1..], 0);
        assert m1[0] !in q[1..] by { assert forall c :: c in q[1..] ==> c in q; }
        NoNewPrefix(y[1..], p, m1, q[1..]);
      }
    }
  }

  // ---------------------------------------------------------------------------
  // Lines
  // ---------------------------------------------------------------------------

  /** `strings.Join(lines, sep)`. */
  function Join(lines: seq<string>, sep: char): (r: string)
    decreases |lines|
  {
    if |lines| == 0 then ""
    else if |lines| == 1 then lines[0]
    else lines[0] + [sep] + Join(lines[1..], sep)
  }

  /** `strings.Split(s, sep)` for a one-character separator; joining the pieces gives `s` back. */
  function Split(s: string, sep: char): (lines: seq<string>)
    ensures |lines| >= 1
    ensures forall k :: 0 <= k < |lines| ==> sep !in lines[k]
    ensures Join(lines, sep) == s
    decreases |s|
  {
    var i := SpanFrom(s, 0, c => c != sep);
    if i == |s| then [s]
    else
      assert s == s[..i] + [sep] + s[i + 1..];
      [s[..i]] + Split(s[i + 1..], sep)
  }

  /** The empty sequence is neutral for concatenation. */
  lemma EmptyConcat<T>(s: seq<T>)
    ensures [] + s == s && s + [] == s
  {
  }

  /** A non-empty sequence is its front followed by its last element. */
  lemma FrontLast<T>(s: seq<T>)
    requires s != []
    ensures s[..|s| - 1] + [s[|s| - 1]] == s
  {
  }

  /** Splitting the joined lines gives them back, when no line contains the separator. */
  lemma {:induction false} SplitJoin(lines: seq<string>, sep: char)
    requires |lines| >= 1
    requires forall k :: 0 <= k < |lines| ==> sep !in lines[k]
    ensures Split(Join(lines, sep), sep) == lines
    decreases |lines|
  {
    var s := Join(lines, sep);
    var i := SpanFrom(s, 0, c => c != sep);
    if |lines| > 1 {
      assert s == lines[0] + ([sep] + Join(lines[1..], sep));
      assert forall j :: 0 <= j < |lines[0]| ==> s[j] == lines[0][j];
      assert s[|lines[0]|] == sep;
      assert i == |lines[0]|;
      assert s[i + 1..] == Join(lines[1..], sep);
      SplitJoin(lines[1..], sep);
    }
  }
}
