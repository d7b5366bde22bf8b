/**
 * The fixed regular expressions of the compiler, each as a hand-written
 * matcher with the regular expression's semantics (RE2, leftmost-first,
 * `.` not matching a newline, `\s` being RE2's white space):
 *
 *   - the import line `^\s*import\s+.*from\s+'([^']+)';\s*$` (main.go:110);
 *   - the capitalised-name token `(\s|{|,)[A-Z]+[^.,\s,}]+` (component.go:79,
 *     main.go:118);
 *   - the tag pattern `<Name\s*(.*?)<\/Name>|<Name\s*(.*?)\/>` (component.go:170,
 *     main.go:149), with `ReplaceAllStringFunc` replacing every match by a
 *     fixed reference.
 */
module Patterns {
  import opened Text

  // ---------------------------------------------------------------------------
  // Import lines
  // ---------------------------------------------------------------------------

  /**
   * `L` matches `^\s*import\s+.*from\s+'([^']+)';\s*$` and the group captures
   * `P`: white space up to `a`, `import`, white space up to `j`, text without a
   * newline up to `f`, `from`, white space up to the opening quote at `o`, then
   * `P`, `';` and white space to the end.
   */
  predicate ImportMatchAt(L: string, a: nat, j: nat, f: nat, o: nat, P: string) {
    && a + 6 < j <= f && f + 4 < o && o + |P| + 3 <= |L|
    && (forall k :: 0 <= k < a ==> IsRegexSpace(L[k]))
    && L[a..a + 6] == "import"
    && (forall k :: a + 6 <= k < j ==> IsRegexSpace(L[k]))
    && NoneIn(L, j, f, '\n')
    && L[f..f + 4] == "from"
    && (forall k :: f + 4 <= k < o ==> IsRegexSpace(L[k]))
    && L[o] == '\''
    && P != "" && L[o + 1..o + 1 + |P|] == P && '\'' !in P
    && L[o + 1 + |P|] == '\'' && L[o + 2 + |P|] == ';'
    && (forall k :: o + 3 + |P| <= k < |L| ==> IsRegexSpace(L[k]))
  }

  ghost predicate ImportMatch(L: string, P: string) {
    exists a: nat, j: nat, f: nat, o: nat :: ImportMatchAt(L, a, j, f, o, P)
  }

  /** The closing quote of the path: `';` follows it, then only white space. */
  function ClosingQuote(L: string): (q: Option<nat>)
    ensures q.Some? ==> && q.value + 2 <= |L| && L[q.value] == '\'' && L[q.value + 1] == ';'
                        && forall k :: q.value + 2 <= k < |L| ==> IsRegexSpace(L[k])
  {
    var e := |L| - SpanBefore(L, |L|, IsRegexSpace);
    if e >= 2 && L[e - 1] == ';' && L[e - 2] == '\'' then Some(e - 2) else None
  }

  /** Where the white space that follows `from` and ends at the opening quote `o` begins. */
  function FromEnd(L: string, o: nat): (b: Option<nat>)
    requires o <= |L|
    ensures b.Some? ==> && 4 <= b.value < o && L[b.value - 4..b.value] == "from"
                        && forall k :: b.value <= k < o ==> IsRegexSpace(L[k])
  {
    var b := o - SpanBefore(L, o, IsRegexSpace);
    if 4 <= b < o && L[b - 4..b] == "from" then Some(b) else None
  }

  /** Where the text after the leading white space, `import` and more white space begins. */
  function ImportEnd(L: string): (j: Option<nat>)
    ensures j.Some? ==> var a := SpanFrom(L, 0, IsRegexSpace);
                        && a + 6 < j.value <= |L| && L[a..a + 6] == "import"
                        && forall k :: a + 6 <= k < j.value ==> IsRegexSpace(L[k])
  {
    var a := SpanFrom(L, 0, IsRegexSpace);
    if a + 6 <= |L| && L[a..a + 6] == "import" then
      var j := a + 6 + SpanFrom(L, a + 6, IsRegexSpace);
      if j > a + 6 then Some(j) else None
    else None
  }

  /**
   * The import path that the import-line pattern captures in `L`, or None when
   * `L` is not an import line. Because the pattern is anchored at both ends, the
   * quote before `;` closes the path, the path opens at the quote before it, and
   * `from` ends where the white space before that quote begins.
   */
  function ImportPath(L: string): Option<string> {
    match ClosingQuote(L)
    case None => None
    case Some(q) =>
      match LastIndexBefore(L, q, '\'')
      case None => None
      case Some(o) =>
        match FromEnd(L, o)
        case None => None
        case Some(b) =>
          match ImportEnd(L)
          case None => None
          case Some(j) =>
            if o + 1 < q && j <= b - 4 && NoneIn(L, j, b - 4, '\n') then Some(L[o + 1..q]) else None
  }

  /** A recognised line is matched by the import-line pattern, with the path it captures. */
  lemma ImportPathSound(L: string)
    ensures ImportPath(L).Some? ==> ImportMatch(L, ImportPath(L).value)
  {
    if ImportPath(L).Some? {
      var q := ClosingQuote(L).value;
      var o := LastIndexBefore(L, q, '\'').value;
      var b := FromEnd(L, o).value;
      var j := ImportEnd(L).value;
      var P := L[o + 1..q];
      assert '\'' !in P by {
        forall k | 0 <= k < |P| ensures P[k] != '\'' { assert P[k] == L[o + 1 + k]; }
      }
      assert ImportMatchAt(L, SpanFrom(L, 0, IsRegexSpace), j, b - 4, o, P);
    }
  }

  /** A line the import-line pattern matches is recognised, with the captured path. */
  lemma {:induction false} ImportPathComplete(L: string, a: nat, j: nat, f: nat, o: nat, P: string)
    requires ImportMatchAt(L, a, j, f, o, P)
    ensures ImportPath(L) == Some(P)
  {
    var q := o + 1 + |P|;
    ClosingQuoteOf(L, q);
    assert forall k :: o < k < q ==> L[k] == P[k - o - 1];
    LastQuoteOf(L, o, q);
    FromEndOf(L, f, o);
    var j' := ImportEndOf(L, a, j, f);
    assert NoneIn(L, j', f, '\n');
    assert L[o + 1..q] == P;
    var b := f + 4;
    assert b - 4 == f;
    ImportPathOf(L, q, o, b, j');
  }

  lemma ImportPathOf(L: string, q: nat, o: nat, b: nat, j: nat)
    requires ClosingQuote(L) == Some(q) && LastIndexBefore(L, q, '\'') == Some(o)
    requires FromEnd(L, o) == Some(b) && ImportEnd(L) == Some(j)
    requires o + 1 < q && j <= b - 4 && NoneIn(L, j, b - 4, '\n')
    ensures ImportPath(L) == Some(L[o + 1..q])
  {
  }

  lemma ClosingQuoteOf(L: string, q: nat)
    requires q + 2 <= |L| && L[q] == '\'' && L[q + 1] == ';'
    requires forall k :: q + 2 <= k < |L| ==> IsRegexSpace(L[k])
    ensures ClosingQuote(L) == Some(q)
  {
    assert !IsRegexSpace(L[q + 1]);
    assert |L| - SpanBefore(L, |L|, IsRegexSpace) == q + 2;
  }

  lemma LastQuoteOf(L: string, o: nat, q: nat)
    requires o < q <= |L| && L[o] == '\'' && forall k :: o < k < q ==> L[k] != '\''
    ensures LastIndexBefore(L, q, '\'') == Some(o)
  {
  }

  lemma FromEndOf(L: string, f: nat, o: nat)
    requires f + 4 < o <= |L| && L[f..f + 4] == "from"
    requires forall k :: f + 4 <= k < o ==> IsRegexSpace(L[k])
    ensures FromEnd(L, o) == Some(f + 4)
  {
    assert L[f + 3] == 'm';
    assert o - SpanBefore(L, o, IsRegexSpace) == f + 4;
  }

  lemma ImportEndOf(L: string, a: nat, j: nat, f: nat) returns (j': nat)
    requires a + 6 < j <= f < |L| && L[a..a + 6] == "import" && L[f] == 'f'
    requires forall k :: 0 <= k < a ==> IsRegexSpace(L[k])
    requires forall k :: a + 6 <= k < j ==> IsRegexSpace(L[k])
    ensures ImportEnd(L) == Some(j') && j <= j' <= f
  {
    assert L[a] == 'i';
    assert SpanFrom(L, 0, IsRegexSpace) == a;
    j' := a + 6 + SpanFrom(L, a + 6, IsRegexSpace);
  }

  /** Whether the import-line pattern matches `L` (`MatchString`). */
  function IsImportLine(L: string): bool {
    ImportPath(L).Some?
  }

  /** IsImportLine holds exactly when the pattern matches, whatever path it captures. */
  lemma IsImportLineMatches(L: string)
    ensures IsImportLine(L) <==> exists P :: ImportMatch(L, P)
  {
    ImportPathSound(L);
    if P :| ImportMatch(L, P) {
      var a: nat, j: nat, f: nat, o: nat :| ImportMatchAt(L, a, j, f, o, P);
      ImportPathComplete(L, a, j, f, o, P);
    }
  }

  // ---------------------------------------------------------------------------
  // Capitalised names
  // ---------------------------------------------------------------------------

  /** A character `[^.,\s,}]` matches. */
  predicate IsNameChar(c: char) { c != '.' && c != ',' && !IsRegexSpace(c) && c != '}' }

  /** A character `(\s|{|,)` matches. */
  predicate IsNameLead(c: char) { IsRegexSpace(c) || c == '{' || c == ',' }

  /**
   * The length of the name captured by a match of `(\s|{|,)[A-Z]+[^.,\s,}]+`
   * that starts at `p`: after the separator, an upper-case letter and the whole
   * run of name characters that follows, at least two characters in all
   * (`[A-Z]+` gives back its last letter when the run is all capitals).
   */
  function NameAt(L: string, p: nat): (r: Option<nat>)
    ensures r.Some? ==> 2 <= r.value && p + 1 + r.value <= |L| && IsNameLead(L[p]) && IsUpper(L[p + 1])
    ensures r.Some? ==> forall k :: p + 1 <= k < p + 1 + r.value ==> IsNameChar(L[k])
    ensures r.Some? ==> p + 1 + r.value == |L| || !IsNameChar(L[p + 1 + r.value])
  {
    if p + 1 < |L| && IsNameLead(L[p]) && IsUpper(L[p + 1]) then
      var n := SpanFrom(L, p + 1, IsNameChar);
      if n >= 2 then Some(n) else None
    else None
  }

  /** The names `FindAllString` captures from position `p` on, each without its separator. */
  function NamesFrom(L: string, p: nat): seq<string>
    requires p <= |L|
    decreases |L| - p
  {
    if p == |L| then []
    else
      match NameAt(L, p)
      case Some(n) => [L[p + 1..p + 1 + n]] + NamesFrom(L, p + 1 + n)
      case None => NamesFrom(L, p + 1)
  }

  /** A captured name: an upper-case letter first, at least two characters, all of `[^.,\s,}]`. */
  predicate IsComponentName(name: string) {
    && |name| >= 2 && IsUpper(name[0])
    && forall k :: 0 <= k < |name| ==> IsNameChar(name[k])
  }

  /** Every name captured from position `p` on has the shape of a component name. */
  lemma {:induction false} NamesFromShape(L: string, p: nat)
    requires p <= |L|
    ensures forall i :: 0 <= i < |NamesFrom(L, p)| ==> IsComponentName(NamesFrom(L, p)[i])
    decreases |L| - p
  {
    if p < |L| {
      match NameAt(L, p)
      case Some(n) =>
        var name := L[p + 1..p + 1 + n];
        assert forall k :: 0 <= k < n ==> name[k] == L[p + 1 + k];
        NamesFromShape(L, p + 1 + n);
      case None =>
        NamesFromShape(L, p + 1);
    }
  }

  /** The capitalised names of an import line, in order. */
  function ComponentNames(L: string): seq<string> {
    NamesFrom(L, 0)
  }

  /** Every captured name is the match without its separator (see IsComponentName). */
  lemma ComponentNamesShape(L: string)
    ensures forall i :: 0 <= i < |ComponentNames(L)| ==> IsComponentName(ComponentNames(L)[i])
  {
    NamesFromShape(L, 0);
  }

  /** No name is captured exactly when no position starts a match. */
  lemma {:induction false} NamesFromEmpty(L: string, p: nat)
    requires p <= |L|
    ensures NamesFrom(L, p) == [] <==> forall p' :: p <= p' < |L| ==> NameAt(L, p').None?
    decreases |L| - p
  {
    if p < |L| {
      NamesFromEmpty(L, p + 1);
    }
  }

  /** A line without a match of the name token yields no names, and only such a line. */
  lemma ComponentNamesEmpty(L: string)
    ensures ComponentNames(L) == [] <==> forall p :: 0 <= p < |L| ==> NameAt(L, p).None?
  {
    NamesFromEmpty(L, 0);
  }

  // ---------------------------------------------------------------------------
  // Tags
  // ---------------------------------------------------------------------------

  function OpenTag(name: string): (t: string)
    ensures |t| == |name| + 1 && t[0] == '<'
  {
    "<" + name
  }

  function CloseTag(name: string): (t: string)
    ensures |t| == |name| + 3 && t[0] == '<' && t[1] == '/' && t[|t| - 1] == '>'
  {
    "</" + name + ">"
  }

  /** `s` starts with `<Name`, then white space up to `w`. */
  predicate TagHead(s: string, name: string, w: int) {
    && OccursAt(s, OpenTag(name), 0) && |OpenTag(name)| <= w <= |s|
    && (forall k :: |OpenTag(name)| <= k < w ==> IsRegexSpace(s[k]))
  }

  /** The first alternative matches `s[..q + |CloseTag(name)|]`, the `(.*?)` group being `s[w..q]`. */
  predicate PairedShape(s: string, name: string, w: int, q: int) {
    TagHead(s, name, w) && NoneIn(s, w, q, '\n') && OccursAt(s, CloseTag(name), q)
  }

  /** The second alternative matches `s[..q + 2]`, the `(.*?)` group being `s[w..q]`. */
  predicate SelfClosingShape(s: string, name: string, w: int, q: int) {
    TagHead(s, name, w) && NoneIn(s, w, q, '\n') && OccursAt(s, "/>", q)
  }

  /** The end of the longest white-space run after `<Name`. */
  function HeadEnd(s: string, name: string): (w: nat)
    requires OccursAt(s, OpenTag(name), 0)
    ensures TagHead(s, name, w) && (w == |s| || !IsRegexSpace(s[w]))
  {
    |OpenTag(name)| + SpanFrom(s, |OpenTag(name)|, IsRegexSpace)
  }

  /**
   * The length of the tag pattern's match at the start of `s`, if any. The
   * first alternative is preferred; within it `\s*` takes all the white space
   * and `(.*?)` stops at the nearest closing tag, which may not lie beyond a
   * newline. Giving `\s*` back never helps, because neither `<` nor `/` is
   * white space.
   */
  function TagMatch(s: string, name: string): (m: Option<nat>)
    ensures m.Some? ==> 0 < m.value <= |s|
  {
    if !OccursAt(s, OpenTag(name), 0) then None
    else
      var w := HeadEnd(s, name);
      var c := IndexFrom(s, CloseTag(name), w);
      if c.Some? && NoneIn(s, w, c.value, '\n') then Some(c.value + |CloseTag(name)|)
      else
        var sc := IndexFrom(s, "/>", w);
        if sc.Some? && NoneIn(s, w, sc.value, '\n') then Some(sc.value + 2)
        else None
  }

  /**
   * Any text that can complete a tag from the `<Name` head onwards is found by
   * searching from the end of the longest white-space run, no later and with no
   * newline in between.
   */
  lemma {:induction false} ShapeAfterRun(s: string, name: string, w': int, q': int, t: string)
    requires OccursAt(s, OpenTag(name), 0)
    requires TagHead(s, name, w') && NoneIn(s, w', q', '\n')
    requires OccursAt(s, t, q') && t != "" && !IsRegexSpace(t[0])
    ensures var w := HeadEnd(s, name);
            var c := IndexFrom(s, t, w);
            c.Some? && c.value <= q' && NoneIn(s, w, c.value, '\n')
  {
    var w := HeadEnd(s, name);
    assert s[q'] == t[0];
    assert w' <= w;
    assert w <= q';
  }

  /** A match is one of the two alternatives. */
  lemma TagMatchSound(s: string, name: string)
    ensures TagMatch(s, name).Some? ==>
              var m := TagMatch(s, name).value;
              || (exists w, q :: PairedShape(s, name, w, q) && m == q + |CloseTag(name)|)
              || (exists w, q :: SelfClosingShape(s, name, w, q) && m == q + 2)
  {
    if TagMatch(s, name).None? { return; }
    var w := HeadEnd(s, name);
    var c := IndexFrom(s, CloseTag(name), w);
    if c.Some? && NoneIn(s, w, c.value, '\n') {
      assert PairedShape(s, name, w, c.value);
    } else {
      assert SelfClosingShape(s, name, w, IndexFrom(s, "/>", w).value);
    }
  }

  /** Where the first alternative can match, it does, ending at the nearest closing tag. */
  lemma TagMatchPrefersPaired(s: string, name: string, w': int, q': int)
    requires PairedShape(s, name, w', q')
    ensures exists w, q :: PairedShape(s, name, w, q) && q <= q'
                           && TagMatch(s, name) == Some(q + |CloseTag(name)|)
  {
    ShapeAfterRun(s, name, w', q', CloseTag(name));
    var w := HeadEnd(s, name);
    assert PairedShape(s, name, w, IndexFrom(s, CloseTag(name), w).value);
  }

  /** Otherwise the second alternative matches wherever it can, ending at the nearest `/>`. */
  lemma TagMatchSelfClosing(s: string, name: string, w': int, q': int)
    requires SelfClosingShape(s, name, w', q')
    requires forall w, q :: !PairedShape(s, name, w, q)
    ensures exists w, q :: SelfClosingShape(s, name, w, q) && q <= q'
                           && TagMatch(s, name) == Some(q + 2)
  {
    var w := HeadEnd(s, name);
    var c := IndexFrom(s, CloseTag(name), w);
    var cv := if c.Some? then c.value else 0;
    assert !PairedShape(s, name, w, cv);
    SelfClosingAfterRun(s, name, w', q');
  }

  /** When the first alternative fails after the white-space run, the second one decides the match. */
  lemma SelfClosingAfterRun(s: string, name: string, w': int, q': int)
    requires SelfClosingShape(s, name, w', q')
    requires var w := HeadEnd(s, name);
             var c := IndexFrom(s, CloseTag(name), w);
             !(c.Some? && NoneIn(s, w, c.value, '\n'))
    ensures exists w, q :: SelfClosingShape(s, name, w, q) && q <= q'
                           && TagMatch(s, name) == Some(q + 2)
  {
    ShapeAfterRun(s, name, w', q', "/>");
    var w := HeadEnd(s, name);
    var sc := IndexFrom(s, "/>", w).value;
    assert SelfClosingShape(s, name, w, sc) && sc <= q';
    assert TagMatch(s, name) == Some(sc + 2);
  }

  /** No match at all when neither alternative can match. */
  lemma TagMatchNone(s: string, name: string)
    requires forall w, q :: !PairedShape(s, name, w, q) && !SelfClosingShape(s, name, w, q)
    ensures TagMatch(s, name).None?
  {
    TagMatchSound(s, name);
  }

  // ---------------------------------------------------------------------------
  // Replacing every tag
  // ---------------------------------------------------------------------------

  /** `ReplaceAllStringFunc` with the tag pattern, every match replaced by `ref`. */
  function ReplaceTags(s: string, name: string, ref: string): string
    decreases |s|
  {
    if s == "" then ""
    else
      match TagMatch(s, name)
      case Some(m) => ref + ReplaceTags(s[m..], name, ref)
      case None => [s[0]] + ReplaceTags(s[1..], name, ref)
  }

  /** Text without `<Name` is left alone. */
  lemma {:induction false} ReplaceTagsNone(s: string, name: string, ref: string)
    requires forall k :: !OccursAt(s, OpenTag(name), k)
    ensures ReplaceTags(s, name, ref) == s
    decreases |s|
  {
    if s != "" {
      assert !OccursAt(s, OpenTag(name), 0);
      forall k | OccursAt(s[1..], OpenTag(name), k) ensures OccursAt(s, OpenTag(name), k + 1) {
        assert s[1..] == s[1..|s|];
        OccursInSlice(s, 1, |s|, OpenTag(name), k);
      }
      ReplaceTagsNone(s[1..], name, ref);
    }
  }

  /** Text without `<` before a tag is copied unchanged. */
  lemma {:induction false} ReplaceTagsSkips(x: string, y: string, name: string, ref: string)
    requires '<' !in x
    ensures ReplaceTags(x + y, name, ref) == x + ReplaceTags(y, name, ref)
    decreases |x|
  {
    if x == "" {
      assert x + y == y;
    } else {
      var xy := x + y;
      assert xy[0] == x[0];
      assert !OccursAt(xy, OpenTag(name), 0);
      assert xy[1..] == x[1..] + y;
      assert '<' !in x[1..] by { assert forall c :: c in x[1..] ==> c in x; }
      ReplaceTagsSkips(x[1..], y, name, ref);
      var rest := ReplaceTags(y, name, ref);
      assert ReplaceTags(xy, name, ref) == [xy[0]] + ReplaceTags(xy[1..], name, ref);
      assert ReplaceTags(xy, name, ref) == [x[0]] + (x[1..] + rest);
      Associative([x[0]], x[1..], rest);
      assert [x[0]] + x[1..] == x;
    }
  }

  /** `post` has no closing tag `</Name>` before its first newline. */
  predicate NoCloseOnLine(post: string, name: string) {
    forall k :: 0 <= k <= |post| && OccursAt(post, CloseTag(name), k) ==> !NoneIn(post, 0, k, '\n')
  }

  /**
   * A self-closing tag `<Name…/>` is replaced by `ref`. The text before `/>` may
   * be any one-line text without `<` or `/`, so `<FooBar/>` is a tag `Foo` as
   * well; a closing tag later on the same line would be preferred instead.
   */
  lemma {:induction false} SelfClosingTagReplaced(pre: string, name: string, attrs: string, post: string, ref: string)
    requires '<' !in pre && '<' !in attrs && '/' !in attrs && '\n' !in attrs
    requires NoCloseOnLine(post, name)
    ensures ReplaceTags(pre + OpenTag(name) + attrs + "/>" + post, name, ref)
            == pre + ref + ReplaceTags(post, name, ref)
  {
    var s := OpenTag(name) + attrs + "/>" + post;
    assert pre + OpenTag(name) + attrs + "/>" + post == pre + s;
    ReplaceTagsSkips(pre, s, name, ref);
    SelfClosingTagMatch(name, attrs, post);
  }

  /** A self-closing tag at the start of the text is matched up to its `/>`. */
  lemma SelfClosingTagMatch(name: string, attrs: string, post: string)
    requires '<' !in attrs && '/' !in attrs && '\n' !in attrs
    requires NoCloseOnLine(post, name)
    ensures var s := OpenTag(name) + attrs + "/>" + post;
            var z := |OpenTag(name)| + |attrs|;
            TagMatch(s, name) == Some(z + 2) && s[z + 2..] == post
  {
    var head := OpenTag(name) + attrs;
    var s := head + "/>" + post;
    var n := |OpenTag(name)|;
    var z := n + |attrs|;
    assert s[..z] == head && head[..n] == OpenTag(name);
    assert forall k :: n <= k < z ==> s[k] != '<' && s[k] != '/' && s[k] != '\n' by {
      forall k | n <= k < z ensures s[k] != '<' && s[k] != '/' && s[k] != '\n' {
        assert s[k] == head[k] == attrs[k - n];
      }
    }
    assert s[z + 2..] == post;
    assert OccursAt(s, OpenTag(name), 0) by { assert s[..n] == head[..n]; }
    assert OccursAt(s, "/>", z) by { assert s[z..z + 2] == "/>"; }
    SelfClosingMatch(s, name, z, post);
  }


  lemma {:induction false} SelfClosingMatch(s: string, name: string, z: nat, post: string)
    requires OccursAt(s, OpenTag(name), 0) && |OpenTag(name)| <= z
    requires OccursAt(s, "/>", z) && s[z + 2..] == post && NoCloseOnLine(post, name)
    requires forall k :: |OpenTag(name)| <= k < z ==> s[k] != '<' && s[k] != '/' && s[k] != '\n'
    ensures TagMatch(s, name) == Some(z + 2)
  {
    var w := HeadEnd(s, name);
    assert s[z] == '/';
    assert w <= z;
    NoCloseTagOnLine(s, name, w, z, post);
    var sc := IndexFrom(s, "/>", w);
    assert sc.Some? && sc.value <= z;
    assert s[sc.value] == '/';
    assert sc.value == z;
  }

  /** A closing tag after `z + 2` lies beyond a newline when `post` has none on its first line. */
  lemma {:induction false} NoCloseTagOnLine(s: string, name: string, w: nat, z: nat, post: string)
    requires w <= z && z + 2 <= |s| && s[z + 2..] == post && NoCloseOnLine(post, name)
    requires forall k :: w <= k < z + 2 ==> s[k] != '<'
    ensures forall q :: w <= q && OccursAt(s, CloseTag(name), q) ==> !NoneIn(s, w, q, '\n')
  {
    var close := CloseTag(name);
    forall q | w <= q && OccursAt(s, close, q) && NoneIn(s, w, q, '\n') ensures false {
      var k := q - z - 2;
      assert s[q] == '<';
      assert OccursAt(post, close, k) by {
        assert s[q..q + |close|] == post[k..k + |close|];
      }
      assert NoneIn(post, 0, k, '\n') by {
        forall i | 0 <= i < k ensures post[i] != '\n' { assert post[i] == s[z + 2 + i]; }
      }
    }
  }

  /**
   * A paired tag `<Name…>…</Name>` on one line is replaced by `ref`, up to the
   * nearest closing tag.
   */
  lemma {:induction false} PairedTagReplaced(pre: string, name: string, body: string, post: string, ref: string)
    requires '<' !in pre && '<' !in body && '\n' !in body
    ensures ReplaceTags(pre + OpenTag(name) + body + CloseTag(name) + post, name, ref)
            == pre + ref + ReplaceTags(post, name, ref)
  {
    var s := OpenTag(name) + body + CloseTag(name) + post;
    assert pre + OpenTag(name) + body + CloseTag(name) + post == pre + s;
    ReplaceTagsSkips(pre, s, name, ref);
    var n := |OpenTag(name)|;
    var z := n + |body|;
    var close := CloseTag(name);
    assert forall k :: n <= k < z ==> s[k] == body[k - n];
    assert OccursAt(s, OpenTag(name), 0);
    assert OccursAt(s, close, z);
    PairedMatch(s, name, z);
    assert s[z + |close|..] == post;
    assert ReplaceTags(s, name, ref) == ref + ReplaceTags(s[z + |close|..], name, ref);
  }

  lemma {:induction false} PairedMatch(s: string, name: string, z: nat)
    requires OccursAt(s, OpenTag(name), 0) && |OpenTag(name)| <= z
    requires OccursAt(s, CloseTag(name), z)
    requires forall k :: |OpenTag(name)| <= k < z ==> s[k] != '<' && s[k] != '\n'
    ensures TagMatch(s, name) == Some(z + |CloseTag(name)|)
  {
    var w := HeadEnd(s, name);
    assert s[z] == '<';
    assert w <= z;
    var c := IndexFrom(s, CloseTag(name), w);
    assert c == Some(z) by {
      assert c.Some? && c.value <= z;
      assert s[c.value] == '<';
    }
  }

  /** `.` does not match a newline: a paired tag split over two lines is left as it is. */
  lemma MultiLineTagKept(ref: string)
    ensures ReplaceTags("<Foo>\n</Foo>", "Foo", ref) == "<Foo>\n</Foo>"
  {
    var s := "<Foo>\n</Foo>";
    MultiLineNoMatch();
    assert s[1..] == "Foo>\n" + CloseTag("Foo");
    PlainThenClosingTag("Foo>\n", "Foo", ref);
  }

  /** Neither alternative matches a paired tag split over two lines. */
  lemma MultiLineNoMatch()
    ensures TagMatch("<Foo>\n</Foo>", "Foo").None?
  {
    var s := "<Foo>\n</Foo>";
    assert OccursAt(s, OpenTag("Foo"), 0);
    assert HeadEnd(s, "Foo") == 4;
    assert OccursAt(s, CloseTag("Foo"), 6);
    assert IndexFrom(s, CloseTag("Foo"), 4) == Some(6);
    assert !NoneIn(s, 4, 6, '\n') by { assert s[5] == '\n'; }
    var sc := IndexFrom(s, "/>", 4);
    if sc.Some? {
      assert s[sc.value..sc.value + 2][0] == '/';
      assert !NoneIn(s, 4, sc.value, '\n') by { assert s[5] == '\n'; }
    }
  }

  /** Text without `<` followed by a closing tag alone is kept as it is. */
  lemma PlainThenClosingTag(x: string, name: string, ref: string)
    requires '<' !in x && name != "" && IsUpper(name[0]) && '<' !in name
    ensures ReplaceTags(x + CloseTag(name), name, ref) == x + CloseTag(name)
  {
    ReplaceTagsSkips(x, CloseTag(name), name, ref);
    ClosingTagKept(name, ref);
  }

  /** The closing tag of a capitalised name, on its own, is not a tag to replace. */
  lemma ClosingTagKept(name: string, ref: string)
    requires name != "" && IsUpper(name[0]) && '<' !in name
    ensures ReplaceTags(CloseTag(name), name, ref) == CloseTag(name)
  {
    var s := CloseTag(name);
    assert !OccursAt(s, OpenTag(name), 0) by { assert s[1] == '/' && OpenTag(name)[1] == name[0]; }
    var rest := "/" + name + ">";
    assert s == "<" + rest && s[1..] == rest;
    assert '<' !in rest;
    ReplaceTagsSkips(rest, "", name, ref);
    assert rest + "" == rest;
  }


}
