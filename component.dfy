/**
 * component.go: the compiler of one `.goo` component file. A component is read,
 * named after its path, split into its script, style and markup sections; the
 * components its script imports are compiled recursively and registered by
 * path, and the component's own template fragments are generated.
 */
module Components {
  import opened Text
  import opened Helpers
  import opened Sections
  import opened StrCase
  import opened Patterns

  // ---------------------------------------------------------------------------
  // The custom-element name of a component
  // ---------------------------------------------------------------------------

  /** The characters `strings.TrimRight(name, ".goo")` strips from the end. */
  const GooCutset: set<char> := {'.', 'g', 'o'}

  /** The extension of a component file, the directory prefix dropped from its path, and the prefix of its name. */
  const GooExtension: string := ".goo"
  const AppDir: string := "app/"
  const GooPrefix: string := "goo-"

  /** The prefix of a component's class, before its random part. */
  const ClassPrefix: string := "indigoo-"

  /**
   * component.go:43-45 as written: lower-case the path, strip trailing `.`,
   * `g` and `o` characters (TrimRight takes a set of characters), drop every
   * `app/`, turn every `/` into `-`, and prefix `goo-`.
   */
  function WebComponentNameAsWritten(path: string): string {
    var stem := ReplaceAll(TrimRightSet(ToLower(path), GooCutset), AppDir, "");
    GooPrefix + ReplaceAll(stem, "/", "-")
  }

  /**
   * The as-written name starts with `goo-`, holds no `/` (every separator
   * became `-`), and no upper-case letter (the path was lower-cased first).
   */
  lemma AsWrittenShape(path: string)
    ensures var r := WebComponentNameAsWritten(path);
            && |r| >= 4 && r[..4] == GooPrefix && '/' !in r
            && forall k :: 0 <= k < |r| ==> !IsUpper(r[k])
  {
    var l := ToLower(path);
    var lower := TrimRightSet(l, GooCutset);
    assert forall c :: c in lower ==> !IsUpper(c) by {
      assert forall i :: 0 <= i < |lower| ==> lower[i] == l[i];
    }
    var stem := ReplaceAll(lower, AppDir, "");
    ReplaceAllChars(lower, AppDir, "");
    ReplaceAllChars(stem, "/", "-");
    ReplaceAllCharGone(stem, '/', "-");
  }

  /**
   * The as-written name and the intended one agree on every path ending in
   * `.goo` after a character other than `.`, `g` and `o`: the cutset then
   * stops exactly where the suffix begins.
   */
  lemma AsWrittenAgrees(path: string)
    requires var l := ToLower(path); |l| >= 5 && l[|l| - 4..] == GooExtension && l[|l| - 5] !in GooCutset
    ensures WebComponentNameAsWritten(path) == WebComponentNameOf(path)
  {
    var l := ToLower(path);
    var n := |l| - 4;
    forall i | n <= i < |l| ensures l[i] in GooCutset {
      assert l[i] == l[n..][i - n];
    }
    TrimRightSetAt(l, GooCutset, n);
  }

  /**
   * As written, a component file `app/<n>.goo`, `n` free of `/` and not ending
   * in `.`, `g` or `o`, is named `goo-<lower-case n>`.
   */
  lemma AsWrittenPageName(n: string)
    requires '/' !in n && n != "" && LowerChar(n[|n| - 1]) !in GooCutset
    ensures WebComponentNameAsWritten("app/" + n + ".goo") == "goo-" + ToLower(n)
  {
    var path := "app/" + n + ".goo";
    var l := ToLower(path);
    assert path[|path| - 5] == n[|n| - 1];
    assert l[|l| - 4..] == GooExtension by {
      assert forall i :: |l| - 4 <= i < |l| ==> l[i] == LowerChar(path[i]);
    }
    AsWrittenAgrees(path);
    PageName(n);
  }

  /**
   * As written, distinct lower-case names that do not end in `.`, `g` or `o`
   * give distinct custom-element names; AsWrittenCollides shows that the
   * last condition cannot be dropped.
   */
  lemma AsWrittenDistinct(n1: string, n2: string)
    requires '/' !in n1 && '/' !in n2 && n1 != n2 && n1 != "" && n2 != ""
    requires n1[|n1| - 1] !in GooCutset && n2[|n2| - 1] !in GooCutset
    requires forall k :: 0 <= k < |n1| ==> !IsUpper(n1[k])
    requires forall k :: 0 <= k < |n2| ==> !IsUpper(n2[k])
    ensures WebComponentNameAsWritten("app/" + n1 + ".goo") != WebComponentNameAsWritten("app/" + n2 + ".goo")
  {
    ToLowerOfLower(n1);
    ToLowerOfLower(n2);
    AsWrittenPageName(n1);
    AsWrittenPageName(n2);
    assert ("goo-" + n1)[4..] == n1;
  }

  /**
   * The name the code evidently intends: the `.goo` extension is removed as a
   * suffix. The compiled component carries this name (see AssignNames); by
   * AsWrittenAgrees it is the source's own name unless the file's stem ends
   * in `.`, `g` or `o`.
   */
  function WebComponentNameOf(path: string): string {
    var stem := ReplaceAll(TrimSuffix(ToLower(path), GooExtension), AppDir, "");
    GooPrefix + ReplaceAll(stem, "/", "-")
  }

  /**
   * The name starts with `goo-`, holds no `/` (every separator became `-`),
   * and no upper-case letter (the path was lower-cased).
   */
  lemma WebComponentNameShape(path: string)
    ensures var r := WebComponentNameOf(path);
            && |r| >= 4 && r[..4] == GooPrefix && '/' !in r
            && forall k :: 0 <= k < |r| ==> !IsUpper(r[k])
  {
    var lower := TrimSuffix(ToLower(path), GooExtension);
    assert forall c :: c in lower ==> !IsUpper(c);
    var stem := ReplaceAll(lower, AppDir, "");
    ReplaceAllChars(lower, AppDir, "");
    ReplaceAllChars(stem, "/", "-");
    ReplaceAllCharGone(stem, '/', "-");
  }

  /** As written, `app/logo.goo` loses the letters `o`, `g`, `o` of its own name. */
  lemma AsWrittenTrimsName()
    ensures WebComponentNameAsWritten("app/logo.goo") == "goo-l"
  {
    var s := "app/logo.goo";
    ToLowerOfLower(s);
    TrimRightSetAt(s, GooCutset, 5);
    AsWrittenOfStem(s, "app/l", "l");
  }

  /** With the suffix removed, the same file is named after all of `logo`. */
  lemma IntendedKeepsName()
    ensures WebComponentNameOf("app/logo.goo") == "goo-logo"
  {
    var n := "logo";
    assert "app/" + n + ".goo" == "app/logo.goo";
    ToLowerOfLower(n);
    PageName(n);
  }

  /** As written, two different components end up with the same custom-element name. */
  lemma AsWrittenCollides()
    ensures WebComponentNameAsWritten("app/foo.goo") == "goo-f" == WebComponentNameAsWritten("app/f.goo")
  {
    ToLowerOfLower("app/foo.goo");
    ToLowerOfLower("app/f.goo");
    TrimRightSetAt("app/foo.goo", GooCutset, 5);
    TrimRightSetAt("app/f.goo", GooCutset, 5);
    AsWrittenOfStem("app/foo.goo", "app/f", "f");
    AsWrittenOfStem("app/f.goo", "app/f", "f");
  }

  /** With the suffix removed, the two components keep distinct names. */
  lemma IntendedSeparates()
    ensures WebComponentNameOf("app/foo.goo") != WebComponentNameOf("app/f.goo")
  {
    var long, short := "foo", "f";
    assert "app/" + long + ".goo" == "app/foo.goo";
    assert "app/" + short + ".goo" == "app/f.goo";
    PageName(long);
    PageName(short);
    assert |WebComponentNameOf("app/foo.goo")| == 7 != |WebComponentNameOf("app/f.goo")|;
  }

  /** The as-written name of a lower-case path whose trimmed form is `app/<c>`, `c` one letter. */
  lemma AsWrittenOfStem(path: string, trimmed: string, c: string)
    requires ToLower(path) == path && TrimRightSet(path, GooCutset) == trimmed
    requires |c| == 1 && trimmed == "app/" + c && c != "/"
    ensures WebComponentNameAsWritten(path) == "goo-" + c
  {
    assert OccursAt(trimmed, "app/", 0);
    assert trimmed[4..] == c;
    assert ReplaceAll(c, "app/", "") == c;
    assert ReplaceAll(trimmed, "app/", "") == c;
    assert ReplaceAll(c, "/", "-") == c;
  }

  /** A component file `app/<n>.goo` with `n` free of `/` is named `goo-<lower-case n>`. */
  lemma {:induction false} PageName(n: string)
    requires '/' !in n
    ensures WebComponentNameOf("app/" + n + ".goo") == "goo-" + ToLower(n)
  {
    var path := "app/" + n + ".goo";
    var m := ToLower(n);
    LowerPath(n);
    assert '/' !in m;
    assert TrimSuffix(ToLower(path), ".goo") == "app/" + m;
    StemOfPath(m);
  }

  /** Lower-casing `app/<n>.goo` lower-cases `n` only. */
  lemma LowerPath(n: string)
    ensures ToLower("app/" + n + ".goo") == "app/" + ToLower(n) + ".goo"
  {
  }

  /** Dropping `app/` and turning `/` into `-` leaves a stem free of `/` as it is. */
  lemma StemOfPath(m: string)
    requires '/' !in m
    ensures ReplaceAll(ReplaceAll("app/" + m, "app/", ""), "/", "-") == m
  {
    ReplaceAllLeading(AppDir, m, "");
    assert "" + m == m;
    ReplaceAllAbsent(m, '/', "-");
  }

  /** With the suffix removed, distinct lower-case component names stay distinct. */
  lemma DistinctNames(n1: string, n2: string)
    requires '/' !in n1 && '/' !in n2 && n1 != n2
    requires forall k :: 0 <= k < |n1| ==> !IsUpper(n1[k])
    requires forall k :: 0 <= k < |n2| ==> !IsUpper(n2[k])
    ensures WebComponentNameOf("app/" + n1 + ".goo") != WebComponentNameOf("app/" + n2 + ".goo")
  {
    PageName(n1);
    PageName(n2);
    assert ToLower(n1) == n1 && ToLower(n2) == n2;
    assert ("goo-" + n1)[4..] == n1;
  }

  // ---------------------------------------------------------------------------
  // The custom element that wraps the script
  // ---------------------------------------------------------------------------

  /** The text around the class name in the class header (component.go:188). */
  const ClassKeyword: string := "class "
  const ClassPreamble: string := " extends HTMLElement {\nstatic observedAttributes = [\"name\"];\n\nconstructor() {\nsuper();\n\n"

  /** The text of the footer (component.go:197) before the element name, between it and the class name, and after. */
  const FooterOpen: string := "\n}\n}\n\ncustomElements.define(\""
  const FooterSeparator: string := "\", "
  const FooterClose: string := ");"

  /** The class header written before the script. */
  function ElementHeader(className: string): string {
    ClassKeyword + className + ClassPreamble
  }

  /**
   * The footer written after the script. The CSS attachment between its two
   * closing braces is empty: its code is commented out.
   */
  function ElementFooter(webComponentName: string, className: string): string {
    FooterOpen + webComponentName + FooterSeparator + className + FooterClose
  }

  /** An import line becomes an empty line; any other line is kept as it is. */
  function Blank(line: string): string {
    if IsImportLine(TrimSpace(line)) then "" else line
  }

  /** Blank applied to every line. */
  function BlankImports(lines: seq<string>): (r: seq<string>)
    ensures |r| == |lines|
  {
    if lines == [] then [] else BlankImports(lines[..|lines| - 1]) + [Blank(lines[|lines| - 1])]
  }

  /** The `i`-th cleaned line is the `i`-th line, blanked if it is an import line. */
  lemma {:induction false} BlankImportsAt(lines: seq<string>, i: nat)
    requires i < |lines|
    ensures BlankImports(lines)[i] == Blank(lines[i])
  {
    if i < |lines| - 1 {
      BlankImportsAt(lines[..|lines| - 1], i);
    }
  }

  /** A blanked line is not an import line; a line is kept verbatim unless it was an import line. */
  lemma BlankLine(line: string)
    ensures !IsImportLine(TrimSpace(Blank(line)))
    ensures Blank(line) == line || (Blank(line) == "" && IsImportLine(TrimSpace(line)))
    ensures !IsImportLine(TrimSpace(line)) ==> Blank(line) == line
  {
    assert TrimSpace("") == "";
    assert !IsImportLine("");
  }

  /**
   * After blanking, no import line is left; every line is either kept
   * verbatim or was an import line and is now empty.
   */
  lemma BlankImportsRemovesImports(lines: seq<string>, i: nat)
    requires i < |lines|
    ensures var r := BlankImports(lines);
            && !IsImportLine(TrimSpace(r[i]))
            && (r[i] == lines[i] || (r[i] == "" && IsImportLine(TrimSpace(lines[i]))))
            && (!IsImportLine(TrimSpace(lines[i])) ==> r[i] == lines[i])
  {
    BlankImportsAt(lines, i);
    BlankLine(lines[i]);
  }

  /** Without import lines, blanking changes nothing. */
  lemma {:induction false} BlankImportsNone(lines: seq<string>)
    requires forall i :: 0 <= i < |lines| ==> !IsImportLine(TrimSpace(lines[i]))
    ensures BlankImports(lines) == lines
  {
    if lines != [] {
      var n := |lines| - 1;
      var init := lines[..n];
      assert forall i :: 0 <= i < |init| ==> init[i] == lines[i];
      BlankImportsNone(init);
      assert Blank(lines[n]) == lines[n];
      FrontLast(lines);
    }
  }

  /** The line loop of handleJavascript (component.go:199-205). */
  method BlankImportLines(lines: seq<string>) returns (cleanedLines: seq<string>)
    ensures cleanedLines == BlankImports(lines)
  {
    cleanedLines := [];
    var i := 0;
    while i < |lines|
      invariant 0 <= i <= |lines|
      invariant cleanedLines == BlankImports(lines[..i])
    {
      assert lines[..i + 1][..i] == lines[..i];
      if IsImportLine(TrimSpace(lines[i])) {
        cleanedLines := cleanedLines + [""];
      } else {
        cleanedLines := cleanedLines + [lines[i]];
      }
      i := i + 1;
    }
    assert lines[..i] == lines;
  }

  /** The JavaScript of a component: its script without import lines, inside a custom-element class. */
  function ElementScript(script: string, webComponentName: string): (js: string)
  {
    var className := CamelCase(webComponentName, true, map[]);
    ElementHeader(className)
      + TrimSpace(Join(BlankImports(Split(script, '\n')), '\n'))
      + ElementFooter(webComponentName, className)
  }

  /** A script without import lines is wrapped, trimmed, as it is. */
  lemma ElementScriptWithoutImports(script: string, webComponentName: string)
    requires forall i :: 0 <= i < |Split(script, '\n')| ==> !IsImportLine(TrimSpace(Split(script, '\n')[i]))
    ensures var className := CamelCase(webComponentName, true, map[]);
            ElementScript(script, webComponentName)
              == ElementHeader(className) + TrimSpace(script) + ElementFooter(webComponentName, className)
  {
    BlankImportsNone(Split(script, '\n'));
  }

  /** Blanking keeps the line structure: the cleaned script splits back into the cleaned lines. */
  lemma BlankImportsKeepsLines(script: string)
    ensures Split(Join(BlankImports(Split(script, '\n')), '\n'), '\n') == BlankImports(Split(script, '\n'))
  {
    var lines := Split(script, '\n');
    var r := BlankImports(lines);
    forall k | 0 <= k < |r| ensures '\n' !in r[k] {
      BlankImportsAt(lines, k);
      BlankLine(lines[k]);
    }
    SplitJoin(r, '\n');
  }

  /** The class is named after the custom element, in CamelCase: `goo-nav-bar` becomes `GooNavBar`. */
  lemma ElementClassName()
    ensures CamelCase("goo-nav-bar", true, map[]) == "GooNavBar"
  {
    var t := "goo-nav-bar";
    assert TrimSpace(t) == t by {
      assert SpacesFrom(t, 0) == 0;
      assert SpacesBefore(t, |t|) == 0;
    }
    ClassNameWords(t);
  }

  lemma ClassNameWords(t: string)
    requires t == "goo-nav-bar"
    ensures CamelPrefix(t, 11, true, false) == "GooNavBar"
  {
    ClassNameTwoWords(t);
    assert CamelPrefix(t, 9, true, false) == "GooNavB";
    assert CamelPrefix(t, 10, true, false) == "GooNavBa";
  }

  lemma ClassNameTwoWords(t: string)
    requires t == "goo-nav-bar"
    ensures CamelPrefix(t, 8, true, false) == "GooNav"
  {
    ClassNameOneWord(t);
    assert CamelPrefix(t, 5, true, false) == "GooN";
    assert CamelPrefix(t, 6, true, false) == "GooNa";
    assert CamelPrefix(t, 7, true, false) == "GooNav";
  }

  lemma ClassNameOneWord(t: string)
    requires t == "goo-nav-bar"
    ensures CamelPrefix(t, 4, true, false) == "Goo"
  {
    assert CamelPrefix(t, 1, true, false) == "G";
    assert CamelPrefix(t, 2, true, false) == "Go";
    assert CamelPrefix(t, 3, true, false) == "Goo";
  }

  // ---------------------------------------------------------------------------
  // Template fragments
  // ---------------------------------------------------------------------------

  /** The text of a fragment's `define` before and after its name, and the fragment's `end`. */
  const DefineOpen: string := "{{define \""
  const DefineClose: string := "\"}}\n"
  const FragmentEnd: string := "\n{{end}}\n"

  /** The script element around the element script. */
  const ScriptLineOpen: string := "<script>\n"
  const ScriptLineClose: string := "\n</script>"

  /** The opening of the named fragment `name`. */
  function Define(name: string): string {
    DefineOpen + name + DefineClose
  }

  /** The `js-<class>` fragment holding the element script (component.go:137). */
  function ScriptFragment(customClass: string, js: string): string {
    Define("js-" + customClass) + ScriptLineOpen + js + ScriptLineClose + FragmentEnd
  }

  /**
   * The `content-<class>` fragment (component.go:140-150): the markup, wrapped
   * in the custom element when the component has a script.
   */
  function ContentFragment(customClass: string, webComponentName: string, content: string, wrapped: bool): string {
    var open := if wrapped then "<" + webComponentName + ">\n" else "";
    var close := if wrapped then "</" + webComponentName + ">\n" else "";
    Define("content-" + customClass) + open + TrimSpace(content) + "\n" + close + FragmentEnd
  }

  /** The script fragment opens with its `define`. */
  lemma ScriptFragmentOpens(customClass: string, js: string)
    ensures OccursAt(ScriptFragment(customClass, js), Define("js-" + customClass), 0)
  {
  }

  /** The content fragment opens with its `define`. */
  lemma ContentFragmentOpens(customClass: string, webComponentName: string, content: string, wrapped: bool)
    ensures OccursAt(ContentFragment(customClass, webComponentName, content, wrapped), Define("content-" + customClass), 0)
  {
  }

  /**
   * parseTemplate: a script fragment when there is a script, then a content
   * fragment when there is markup. No style fragment is produced.
   */
  function TemplateOf(script: string, content: string, customClass: string, webComponentName: string): string {
    var js := if script != "" then ScriptFragment(customClass, ElementScript(script, webComponentName)) else "";
    var markup := if content != "" then ContentFragment(customClass, webComponentName, content, script != "") else "";
    js + markup
  }

  /** A `define` holds the fragment name right after its opening text. */
  lemma DefineName(name: string, k: nat)
    requires k < |name|
    ensures |Define(name)| > |DefineOpen| + k && Define(name)[|DefineOpen| + k] == name[k]
  {
  }

  /**
   * Fragments assembled as parseTemplate assembles them, for any element
   * script `js`: the text is empty exactly when there is neither script nor
   * markup; it opens with the script fragment exactly when there is a script,
   * and otherwise with the content fragment exactly when there is markup.
   */
  lemma FragmentsShape(js: string, content: string, customClass: string, webComponentName: string, hasScript: bool)
    ensures var t := (if hasScript then ScriptFragment(customClass, js) else "")
                     + (if content != "" then ContentFragment(customClass, webComponentName, content, hasScript) else "");
            && (t == "" <==> !hasScript && content == "")
            && (OccursAt(t, Define("js-" + customClass), 0) <==> hasScript)
            && (!hasScript ==> (OccursAt(t, Define("content-" + customClass), 0) <==> content != ""))
  {
    var jsPart := if hasScript then ScriptFragment(customClass, js) else "";
    var markup := if content != "" then ContentFragment(customClass, webComponentName, content, hasScript) else "";
    if content != "" {
      ContentFragmentOpens(customClass, webComponentName, content, hasScript);
      ContentFragmentNotScript(customClass, webComponentName, content, hasScript);
    }
    if hasScript {
      ScriptFragmentOpens(customClass, js);
      OccursInPrefix(jsPart, markup, Define("js-" + customClass), 0);
    } else {
      EmptyConcat(markup);
    }
  }

  /** A content fragment does not open with the script fragment's `define`. */
  lemma ContentFragmentNotScript(customClass: string, webComponentName: string, content: string, wrapped: bool)
    ensures !OccursAt(ContentFragment(customClass, webComponentName, content, wrapped), Define("js-" + customClass), 0)
  {
    var markup := ContentFragment(customClass, webComponentName, content, wrapped);
    var jsDefine := Define("js-" + customClass);
    ContentFragmentOpens(customClass, webComponentName, content, wrapped);
    DefineName("js-" + customClass, 0);
    DefineName("content-" + customClass, 0);
    assert jsDefine[|DefineOpen|] == 'j';
    assert markup[|DefineOpen|] == 'c';
  }

  /**
   * The template is empty exactly when there is neither script nor markup; it
   * opens with the script fragment exactly when there is a script, and
   * otherwise with the content fragment exactly when there is markup.
   */
  lemma TemplateOfShape(script: string, content: string, customClass: string, webComponentName: string)
    ensures var t := TemplateOf(script, content, customClass, webComponentName);
            && (t == "" <==> script == "" && content == "")
            && (OccursAt(t, Define("js-" + customClass), 0) <==> script != "")
            && (script == "" ==> (OccursAt(t, Define("content-" + customClass), 0) <==> content != ""))
  {
    FragmentsShape(ElementScript(script, webComponentName), content, customClass, webComponentName, script != "");
  }

  /**
   * The content fragment of parseTemplate, for any element script `js`: it
   * follows the script fragment, present exactly when there is markup, and
   * the markup is wrapped in the custom element exactly when there is a
   * script.
   */
  lemma FragmentsContent(js: string, content: string, customClass: string, webComponentName: string, hasScript: bool)
    ensures var jsPart := if hasScript then ScriptFragment(customClass, js) else "";
            var t := jsPart + (if content != "" then ContentFragment(customClass, webComponentName, content, hasScript) else "");
            && (content == "" ==> t == jsPart)
            && (content != "" && hasScript ==>
                  t == ScriptFragment(customClass, js) + Define("content-" + customClass)
                       + "<" + webComponentName + ">\n" + TrimSpace(content) + "\n"
                       + "</" + webComponentName + ">\n" + FragmentEnd)
            && (content != "" && !hasScript ==>
                  t == Define("content-" + customClass) + TrimSpace(content) + "\n" + FragmentEnd)
            && (OccursAt(t, Define("content-" + customClass), |jsPart|) <==> content != "")
  {
    var jsPart := if hasScript then ScriptFragment(customClass, js) else "";
    var define := Define("content-" + customClass);
    var body := TrimSpace(content);
    if content != "" {
      var markup := ContentFragment(customClass, webComponentName, content, hasScript);
      if hasScript {
        WrappedRegrouped(jsPart, define, "<", webComponentName, ">\n", body, "\n", "</", ">\n", FragmentEnd);
      } else {
        PlainRegrouped(define, body, "\n", FragmentEnd);
      }
      ContentFragmentOpens(customClass, webComponentName, content, hasScript);
      OccursAfterPrefix(jsPart, markup, define);
    } else {
      EmptyConcat(jsPart);
    }
  }

  /** The wrapped content fragment, its parts regrouped. */
  lemma WrappedRegrouped<T>(s: seq<T>, d: seq<T>, o1: seq<T>, w: seq<T>, o2: seq<T>, x: seq<T>, n: seq<T>,
                            c1: seq<T>, c2: seq<T>, e: seq<T>)
    ensures s + (d + (o1 + w + o2) + x + n + (c1 + w + c2) + e) == s + d + o1 + w + o2 + x + n + c1 + w + c2 + e
  {
  }

  /** The unwrapped content fragment, its empty parts dropped. */
  lemma PlainRegrouped<T>(d: seq<T>, x: seq<T>, n: seq<T>, e: seq<T>)
    ensures [] + (d + [] + x + n + [] + e) == d + x + n + e
  {
  }

  /**
   * parseTemplate's content fragment: after the script fragment, present
   * exactly when there is markup, wrapped in `<webComponentName>` exactly when
   * there is a script.
   */
  lemma TemplateOfContent(script: string, content: string, customClass: string, webComponentName: string)
    ensures var js := ElementScript(script, webComponentName);
            var t := TemplateOf(script, content, customClass, webComponentName);
            var jsPart := if script != "" then ScriptFragment(customClass, js) else "";
            && (content == "" ==> t == jsPart)
            && (content != "" && script != "" ==>
                  t == ScriptFragment(customClass, js) + Define("content-" + customClass)
                       + "<" + webComponentName + ">\n" + TrimSpace(content) + "\n"
                       + "</" + webComponentName + ">\n" + FragmentEnd)
            && (content != "" && script == "" ==>
                  t == Define("content-" + customClass) + TrimSpace(content) + "\n" + FragmentEnd)
            && (OccursAt(t, Define("content-" + customClass), |jsPart|) <==> content != "")
  {
    FragmentsContent(ElementScript(script, webComponentName), content, customClass, webComponentName, script != "");
  }

  // ---------------------------------------------------------------------------
  // The import registry
  // ---------------------------------------------------------------------------

  /**
   * The file system the compiler reads: the contents of the readable files,
   * and `resolve(p, q)`, standing for `filepath.Join(filepath.Dir(p), q)`.
   */
  datatype FileSystem = FileSystem(files: map<string, string>, resolve: (string, string) -> string)

  /** `line` imports a component that the scan registers under the path `key`. */
  predicate RegistersAt(line: string, base: string, resolve: (string, string) -> string, key: string) {
    && ImportPath(line).Some?
    && ComponentNames(line) != []
    && resolve(base, ImportPath(line).value) == key
  }

  /** Registration names the path that RegistersAt describes. */
  lemma RegistrationKey(line: string, base: string, resolve: (string, string) -> string, key: string)
    ensures RegistersAt(line, base, resolve, key) <==>
              Registration(line, base, resolve).Some? && Registration(line, base, resolve).value.0 == key
  {
  }

  /**
   * What one script line registers: the resolved import path and the first
   * captured name, when the line is an import line that names a component.
   */
  function Registration(line: string, base: string, resolve: (string, string) -> string): Option<(string, string)> {
    match ImportPath(line)
    case None => None
    case Some(path) =>
      var names := ComponentNames(line);
      if names == [] then None else Some((resolve(base, path), names[0]))
  }

  /** No line of `lines` imports a component. */
  predicate RegistersNothing(lines: seq<string>, base: string, resolve: (string, string) -> string)
    decreases |lines|
  {
    lines == [] || (Registration(lines[0], base, resolve).None? && RegistersNothing(lines[1..], base, resolve))
  }

  /** When no line imports a component, line `i` does not. */
  lemma {:induction false} NothingRegisteredAt(lines: seq<string>, base: string, resolve: (string, string) -> string, i: nat)
    requires RegistersNothing(lines, base, resolve) && i < |lines|
    ensures Registration(lines[i], base, resolve).None?
    decreases i
  {
    if i > 0 {
      NothingRegisteredAt(lines[1..], base, resolve, i - 1);
      assert lines[1..][i - 1] == lines[i];
    }
  }

  /** What each of `lines` registers, in order. */
  function LineRegistrations(lines: seq<string>, base: string, resolve: (string, string) -> string)
    : (regs: seq<Option<(string, string)>>)
    ensures |regs| == |lines|
    decreases |lines|
  {
    if lines == [] then []
    else
      var n := |lines| - 1;
      LineRegistrations(lines[..n], base, resolve) + [Registration(lines[n], base, resolve)]
  }

  lemma {:induction false} LineRegistrationAt(lines: seq<string>, i: nat, base: string, resolve: (string, string) -> string)
    requires i < |lines|
    ensures LineRegistrations(lines, base, resolve)[i] == Registration(lines[i], base, resolve)
    decreases |lines|
  {
    var n := |lines| - 1;
    if i < n {
      LineRegistrationAt(lines[..n], i, base, resolve);
    }
  }

  /**
   * The map built from the first `n` registrations: each one stores its name
   * under its path, a later one overwriting an earlier one for the same path.
   */
  function Collected(regs: seq<Option<(string, string)>>, n: nat): map<string, string>
    requires n <= |regs|
  {
    if n == 0 then map[]
    else
      var m := Collected(regs, n - 1);
      match regs[n - 1]
      case None => m
      case Some((key, name)) => m[key := name]
  }

  /**
   * What handleComponents registers after the first `n` lines: the resolved
   * path of each import line that names a component, mapped to the first name
   * on that line. A later import of the same path overwrites an earlier one.
   */
  function Registered(lines: seq<string>, n: nat, base: string, resolve: (string, string) -> string): map<string, string>
    requires n <= |lines|
  {
    Collected(LineRegistrations(lines, base, resolve), n)
  }

  /** One more line of the scan adds what that line registers. */
  lemma RegisteredStep(lines: seq<string>, i: nat, base: string, resolve: (string, string) -> string)
    requires i < |lines|
    ensures Registered(lines, i + 1, base, resolve)
            == match Registration(lines[i], base, resolve)
               case None => Registered(lines, i, base, resolve)
               case Some((key, name)) => Registered(lines, i, base, resolve)[key := name]
  {
    LineRegistrationAt(lines, i, base, resolve);
  }

  /** Every registered name has the shape of a component name. */
  lemma {:induction false} RegisteredNames(lines: seq<string>, n: nat, base: string, resolve: (string, string) -> string)
    requires n <= |lines|
    ensures var m := Registered(lines, n, base, resolve);
            forall key :: key in m ==> IsComponentName(m[key])
  {
    if n > 0 {
      RegisteredNames(lines, n - 1, base, resolve);
      RegisteredStep(lines, n - 1, base, resolve);
      var reg := Registration(lines[n - 1], base, resolve);
      if reg.Some? {
        ComponentNamesShape(lines[n - 1]);
        assert IsComponentName(reg.value.1);
      }
    }
  }

  /** Every registered path comes from an import line that names a component. */
  lemma {:induction false} RegisteredFromLine(lines: seq<string>, n: nat, base: string, resolve: (string, string) -> string, key: string)
    requires n <= |lines| && key in Registered(lines, n, base, resolve)
    ensures exists i :: 0 <= i < n && RegistersAt(lines[i], base, resolve, key)
  {
    RegisteredStep(lines, n - 1, base, resolve);
    if !RegistersAt(lines[n - 1], base, resolve, key) {
      RegisteredFromLine(lines, n - 1, base, resolve, key);
    }
  }

  /**
   * The last line that registers a path decides its entry: the entry is the
   * first name on that line.
   */
  lemma {:induction false} RegisteredByLastLine(lines: seq<string>, n: nat, base: string, resolve: (string, string) -> string, key: string, i: nat)
    requires i < n <= |lines| && RegistersAt(lines[i], base, resolve, key)
    requires forall i' :: i < i' < n ==> !RegistersAt(lines[i'], base, resolve, key)
    ensures var m := Registered(lines, n, base, resolve);
            key in m && m[key] == ComponentNames(lines[i])[0]
  {
    var regs := LineRegistrations(lines, base, resolve);
    LineRegistrationAt(lines, i, base, resolve);
    forall i' | i < i' < n ensures regs[i'].None? || regs[i'].value.0 != key {
      LineRegistrationAt(lines, i', base, resolve);
      RegistrationKey(lines[i'], base, resolve, key);
    }
    CollectedByLast(regs, n, key, ComponentNames(lines[i])[0], i);
  }

  /** The last registration of `key` among the first `n` decides its entry. */
  lemma {:induction false} CollectedByLast(regs: seq<Option<(string, string)>>, n: nat, key: string, name: string, i: nat)
    requires i < n <= |regs| && regs[i] == Some((key, name))
    requires forall i' :: i < i' < n ==> regs[i'].None? || regs[i'].value.0 != key
    ensures key in Collected(regs, n) && Collected(regs, n)[key] == name
  {
    if i < n - 1 {
      CollectedByLast(regs, n - 1, key, name, i);
    }
  }

  // ---------------------------------------------------------------------------
  // Sections of a component file
  // ---------------------------------------------------------------------------

  /** The trimmed markup of the first `<component>…</component>` block. */
  function ComponentBlock(raw: string): Result<string> {
    TrimmedBlock(raw, ComponentOpen, ComponentClose)
  }

  /** The file has all three sections: a script, a style and a component block. */
  predicate HasSections(raw: string) {
    GetJavaScriptCode(raw).Ok? && GetCSSCode(raw).Ok? && ComponentBlock(raw).Ok?
  }

  /**
   * The file at `path` is readable, has its three sections, and its script
   * imports no component: compiling it reads no other file.
   */
  predicate SelfContained(path: string, fs: FileSystem) {
    && path in fs.files && HasSections(fs.files[path])
    && RegistersNothing(Split(GetJavaScriptCode(fs.files[path]).value, '\n'), path, fs.resolve)
  }

  /** Every child stores its own components under their paths. */
  ghost predicate ChildrenUnderPaths(children: map<string, Component>)
    reads children.Values`Components, Nested(children)`Path
  {
    forall c :: c in children.Values ==> UnderPaths(c.Components)
  }

  /**
   * The inner loop of the promotion: every component of `subs` is stored in
   * `cps` under its path, which is its key in `subs`.
   */
  method StoreUnderPaths(cps: map<string, Component>, subs: map<string, Component>) returns (r: map<string, Component>)
    requires UnderPaths(subs)
    ensures r == cps + subs
  {
    r := cps;
    var subKeys := subs.Keys;
    while subKeys != {}
      invariant subKeys <= subs.Keys
      invariant r == cps + (map key | key in subs && key !in subKeys :: subs[key])
    {
      var sk :| sk in subKeys;
      var subComponent := subs[sk];
      r := r[subComponent.Path := subComponent];
      subKeys := subKeys - {sk};
    }
  }

  /** The state of the promotion loop, with the children at `keys` still to visit. */
  ghost predicate Promoting(children: map<string, Component>, cps: map<string, Component>, keys: set<string>, self: Component)
    reads children.Values`Components, cps.Values`Path
  {
    && keys <= children.Keys <= cps.Keys
    && (forall k, key :: k in children && k !in keys && key in children[k].Components ==> key in cps)
    && (forall key :: key in cps ==> key in children || key in NestedKeys(children))
    && (forall key :: key in cps ==> (key in children && cps[key] == children[key]) || cps[key] in Nested(children))
    && UnderPaths(cps) && self !in cps.Values
  }

  lemma PromotionStart(children: map<string, Component>, self: Component)
    requires UnderPaths(children) && self !in children.Values
    ensures Promoting(children, children, children.Keys, self)
  {
  }

  /** Visiting one more child keeps the loop state. */
  lemma PromotionStep(children: map<string, Component>, cps: map<string, Component>, keys: set<string>, k: string, self: Component, next: map<string, Component>)
    requires Promoting(children, cps, keys, self) && k in keys && next == cps + children[k].Components
    requires self !in Nested(children)
    requires ChildrenUnderPaths(children)
    ensures Promoting(children, next, keys - {k}, self)
  {
    var subs := children[k].Components;
    assert children[k] in children.Values;
    forall key | key in subs ensures key in NestedKeys(children) && subs[key] in Nested(children) {
    }
  }

  lemma PromotionEnd(children: map<string, Component>, cps: map<string, Component>, self: Component)
    requires Promoting(children, cps, {}, self)
    ensures PromotedFrom(children, cps)
  {
  }

  /** The promotion brings in no component other than the children and their own components. */
  lemma PromotedValues(children: map<string, Component>, components: map<string, Component>)
    requires PromotedFrom(children, components)
    ensures components.Values <= children.Values + Nested(children)
  {
    forall c | c in components.Values ensures c in children.Values + Nested(children) {
      var key :| key in components && components[key] == c;
    }
  }

  /**
   * The promotion at component.go:59-63 over a snapshot of the children, in
   * any order: every component of every child is stored under its path.
   */
  method Promote(children: map<string, Component>, self: Component) returns (cps: map<string, Component>)
    requires UnderPaths(children) && self !in children.Values && self !in Nested(children)
    requires ChildrenUnderPaths(children)
    ensures PromotedFrom(children, cps)
    ensures UnderPaths(cps) && self !in cps.Values
  {
    cps := children;
    var keys := children.Keys;
    PromotionStart(children, self);
    while keys != {}
      invariant Promoting(children, cps, keys, self)
    {
      var k :| k in keys;
      var component := children[k];
      var next := StoreUnderPaths(cps, component.Components);
      PromotionStep(children, cps, keys, k, self, next);
      cps := next;
      keys := keys - {k};
    }
    PromotionEnd(children, cps, self);
  }

  /** Storing `c` under its path keeps the registrations, with its name registered there. */
  lemma RegistrationsStore(cps: map<string, Component>, reg: map<string, string>, c: Component)
    requires Registrations(cps, reg)
    ensures Registrations(cps[c.Path := c], reg[c.Path := c.Name])
  {
  }

  /** Storing a compiled component keeps every stored component compiled. */
  lemma CompiledStore(cps: map<string, Component>, key: string, c: Component, fs: FileSystem)
    requires AllCompiled(cps, fs) && AllCompiled(map[key := c], fs)
    ensures AllCompiled(cps[key := c], fs)
  {
    assert map[key := c][key] == c;
    forall d | d in cps[key := c].Values ensures d.Compiled(fs) {
      var k :| k in cps[key := c] && cps[key := c][k] == d;
      if k != key {
        assert cps[k] == d;
      }
    }
  }

  /** Storing `c` adds at most the components of `c` to the nested ones. */
  lemma NestedStore(cps: map<string, Component>, key: string, c: Component)
    requires ChildrenUnderPaths(cps) && UnderPaths(c.Components)
    ensures cps[key := c].Values <= cps.Values + {c}
    ensures Nested(cps[key := c]) <= Nested(cps) + c.Components.Values
    ensures ChildrenUnderPaths(cps[key := c])
  {
  }

  /**
   * `new(component).New(path, name)`: a fresh component generated from the file
   * at `path`. Only what the scan relies on is stated here; New states the rest.
   */
  method NewComponent(path: string, name: string, fs: FileSystem, rnd: Random, fuel: nat) returns (r: Result<Component>)
    modifies rnd
    decreases fuel, 7
    ensures r.Ok? ==> fresh(r.value) && r.value.Path == path && r.value.Name == name
    ensures r.Ok? ==> r.value.Keyed() && UnderPaths(r.value.Components)
    ensures r.Ok? ==> fresh(r.value.Components.Values)
    ensures r.Ok? ==> AllCompiled(map[path := r.value], fs)
  {
    var child := new Component();
    r := child.New(path, name, fs, rnd, fuel);
  }

  /**
   * Lines 90-96 of handleComponents: compile the component at `path` named
   * `name` and store it under its path; a failure stops the scan with its error.
   */
  method Register(path: string, name: string, fs: FileSystem, rnd: Random, fuel: nat,
                  cps: map<string, Component>, ghost reg: map<string, string>)
    returns (next: map<string, Component>, err: Option<Error>, ghost added: set<Component>)
    requires fuel > 0
    requires Registrations(cps, reg) && ChildrenUnderPaths(cps) && AllCompiled(cps, fs)
    modifies rnd
    decreases fuel, 0
    ensures err.None? ==> Registrations(next, reg[path := name])
    ensures err.None? ==> ChildrenUnderPaths(next) && AllCompiled(next, fs)
    ensures err.None? ==> fresh(added)
    ensures err.None? ==> next.Values <= cps.Values + added && Nested(next) <= Nested(cps) + added
  {
    var r := NewComponent(path, name, fs, rnd, fuel - 1);
    if r.Err? {
      return cps, Some(r.error), {};
    }
    ghost var kids := r.value.Components.Values;
    added := {r.value} + kids;
    assert fresh(added) by {
      assert fresh(kids) && fresh(r.value);
      assert forall o :: o in added ==> o == r.value || o in kids;
    }
    RegistrationsStore(cps, reg, r.value);
    NestedStore(cps, path, r.value);
    CompiledStore(cps, path, r.value, fs);
    next := cps[path := r.value];
    err := None;
  }

  /**
   * One iteration of the loop of handleComponents, on line `i` of `lines`: an
   * import line that names a component creates that component from the file
   * at the import path resolved against `base`, and stores it under that
   * path; any other line leaves the map as it is.
   */
  method ScanLine(line: string, ghost lines: seq<string>, ghost i: nat, base: string, fs: FileSystem, rnd: Random, fuel: nat,
                  cps: map<string, Component>, ghost quiet: bool)
    returns (next: map<string, Component>, err: Option<Error>, ghost added: set<Component>)
    requires i < |lines| && lines[i] == line
    requires quiet ==> RegistersNothing(lines, base, fs.resolve)
    requires Registrations(cps, Registered(lines, i, base, fs.resolve)) && ChildrenUnderPaths(cps)
    requires AllCompiled(cps, fs)
    modifies rnd
    decreases fuel, 1
    ensures err.None? ==> Registrations(next, Registered(lines, i + 1, base, fs.resolve))
    ensures err.None? ==> ChildrenUnderPaths(next)
    ensures err.None? ==> fresh(added)
    ensures err.None? ==> next.Values <= cps.Values + added && Nested(next) <= Nested(cps) + added
    ensures err.None? ==> AllCompiled(next, fs)
    ensures quiet ==> err.None?
  {
    if quiet {
      NothingRegisteredAt(lines, base, fs.resolve, i);
    }
    added := {};
    ghost var reg := Registered(lines, i, base, fs.resolve);
    RegisteredStep(lines, i, base, fs.resolve);
    next := cps;
    var importPath := ImportPath(line);
    if importPath.Some? {
      var componentNames := ComponentNames(line);
      if componentNames != [] {
        var componentPath := fs.resolve(base, importPath.value);
        if fuel == 0 {
          return next, Some(DepthExceeded(componentPath)), {};
        }
        assert Registered(lines, i + 1, base, fs.resolve) == reg[componentPath := componentNames[0]];
        next, err, added := Register(componentPath, componentNames[0], fs, rnd, fuel, cps, reg);
        return;
      }
    }
    assert Registered(lines, i + 1, base, fs.resolve) == reg;
    return next, None, {};
  }

  /**
   * The loop of handleComponents over the script lines (see ScanLine): every
   * import line that names a component registers one component under its
   * resolved path, a later import of the same path replacing the earlier one.
   * The first failure stops the scan. (The source also collects the other
   * lines into a list that nothing reads; the model leaves that list out.)
   */
  method ScanImports(lines: seq<string>, base: string, fs: FileSystem, rnd: Random, fuel: nat, ghost quiet: bool)
    returns (cps: map<string, Component>, err: Option<Error>, ghost made: set<Component>)
    requires quiet ==> RegistersNothing(lines, base, fs.resolve)
    modifies rnd
    decreases fuel, 2
    ensures err.None? ==> Registrations(cps, Registered(lines, |lines|, base, fs.resolve)) && UnderPaths(cps)
    ensures err.None? ==> ChildrenUnderPaths(cps)
    ensures err.None? ==> fresh(made) && cps.Values <= made && Nested(cps) <= made
    ensures err.None? ==> AllCompiled(cps, fs)
    ensures quiet ==> err.None?
  {
    cps := map[];
    made := {};
    var i := 0;
    while i < |lines|
      invariant 0 <= i <= |lines|
      invariant Registrations(cps, Registered(lines, i, base, fs.resolve))
      invariant fresh(made) && cps.Values <= made && Nested(cps) <= made
      invariant ChildrenUnderPaths(cps)
      invariant AllCompiled(cps, fs)
    {
      var next;
      ghost var added;
      ghost var before := Nested(cps);
      next, err, added := ScanLine(lines[i], lines, i, base, fs, rnd, fuel, cps, quiet);
      if err.Some? {
        return;
      }
      assert Nested(cps) == before;
      made := made + added;
      cps := next;
      i := i + 1;
    }
    return cps, None, made;
  }

  /** The number of characters of the random part of a component's class. */
  const ClassSuffixLength: nat := 8

  /**
   * `cps` holds one component per registered path, stored under that path and
   * named as the registering import line names it.
   */
  ghost predicate Registrations(cps: map<string, Component>, reg: map<string, string>)
    reads cps.Values`Path, cps.Values`Name
  {
    && cps.Keys == reg.Keys
    && forall key :: key in cps ==> cps[key].Path == key && cps[key].Name == reg[key]
  }

  /** Every component of `cps` is stored under its own path. */
  ghost predicate UnderPaths(cps: map<string, Component>)
    reads cps.Values`Path
  {
    forall key :: key in cps ==> cps[key].Path == key
  }

  /** Every component of `cps` is compiled from the file at its path. */
  ghost predicate AllCompiled(cps: map<string, Component>, fs: FileSystem)
    reads cps.Values
  {
    forall c {:trigger c.Compiled(fs)} :: c in cps.Values ==> c.Compiled(fs)
  }

  /** The keys of the children's own component maps. */
  ghost function NestedKeys(children: map<string, Component>): set<string>
    reads children.Values`Components
  {
    set c, key | c in children.Values && key in c.Components :: key
  }

  /** The components held in the children's own component maps. */
  ghost function Nested(children: map<string, Component>): set<Component>
    reads children.Values`Components
  {
    set c, key | c in children.Values && key in c.Components :: c.Components[key]
  }

  /**
   * `components` is `children` with every grandchild promoted one level: the
   * keys are those of the children and of their maps, and every entry is the
   * child stored there or one of the grandchildren.
   */
  ghost predicate PromotedFrom(children: map<string, Component>, components: map<string, Component>)
    reads children.Values`Components
  {
    && components.Keys == children.Keys + NestedKeys(children)
    && forall key :: key in components ==>
         (key in children && components[key] == children[key]) || components[key] in Nested(children)
  }

  // ---------------------------------------------------------------------------
  // Replacing component tags by template references
  // ---------------------------------------------------------------------------

  /** The text around the class in `{{template "content-<class>" .}}`. */
  const RefOpen: string := "{{template \"content-"
  const RefClose: string := "\" .}}"

  /** The reference to the content fragment of the component of class `customClass`. */
  function ContentRef(customClass: string): string {
    RefOpen + customClass + RefClose
  }

  /** `order` lists every key of `keys` exactly once: an order in which `range` may visit a map. */
  predicate IterationOrder(order: seq<string>, keys: set<string>) {
    && |order| == |keys|
    && (forall i :: 0 <= i < |order| ==> order[i] in keys)
    && (forall i, j :: 0 <= i < j < |order| ==> order[i] != order[j])
  }

  /**
   * The template of a component and those of its registered components, the
   * latter listed in the order in which `range` visits the map.
   */
  datatype Templates = Templates(own: string, others: seq<string>)

  /**
   * The inner loop at component.go:174-178 for the tag `name` of the component
   * of class `cls`: the templates of the components of another class have
   * their tags replaced by the reference; the others are kept.
   */
  function ReplaceInOthers(others: seq<string>, classes: seq<string>, name: string, cls: string): (r: seq<string>)
    ensures |r| == |others|
  {
    if others == [] || classes == [] then others
    else
      var first := if classes[0] != cls then ReplaceTags(others[0], name, ContentRef(cls)) else others[0];
      [first] + ReplaceInOthers(others[1..], classes[1..], name, cls)
  }

  /** ReplaceInOthers treats each template on its own, by its class. */
  lemma {:induction false} ReplaceInOthersAt(others: seq<string>, classes: seq<string>, name: string, cls: string)
    requires |classes| == |others|
    ensures var r := ReplaceInOthers(others, classes, name, cls);
            forall j :: 0 <= j < |others| ==>
                 r[j] == if classes[j] != cls then ReplaceTags(others[j], name, ContentRef(cls)) else others[j]
  {
    if others != [] {
      ReplaceInOthersAt(others[1..], classes[1..], name, cls);
    }
  }

  /**
   * Round `k` of the outer loop at component.go:169-181, for the `k`-th
   * component visited: its tags become references to its content in this
   * template and in the others (see ReplaceInOthers), then its template, as
   * it now is, is appended to this one.
   */
  function ChangeRound(t: Templates, names: seq<string>, classes: seq<string>, k: nat): Templates
  {
    if k < |t.others| && k < |names| && k < |classes| then
      var others := ReplaceInOthers(t.others, classes, names[k], classes[k]);
      Templates(ReplaceTags(t.own, names[k], ContentRef(classes[k])) + others[k], others)
    else t
  }

  /**
   * handleComponentsTemplateChange after its first `n` rounds, for components
   * of the given names and classes, listed in the order visited.
   */
  function TemplateChange(t: Templates, names: seq<string>, classes: seq<string>, n: nat): Templates
    decreases n, 0
  {
    if n == 0 then t else AfterRound(t, names, classes, n - 1)
  }

  /**
   * The templates once round `k` is over. AfterRound and RoundOn are one
   * definition in two steps, so that naming a number of rounds does not by
   * itself unfold the text replacement of a round.
   */
  function AfterRound(t: Templates, names: seq<string>, classes: seq<string>, k: nat): Templates
    decreases k, 2
  {
    RoundOn(t, names, classes, k)
  }

  function RoundOn(t: Templates, names: seq<string>, classes: seq<string>, k: nat): Templates
    decreases k, 1
  {
    ChangeRound(TemplateChange(t, names, classes, k), names, classes, k)
  }

  /** Round `k` follows the first `k` rounds. */
  lemma TemplateChangeNext(t: Templates, names: seq<string>, classes: seq<string>, k: nat)
    ensures TemplateChange(t, names, classes, k + 1) == ChangeRound(TemplateChange(t, names, classes, k), names, classes, k)
  {
    assert AfterRound(t, names, classes, k) == RoundOn(t, names, classes, k);
  }

  /** The first `n` templates of `others`, one after the other. */
  function Appended(others: seq<string>, n: nat): string
    requires n <= |others|
  {
    if n == 0 then "" else Appended(others, n - 1) + others[n - 1]
  }

  /** Text without `<` has no tag to replace. */
  lemma ReplaceTagsPlain(s: string, name: string, ref: string)
    requires '<' !in s
    ensures ReplaceTags(s, name, ref) == s
  {
    ReplaceTagsSkips(s, "", name, ref);
    assert s + "" == s;
  }

  /** Without `<` in any template, ReplaceInOthers changes nothing. */
  lemma ReplaceInOthersPlain(others: seq<string>, classes: seq<string>, name: string, cls: string)
    requires |classes| == |others| && forall j :: 0 <= j < |others| ==> '<' !in others[j]
    ensures ReplaceInOthers(others, classes, name, cls) == others
  {
    ReplaceInOthersAt(others, classes, name, cls);
    forall j | 0 <= j < |others| {
      ReplaceTagsPlain(others[j], name, ContentRef(cls));
    }
  }

  /**
   * Without any tag in the templates, handleComponentsTemplateChange leaves the
   * components' templates alone and appends them, in the order visited, to the
   * component's own.
   */
  lemma {:induction false} TemplateChangeWithoutTags(t: Templates, names: seq<string>, classes: seq<string>, n: nat)
    requires |names| == |classes| == |t.others| && n <= |t.others|
    requires '<' !in t.own && forall j :: 0 <= j < |t.others| ==> '<' !in t.others[j]
    ensures TemplateChange(t, names, classes, n) == Templates(t.own + Appended(t.others, n), t.others)
  {
    if n == 0 {
      assert t.own + "" == t.own;
    } else {
      TemplateChangeWithoutTags(t, names, classes, n - 1);
      StepWithoutTags(t, names, classes, n);
    }
  }

  /** One more round over tag-free templates appends one more template. */
  lemma StepWithoutTags(t: Templates, names: seq<string>, classes: seq<string>, n: nat)
    requires |names| == |classes| == |t.others| && 0 < n <= |t.others|
    requires '<' !in t.own && forall j :: 0 <= j < |t.others| ==> '<' !in t.others[j]
    requires TemplateChange(t, names, classes, n - 1) == Templates(t.own + Appended(t.others, n - 1), t.others)
    ensures TemplateChange(t, names, classes, n) == Templates(t.own + Appended(t.others, n), t.others)
  {
    var k := n - 1;
    TemplateChangeNext(t, names, classes, k);
    var prev := Templates(t.own + Appended(t.others, k), t.others);
    AppendedPlain(t.others, k);
    RoundWithoutTags(prev, names, classes, k);
    AppendedStep(t.own, t.others, k);
  }

  lemma AppendedStep(own: string, others: seq<string>, k: nat)
    requires k < |others|
    ensures own + Appended(others, k + 1) == (own + Appended(others, k)) + others[k]
  {
  }

  /** A round over tag-free templates only appends the visited component's template. */
  lemma RoundWithoutTags(t: Templates, names: seq<string>, classes: seq<string>, k: nat)
    requires |names| == |classes| == |t.others| && k < |t.others|
    requires '<' !in t.own && forall j :: 0 <= j < |t.others| ==> '<' !in t.others[j]
    ensures ChangeRound(t, names, classes, k) == Templates(t.own + t.others[k], t.others)
  {
    ReplaceInOthersPlain(t.others, classes, names[k], classes[k]);
    ReplaceTagsPlain(t.own, names[k], ContentRef(classes[k]));
  }

  lemma {:induction false} AppendedPlain(others: seq<string>, n: nat)
    requires n <= |others| && forall j :: 0 <= j < |others| ==> '<' !in others[j]
    ensures '<' !in Appended(others, n)
  {
    if n > 0 {
      AppendedPlain(others, n - 1);
    }
  }

  /**
   * A component whose template is the self-closing tag of its only component,
   * `<Name/>`, gets the reference to that component's content in its place,
   * followed by that component's template.
   */
  lemma SelfClosingTagBecomesReference(name: string, cls: string, child: string)
    ensures TemplateChange(Templates(OpenTag(name) + "/>", [child]), [name], [cls], 1)
            == Templates(ContentRef(cls) + child, [child])
  {
    SelfClosingTagAlone(name, ContentRef(cls));
    SameClassKept(child, name, cls);
  }

  /** `<Name/>` alone becomes the reference. */
  lemma SelfClosingTagAlone(name: string, ref: string)
    ensures ReplaceTags(OpenTag(name) + "/>", name, ref) == ref
  {
    SelfClosingTagReplaced("", name, "", "", ref);
    assert "" + OpenTag(name) + "" + "/>" + "" == OpenTag(name) + "/>";
    assert "" + ref + ReplaceTags("", name, ref) == ref;
  }

  /** A component's own template is not rewritten for its own tag. */
  lemma SameClassKept(child: string, name: string, cls: string)
    ensures ReplaceInOthers([child], [cls], name, cls) == [child]
  {
    ReplaceInOthersAt([child], [cls], name, cls);
  }

  // ---------------------------------------------------------------------------
  // The component
  // ---------------------------------------------------------------------------

  class Component {
    var Name: string
    var WebComponentName: string
    var Path: string
    var Template: string
    var Styles: string
    var Script: string
    var Content: string
    var CustomClass: string
    var Raw: string
    var Components: map<string, Component>
    /** The components handleComponents registered, before the grandchildren were promoted. */
    ghost var Children: map<string, Component>

    /** `new(component)`: every field holds its zero value. */
    constructor ()
      ensures Name == "" && WebComponentName == "" && Path == "" && Template == ""
      ensures Styles == "" && Script == "" && Content == "" && CustomClass == "" && Raw == ""
      ensures Components == map[] && Children == map[]
    {
      Name := "";
      WebComponentName := "";
      Path := "";
      Template := "";
      Styles := "";
      Script := "";
      Content := "";
      CustomClass := "";
      Raw := "";
      Components := map[];
      Children := map[];
    }

    /** Every registered component is stored under its own path, and is not this component. */
    ghost predicate Keyed()
      reads this`Components, Components.Values`Path
    {
      UnderPaths(Components) && this !in Components.Values
    }

    /** `m` holds the templates of the components registered under the keys of `order`, in that order. */
    ghost predicate HoldsTemplates(order: seq<string>, m: seq<string>)
      reads this`Components, Components.Values`Template
    {
      |m| == |order| && forall j :: 0 <= j < |order| ==> order[j] in Components && Components[order[j]].Template == m[j]
    }

    /** `names` and `classes` hold the names and the classes of the components registered under the keys of `order`. */
    ghost predicate HoldsNames(order: seq<string>, names: seq<string>, classes: seq<string>)
      reads this`Components, Components.Values`Name, Components.Values`CustomClass
    {
      && |names| == |order| && |classes| == |order|
      && forall j :: 0 <= j < |order| ==>
           order[j] in Components && Components[order[j]].Name == names[j] && Components[order[j]].CustomClass == classes[j]
    }

    /**
     * handleComponentsTemplateChange, the map visited in `order`, for the
     * registered components whose templates, names and classes are, in that
     * order, `before`, `names` and `classes`: for each component, its tags in
     * this template and in the templates of the components of another class
     * become references to its content, and its own template is appended to
     * this one.
     */
    method HandleComponentsTemplateChange(order: seq<string>, ghost before: seq<string>,
                                          ghost names: seq<string>, ghost classes: seq<string>)
      requires Keyed() && IterationOrder(order, Components.Keys)
      requires HoldsTemplates(order, before) && HoldsNames(order, names, classes)
      modifies this`Template, Components.Values`Template
      ensures var r := TemplateChange(Templates(old(Template), before), names, classes, |order|);
              Template == r.own && HoldsTemplates(order, r.others)
    {
      ghost var t0 := Templates(Template, before);
      ghost var r := t0;
      var i := 0;
      while i < |order|
        invariant 0 <= i <= |order| && r == TemplateChange(t0, names, classes, i)
        invariant HoldsRound(order, r, names, classes)
      {
        r := ReplaceTagsOf(order, i, t0, r, names, classes);
        i := i + 1;
      }
    }

    /**
     * This template and the templates of the components registered under the
     * keys of `order` are those of `r`, and their names and classes are
     * `names` and `classes`.
     */
    ghost predicate HoldsRound(order: seq<string>, r: Templates, names: seq<string>, classes: seq<string>)
      reads this`Template, this`Components, Components.Values`Template, Components.Values`Name
      reads Components.Values`CustomClass
    {
      && HoldsNames(order, names, classes) && this !in Components.Values
      && Template == r.own && HoldsTemplates(order, r.others)
    }

    /**
     * Round `i` of the outer loop at component.go:169-181, for the component
     * under `order[i]`, after the first `i` rounds: `next` is the state once
     * it is over.
     */
    method ReplaceTagsOf(order: seq<string>, i: nat, ghost t0: Templates, ghost r: Templates,
                         ghost names: seq<string>, ghost classes: seq<string>)
      returns (ghost next: Templates)
      requires i < |order| && r == TemplateChange(t0, names, classes, i)
      requires HoldsRound(order, r, names, classes)
      modifies this`Template, Components.Values`Template
      ensures next == TemplateChange(t0, names, classes, i + 1)
      ensures HoldsRound(order, next, names, classes)
    {
      ReplaceTagsIn(order, i, r, names, classes);
      next := ChangeRound(r, names, classes, i);
      TemplateChangeNext(t0, names, classes, i);
    }

    /** The body of round `i` (see ChangeRound), from the templates `r`. */
    method ReplaceTagsIn(order: seq<string>, i: nat, ghost r: Templates, ghost names: seq<string>, ghost classes: seq<string>)
      requires i < |order| && HoldsRound(order, r, names, classes)
      modifies this`Template, Components.Values`Template
      ensures HoldsRound(order, ChangeRound(r, names, classes, i), names, classes)
    {
      var component := Components[order[i]];
      ghost var others := ReplaceInOthers(r.others, classes, names[i], classes[i]);
      ReplaceInOthersAt(r.others, classes, names[i], classes[i]);
      Template := ReplaceTags(Template, component.Name, ContentRef(component.CustomClass));
      label replaced:
      ReplaceInComponents(component.Name, component.CustomClass);
      forall j | 0 <= j < |order| ensures Components[order[j]].Template == others[j] {
        var c := Components[order[j]];
        assert old@replaced(c.Template) == r.others[j];
        assert c.CustomClass == classes[j];
      }
      Template := Template + component.Template;
    }

    /**
     * The inner loop at component.go:174-178, over the registered components in
     * any order: the tags `name` in the template of every component of a class
     * other than `cls` become references to the content of class `cls`.
     */
    method ReplaceInComponents(name: string, cls: string)
      modifies Components.Values`Template
      ensures forall c :: c in Components.Values ==>
                c.Template == (if c.CustomClass != cls then ReplaceTags(old(c.Template), name, ContentRef(cls)) else old(c.Template))
    {
      var left := Components.Values;
      while left != {}
        invariant left <= Components.Values
        invariant forall c :: c in Components.Values ==>
                    c.Template == (if c !in left && c.CustomClass != cls then ReplaceTags(old(c.Template), name, ContentRef(cls))
                                   else old(c.Template))
        decreases left
      {
        var cmptToReplace :| cmptToReplace in left;
        if cmptToReplace.CustomClass != cls {
          cmptToReplace.Template := ReplaceTags(cmptToReplace.Template, name, ContentRef(cls));
        }
        left := left - {cmptToReplace};
      }
    }

    /**
     * handleTemplateSectors: the script, the style and the markup, each the
     * trimmed text of its first block, taken in that order; the first missing
     * block stops the extraction with "no match found".
     */
    method HandleTemplateSectors() returns (err: Option<Error>)
      modifies this`Script, this`Styles, this`Content
      ensures err.None? <==> HasSections(Raw)
      ensures err.Some? ==> err.value == NoMatchFound
      ensures Script == if GetJavaScriptCode(Raw).Ok? then GetJavaScriptCode(Raw).value else old(Script)
      ensures Styles == if GetJavaScriptCode(Raw).Ok? && GetCSSCode(Raw).Ok? then GetCSSCode(Raw).value else old(Styles)
      ensures Content == if HasSections(Raw) then ComponentBlock(Raw).value else old(Content)
      ensures err.None? ==> Sectioned()
      ensures unchanged(this`Raw, this`Name, this`Path, this`WebComponentName, this`CustomClass)
    {
      var result := GetStringBetween(Raw, ScriptOpen, ScriptClose);
      if result.Err? {
        return Some(result.error);
      }
      Script := TrimSpace(result.value);
      assert Script == GetJavaScriptCode(Raw).value;

      result := GetStringBetween(Raw, StyleOpen, StyleClose);
      if result.Err? {
        return Some(result.error);
      }
      Styles := TrimSpace(result.value);
      assert Styles == GetCSSCode(Raw).value;

      result := GetStringBetween(Raw, ComponentOpen, ComponentClose);
      if result.Err? {
        return Some(result.error);
      }
      Content := TrimSpace(result.value);
      assert Content == ComponentBlock(Raw).value;
      return None;
    }

    /**
     * handleJavascript: the script with every import line blanked, trimmed,
     * inside the custom-element class named after WebComponentName.
     */
    method HandleJavascript() returns (js: string)
      ensures js == ElementScript(Script, WebComponentName)
    {
      var lines := Split(Script, '\n');
      var componentName := ToCamel(WebComponentName, map[]);
      var startWebComponent := ElementHeader(componentName);
      var endWebComponent := ElementFooter(WebComponentName, componentName);
      var cleanedLines := BlankImportLines(lines);
      js := startWebComponent + TrimSpace(Join(cleanedLines, '\n')) + endWebComponent;
    }

    /** parseTemplate: Template becomes the component's fragments. */
    method ParseTemplate()
      modifies this`Template
      ensures Template == TemplateOf(Script, Content, CustomClass, WebComponentName)
      ensures unchanged(this`Name, this`WebComponentName, this`Path, this`Styles, this`Script, this`Content)
      ensures unchanged(this`CustomClass, this`Raw, this`Components, this`Children)
    {
      var tmpl := "";
      if Script != "" {
        var js := HandleJavascript();
        var fragment := ScriptFragment(CustomClass, js);
        EmptyConcat(fragment);
        tmpl := tmpl + fragment;
      }
      if Content != "" {
        var fragment := ContentFragment(CustomClass, WebComponentName, Content, Script != "");
        tmpl := tmpl + fragment;
      } else {
        EmptyConcat(tmpl);
      }
      Template := tmpl;
    }

    /**
     * handleComponents: the components the script imports (see ScanImports),
     * stored as this component's map; the first failure is returned as it is
     * and leaves the map untouched. The script itself is not changed.
     */
    method HandleComponents(fs: FileSystem, rnd: Random, fuel: nat) returns (err: Option<Error>, ghost made: set<Component>)
      modifies this`Components, this`Children, rnd
      decreases fuel, 3
      ensures err.None? ==> Children == Components && Keyed()
      ensures err.None? ==> Registrations(Children, Registered(Split(Script, '\n'), |Split(Script, '\n')|, Path, fs.resolve))
      ensures err.None? ==> fresh(made) && Components.Values <= made && Nested(Components) <= made
      ensures err.None? ==> ChildrenUnderPaths(Components) && AllCompiled(Children, fs)
      ensures err.Some? ==> Components == old(Components) && Children == old(Children)
      ensures RegistersNothing(Split(Script, '\n'), Path, fs.resolve) ==> err.None?
      ensures unchanged(this`Name, this`WebComponentName, this`Path, this`Template, this`Styles)
      ensures unchanged(this`Script, this`Content, this`CustomClass, this`Raw)
    {
      var scriptLines := Split(Script, '\n');
      var cps;
      cps, err, made := ScanImports(scriptLines, Path, fs, rnd, fuel, RegistersNothing(scriptLines, Path, fs.resolve));
      if err.Some? {
        return;
      }
      assert this !in cps.Values && this !in Nested(cps);
      Adopt(cps, fs, Registered(scriptLines, |scriptLines|, Path, fs.resolve));
    }

    /**
     * Line 103 of handleComponents: the scanned map becomes this component's
     * map, and the record of its children.
     */
    method Adopt(cps: map<string, Component>, ghost fs: FileSystem, ghost reg: map<string, string>)
      requires this !in cps.Values && this !in Nested(cps)
      requires Registrations(cps, reg) && UnderPaths(cps) && ChildrenUnderPaths(cps) && AllCompiled(cps, fs)
      modifies this`Components, this`Children
      ensures Children == cps && Components == cps && Keyed()
      ensures Registrations(Children, reg) && ChildrenUnderPaths(Components) && AllCompiled(Children, fs)
      ensures unchanged(this`Name, this`WebComponentName, this`Path, this`Template, this`Styles)
      ensures unchanged(this`Script, this`Content, this`CustomClass, this`Raw)
    {
      ghost var compiled := AllCompiled(cps, fs);
      Components := cps;
      Children := cps;
      assert AllCompiled(cps, fs) == compiled;
    }

    /**
     * The promotion at component.go:59-63: every component of every child is
     * stored under its path in this component's map (see Promote).
     */
    method PromoteNested()
      requires Keyed() && this !in Nested(Components)
      requires ChildrenUnderPaths(Components)
      modifies this`Components
      ensures PromotedFrom(old(Components), Components)
      ensures Components.Values <= old(Components.Values + Nested(Components))
      ensures Keyed()
      ensures unchanged(this`Name, this`WebComponentName, this`Path, this`Template, this`Styles)
      ensures unchanged(this`Script, this`Content, this`CustomClass, this`Raw, this`Children)
    {
      var cps := Promote(Components, this);
      PromotedValues(Components, cps);
      Components := cps;
    }

    /**
     * What lines 37-52 of handleComponentGeneration leave behind on success, for
     * the file at `path` named `name`, its class drawn from `stream` starting
     * at draw `from`: the raw file, the names, the class and the three sections.
     */
    ghost predicate Loaded(path: string, name: string, fs: FileSystem, stream: nat -> nat, from: nat)
      reads this`Raw, this`Name, this`Path, this`WebComponentName, this`CustomClass
      reads this`Script, this`Styles, this`Content
    {
      && path in fs.files && Raw == fs.files[path]
      && Named(path, name, stream, from)
      && Sectioned()
    }

    /** The names and the class of the component at `path` named `name`. */
    ghost predicate Named(path: string, name: string, stream: nat -> nat, from: nat)
      reads this`Name, this`Path, this`WebComponentName, this`CustomClass
    {
      && Name == name && Path == path
      && WebComponentName == WebComponentNameOf(path)
      && CustomClass == ClassPrefix + Drawn(stream, from, ClassSuffixLength)
    }

    /** The file has its three sections, and the fields hold their trimmed text. */
    ghost predicate Sectioned()
      reads this`Raw, this`Script, this`Styles, this`Content
    {
      && HasSections(Raw)
      && Script == GetJavaScriptCode(Raw).value
      && Styles == GetCSSCode(Raw).value
      && Content == ComponentBlock(Raw).value
    }

    /**
     * The component holds the file stored at its path, compiled: its three
     * sections, its custom-element name and its template.
     */
    ghost predicate Compiled(fs: FileSystem)
      reads this`Raw, this`Path, this`WebComponentName, this`CustomClass
      reads this`Script, this`Styles, this`Content, this`Template
    {
      && Path in fs.files && Raw == fs.files[Path]
      && Sectioned()
      && WebComponentName == WebComponentNameOf(Path)
      && Template == TemplateOf(Script, Content, CustomClass, WebComponentName)
    }

    /**
     * What lines 54-65 leave behind on success: the children the script
     * imports, the promoted map, and the template.
     */
    ghost predicate Assembled(fs: FileSystem)
      reads this`Script, this`Path, this`Content, this`CustomClass, this`WebComponentName
      reads this`Template, this`Components, this`Children
      reads Components.Values`Path, Children.Values`Path, Children.Values`Name, Children.Values`Components
      reads Children.Values
    {
      && Registrations(Children, Registered(Split(Script, '\n'), |Split(Script, '\n')|, Path, fs.resolve))
      && PromotedFrom(Children, Components)
      && Keyed()
      && Template == TemplateOf(Script, Content, CustomClass, WebComponentName)
      && AllCompiled(Children, fs)
    }

    /** What handleComponentGeneration leaves behind on success. */
    ghost predicate Generated(path: string, name: string, fs: FileSystem, stream: nat -> nat, from: nat)
      reads this`Raw, this`Name, this`Path, this`WebComponentName, this`CustomClass
      reads this`Script, this`Styles, this`Content, this`Template, this`Components, this`Children
      reads Components.Values`Path, Children.Values`Path, Children.Values`Name, Children.Values`Components
      reads Children.Values
    {
      Loaded(path, name, fs, stream, from) && Assembled(fs)
    }

    /**
     * Lines 37-52 of handleComponentGeneration: read the file, name the
     * component, draw its class and extract the sections. An unreadable file
     * and a missing section stop it with that error.
     */
    method Load(path: string, name: string, fs: FileSystem, rnd: Random) returns (err: Option<Error>)
      modifies this`Raw, this`Name, this`WebComponentName, this`Path, this`CustomClass
      modifies this`Script, this`Styles, this`Content, rnd
      ensures path !in fs.files ==> err == Some(ReadFailed(path))
      ensures path in fs.files && !HasSections(fs.files[path]) ==> err == Some(NoMatchFound)
      ensures err.None? <==> path in fs.files && HasSections(fs.files[path])
      ensures err.None? ==> Loaded(path, name, fs, rnd.stream, old(rnd.drawn))
    {
      if path !in fs.files {
        return Some(ReadFailed(path));
      }
      Raw := fs.files[path];
      AssignNames(path, name, rnd);
      err := HandleTemplateSectors();
    }

    /**
     * Lines 42-47 of handleComponentGeneration: the name, the custom-element
     * name, the path, and the class with its eight random characters.
     */
    method AssignNames(path: string, name: string, rnd: Random)
      modifies this`Name, this`WebComponentName, this`Path, this`CustomClass, rnd
      ensures Named(path, name, rnd.stream, old(rnd.drawn))
      ensures rnd.drawn == old(rnd.drawn) + ClassSuffixLength
    {
      Name := name;
      // The intended name: the ".goo" suffix is removed (see WebComponentNameAsWritten).
      WebComponentName := WebComponentNameOf(path);
      Path := path;
      var suffix := GenerateCustomString(rnd, ClassSuffixLength);
      CustomClass := ClassPrefix + suffix;
    }

    /**
     * Lines 54-65 of handleComponentGeneration: create the imported components,
     * promote their own components, and build the template. A failing import
     * stops it with that error.
     */
    method Assemble(fs: FileSystem, rnd: Random, fuel: nat) returns (err: Option<Error>)
      modifies this`Components, this`Children, this`Template, rnd
      decreases fuel, 4
      ensures err.None? ==> Assembled(fs)
      ensures err.None? ==> fresh(Components.Values)
      ensures RegistersNothing(Split(Script, '\n'), Path, fs.resolve) ==> err.None?
      ensures unchanged(this`Raw, this`Name, this`Path, this`WebComponentName, this`CustomClass)
      ensures unchanged(this`Script, this`Styles, this`Content)
    {
      ghost var made;
      ghost var reg := Registered(Split(Script, '\n'), |Split(Script, '\n')|, Path, fs.resolve);
      err, made := HandleComponents(fs, rnd, fuel);
      if err.Some? {
        return;
      }
      assert Registrations(Children, reg);
      assert this !in Children.Values && AllCompiled(Children, fs);
      PromoteNested();
      assert Components.Values <= made;
      assert Registrations(Children, reg) && PromotedFrom(Children, Components) && Keyed();
      assert AllCompiled(Children, fs);
      ParseTemplate();
      assert AllCompiled(Children, fs);
    }

    /**
     * handleComponentGeneration: Load, then Assemble; the first error stops it.
     */
    method HandleComponentGeneration(path: string, name: string, fs: FileSystem, rnd: Random, fuel: nat) returns (err: Option<Error>)
      modifies this, rnd
      decreases fuel, 5
      ensures path !in fs.files ==> err == Some(ReadFailed(path))
      ensures path in fs.files && !HasSections(fs.files[path]) ==> err == Some(NoMatchFound)
      ensures err.None? ==> Generated(path, name, fs, rnd.stream, old(rnd.drawn))
      ensures err.None? ==> fresh(Components.Values)
      ensures SelfContained(path, fs) ==> err.None?
    {
      err := Load(path, name, fs, rnd);
      if err.Some? {
        return;
      }
      err := Assemble(fs, rnd, fuel);
    }

    /** New: this component, generated from the file at `path`, or the error that stopped it. */
    method New(path: string, name: string, fs: FileSystem, rnd: Random, fuel: nat) returns (r: Result<Component>)
      modifies this, rnd
      decreases fuel, 6
      ensures path !in fs.files ==> r == Err(ReadFailed(path))
      ensures path in fs.files && !HasSections(fs.files[path]) ==> r == Err(NoMatchFound)
      ensures r.Ok? ==> r.value == this && Generated(path, name, fs, rnd.stream, old(rnd.drawn))
      ensures r.Ok? ==> fresh(Components.Values)
      ensures SelfContained(path, fs) ==> r.Ok?
    {
      var err := HandleComponentGeneration(path, name, fs, rnd, fuel);
      if err.Some? {
        return Err(err.value);
      }
      return Ok(this);
    }
  }
}
