/**
 * main.go: the older page path. A page file is marked up into the named
 * fragments the template engine expects, its import lines are stripped, the
 * tags of the imported components become template references followed by the
 * components' own fragments, and the base layout gets its insertion points.
 * The routes are derived from where the `page.goo` files lie.
 */
module Pages {
  import opened Text
  import opened Helpers
  import opened Sections
  import opened Patterns
  import opened Components

  // ---------------------------------------------------------------------------
  // Routes
  // ---------------------------------------------------------------------------

  /** The name of a page file. */
  const PageFile: string := "page.goo"

  /** An entry that the walk over the application folder visits. */
  datatype Entry = Entry(path: string, name: string, isDir: bool)

  /**
   * What the walk guarantees of an entry below the application folder: its
   * path is the folder, a `/`, and a relative path that ends with the entry's
   * name.
   */
  predicate InFolder(appFolder: string, e: Entry) {
    && |appFolder| + 1 + |e.name| <= |e.path|
    && e.path[..|appFolder| + 1] == appFolder + "/"
    && e.path[|e.path| - |e.name|..] == e.name
  }

  /**
   * main.go:49-55: a file named `page.goo` gets the route `/` followed by the
   * directory part of its path relative to the application folder, without
   * the directory's final `/` unless the route is `/` itself. Any other entry
   * gets no route.
   */
  function Route(appFolder: string, e: Entry): (r: Option<string>)
    requires !e.isDir && e.name == PageFile ==> InFolder(appFolder, e)
    ensures r.Some? <==> !e.isDir && e.name == PageFile
    ensures r.Some? ==> |r.value| >= 1 && r.value[0] == '/'
  {
    if e.isDir || e.name != PageFile then None
    else
      var relativePath := e.path[|appFolder| + 1..];
      Some(WithoutFinalSlash("/" + relativePath[..|relativePath| - |e.name|]))
  }

  /** The path without its final `/`, unless it is the one-character path. */
  function WithoutFinalSlash(pagePath: string): string {
    if |pagePath| > 1 && pagePath[|pagePath| - 1..] == "/" then pagePath[..|pagePath| - 1] else pagePath
  }

  /** The route of the page file in directory `dir` (relative to the folder, with its final `/`). */
  lemma RouteOfDirectory(appFolder: string, dir: string)
    ensures var e := Entry(appFolder + "/" + dir + PageFile, PageFile, false);
            InFolder(appFolder, e) && Route(appFolder, e) == Some(WithoutFinalSlash("/" + dir))
  {
    var path := appFolder + "/" + dir + PageFile;
    assert path == (appFolder + "/") + (dir + PageFile);
    assert path[..|appFolder| + 1] == appFolder + "/";
    assert path[|path| - |PageFile|..] == PageFile;
    assert path[|appFolder| + 1..] == dir + PageFile;
    assert (dir + PageFile)[..|dir|] == dir;
  }

  /** The path of the page file that serves `route` under `appFolder`. */
  function PagePath(appFolder: string, route: string): string {
    if route == "/" then appFolder + "/" + PageFile else appFolder + route + "/" + PageFile
  }

  /** A route: `/`, or `/` and a path that does not end with `/`. */
  predicate IsRoute(route: string) {
    |route| >= 1 && route[0] == '/' && (|route| > 1 ==> route[|route| - 1] != '/')
  }

  /** The page file of a route gets that route back. */
  lemma RouteOfPagePath(appFolder: string, route: string)
    requires IsRoute(route)
    ensures var e := Entry(PagePath(appFolder, route), PageFile, false);
            InFolder(appFolder, e) && Route(appFolder, e) == Some(route)
  {
    if route == "/" {
      RouteOfDirectory(appFolder, "");
      assert appFolder + "/" + "" + PageFile == PagePath(appFolder, route);
      assert "/" + "" == route;
    } else {
      var dir := route[1..] + "/";
      RouteOfDirectory(appFolder, dir);
      DirectoryOfRoute(appFolder, route);
      FinalSlashDropped(route);
    }
  }

  /** A route other than `/` names the directory after its leading `/`. */
  lemma DirectoryOfRoute(appFolder: string, route: string)
    requires |route| >= 1 && route[0] == '/'
    ensures appFolder + "/" + (route[1..] + "/") + PageFile == appFolder + route + "/" + PageFile
    ensures "/" + (route[1..] + "/") == route + "/"
  {
    assert "/" + route[1..] == route;
  }

  /** Appending `/` to a path of at least one character and dropping it again gives the path back. */
  lemma FinalSlashDropped(route: string)
    requires |route| >= 1
    ensures WithoutFinalSlash(route + "/") == route
  {
    assert (route + "/")[|route|..] == "/";
    assert (route + "/")[..|route|] == route;
  }

  /**
   * A page file in a directory named without a doubled or leading `/` gets a
   * route, and the route leads back to the page file.
   */
  lemma PagePathOfRoute(appFolder: string, dir: string)
    requires dir == "" || (|dir| >= 2 && dir[|dir| - 1] == '/' && dir[|dir| - 2] != '/')
    ensures var e := Entry(appFolder + "/" + dir + PageFile, PageFile, false);
            && InFolder(appFolder, e)
            && Route(appFolder, e).Some?
            && IsRoute(Route(appFolder, e).value)
            && PagePath(appFolder, Route(appFolder, e).value) == e.path
  {
    RouteOfDirectory(appFolder, dir);
    if dir != "" {
      var route := "/" + dir[..|dir| - 1];
      assert ("/" + dir)[..|dir|] == route;
      assert route[|route| - 1] == dir[|dir| - 2];
      assert appFolder + route + "/" + PageFile == appFolder + "/" + dir + PageFile;
    }
  }

  /** The page file at the root of the application folder serves `/`. */
  lemma RootRoute()
    ensures Route("app", Entry("app/page.goo", PageFile, false)) == Some("/")
  {
    RouteOfDirectory("app", "");
    assert "app" + "/" + "" == "app/";
    assert "app/" + PageFile == "app/page.goo";
    assert "/" + "" == "/";
  }

  /** The page file of a nested directory serves its path, without the final `/`. */
  lemma NestedRoute()
    ensures Route("app", Entry("app/a/b/page.goo", PageFile, false)) == Some("/a/b")
  {
    RouteOfDirectory("app", "a/b/");
    assert "app" + "/" + "a/b/" == "app/a/b/";
    assert "app/a/b/" + PageFile == "app/a/b/page.goo";
    assert "/" + "a/b/" == "/a/b/";
    assert "/a/b/"[4..] == "/";
    assert "/a/b/"[..4] == "/a/b";
  }

  // ---------------------------------------------------------------------------
  // Marking up a page or component file
  // ---------------------------------------------------------------------------

  /** The markers put around the sections. */
  const JsDefine: string := "{{define \"js\"}}\n"
  const ContentDefine: string := "\n{{define \"content\"}}\n"
  const EndAfter: string := "\n{{end}}\n"
  const EndBefore: string := "{{end}}\n"
  const CssDefine: string := "{{define \"css\"}}\n"
  const EndMarker: string := "{{end}}"

  /** The fixed part of the base-template marker `{{template "base" .}}`, whose `.` is a wildcard. */
  const BaseMarkerHead: string := "{{template \"base\" "
  const BaseMarkerTail: string := "}}"
  const BaseRef: string := "{{template \"base\" .}}"

  /** The start of the named fragment of a component in the page path. */
  function ComponentDefine(name: string): string {
    "{{define \"components/" + name + "\"}}\n"
  }

  /** Whether the literal pattern `p` matches somewhere in `s` (`MatchString`). */
  predicate Contains(s: string, p: string) {
    IndexFrom(s, p, 0).Some?
  }

  /**
   * The regular expression `{{template "base" .}}` matches at `i`: its `.`
   * stands for any character but a newline.
   */
  predicate BaseMarkerAt(s: string, i: nat) {
    && OccursAt(s, BaseMarkerHead, i)
    && i + |BaseMarkerHead| < |s| && s[i + |BaseMarkerHead|] != '\n'
    && OccursAt(s, BaseMarkerTail, i + |BaseMarkerHead| + 1)
  }

  /** The length of a match of the base-template marker. */
  const BaseMarkerLength: nat := |BaseMarkerHead| + 1 + |BaseMarkerTail|

  /**
   * main.go:182: every match of the base-template marker, from left to right,
   * becomes the marker followed by the opening of the content fragment.
   */
  function OpenContentAfterBase(s: string): string
    decreases |s|
  {
    if s == "" then ""
    else if BaseMarkerAt(s, 0) then BaseRef + ContentDefine + OpenContentAfterBase(s[BaseMarkerLength..])
    else [s[0]] + OpenContentAfterBase(s[1..])
  }

  /**
   * main.go:177-180 and 204-207: with a `<script>`, the script opens the `js`
   * fragment, and each `</script>` is followed by `define` (the opening of the
   * markup fragment) and then, by a second pass, by the close of a fragment.
   */
  function MarkScript(t: string, define: string): string {
    var t1 := ReplaceAll(t, ScriptOpen, JsDefine + ScriptOpen);
    var t2 := ReplaceAll(t1, ScriptClose, ScriptClose + define);
    ReplaceAll(t2, ScriptClose, ScriptClose + EndAfter)
  }

  /**
   * main.go:185-191 and 212-218: with a `<style>`, each `<style>` closes the
   * fragment before it and opens the `css` fragment, and each `</style>` closes
   * it; without one, `{{end}}` closes the last fragment.
   */
  function MarkStyle(t: string): string {
    if Contains(t, StyleOpen) then
      var t1 := ReplaceAll(t, StyleOpen, EndBefore + StyleOpen);
      var t2 := ReplaceAll(t1, StyleOpen, CssDefine + StyleOpen);
      ReplaceAll(t2, StyleClose, StyleClose + EndAfter)
    else t + EndMarker
  }

  /** parsePageTemplate on the contents of a page file (main.go:175-193). */
  function ParsePageTemplate(tmpl: string): string {
    var marked := if Contains(tmpl, ScriptOpen) then MarkScript(tmpl, ContentDefine) else OpenContentAfterBase(tmpl);
    MarkStyle(marked)
  }

  /** parseComponentTemplate on the contents of a component file (main.go:202-222). */
  function ParseComponentTemplate(tmpl: string, name: string): string {
    var marked := if Contains(tmpl, ScriptOpen) then MarkScript(tmpl, "\n" + ComponentDefine(name))
                  else ComponentDefine(name) + tmpl;
    MarkStyle(marked)
  }

  /**
   * The script markers in one pass: the `js` fragment opens before each
   * `<script>`, and each `</script>` is followed by the close of that fragment
   * and then by `define`.
   */
  lemma MarkScriptInOnePass(t: string, define: string)
    requires '<' !in define
    ensures MarkScript(t, define)
            == ReplaceAll(ReplaceAll(t, ScriptOpen, JsDefine + ScriptOpen), ScriptClose, ScriptClose + EndAfter + define)
  {
    var t1 := ReplaceAll(t, ScriptOpen, JsDefine + ScriptOpen);
    ReplaceAllAfterTwice(t1, ScriptClose, define, EndAfter);
  }

  /**
   * The style markers in one pass: each `<style>` is preceded by the close of
   * the fragment before it and the opening of the `css` fragment, and each
   * `</style>` is followed by the close of the `css` fragment.
   */
  lemma MarkStyleInOnePass(t: string)
    requires Contains(t, StyleOpen)
    ensures MarkStyle(t)
            == ReplaceAll(ReplaceAll(t, StyleOpen, EndBefore + CssDefine + StyleOpen), StyleClose, StyleClose + EndAfter)
  {
    ReplaceAllBeforeTwice(t, StyleOpen, EndBefore, CssDefine);
  }

  /** Without a `<style>`, the style markers only close the last fragment. */
  lemma MarkStyleWithoutStyle(t: string)
    requires '<' !in t
    ensures MarkStyle(t) == t + EndMarker
  {
    NoTagNoMatch(t, StyleOpen);
  }

  /** A text without `<` holds no pattern that starts with `<`. */
  lemma NoTagNoMatch(t: string, p: string)
    requires '<' !in t && p != "" && p[0] == '<'
    ensures !Contains(t, p)
  {
  }

  /** Text without `{` has no base-template marker to open the content after. */
  lemma {:induction false} OpenContentPlain(s: string)
    requires '{' !in s
    ensures OpenContentAfterBase(s) == s
    decreases |s|
  {
    if s != "" {
      assert s[0] != BaseMarkerHead[0];
      assert '{' !in s[1..] by { assert forall c :: c in s[1..] ==> c in s; }
      OpenContentPlain(s[1..]);
      assert [s[0]] + s[1..] == s;
    }
  }

  /**
   * A page file without `<script>` that starts with the base-template marker
   * gets the content fragment opened right after it; the `{`-free rest is kept.
   */
  lemma OpenContentAfterLeadingBase(rest: string)
    requires '{' !in rest
    ensures OpenContentAfterBase(BaseRef + rest) == BaseRef + ContentDefine + rest
  {
    var s := BaseRef + rest;
    assert s[..|BaseMarkerHead|] == BaseMarkerHead;
    assert s[|BaseMarkerHead| + 1..BaseMarkerLength] == BaseMarkerTail;
    assert BaseMarkerAt(s, 0);
    assert s[BaseMarkerLength..] == rest;
    OpenContentPlain(rest);
  }

  /**
   * A page file with neither `<script>` nor `<style>`, and no marker: it is only
   * closed with `{{end}}` (no content fragment is opened).
   */
  lemma PlainPage(tmpl: string)
    requires '<' !in tmpl && '{' !in tmpl
    ensures ParsePageTemplate(tmpl) == tmpl + EndMarker
  {
    NoTagNoMatch(tmpl, ScriptOpen);
    OpenContentPlain(tmpl);
    MarkStyleWithoutStyle(tmpl);
  }

  /** A component file without `<script>` and `<style>`: its named fragment holds the whole file. */
  lemma PlainComponent(tmpl: string, name: string)
    requires '<' !in tmpl && '<' !in name
    ensures ParseComponentTemplate(tmpl, name) == ComponentDefine(name) + tmpl + EndMarker
  {
    NoTagNoMatch(tmpl, ScriptOpen);
    var t := ComponentDefine(name) + tmpl;
    assert '<' !in t by {
      assert forall c :: c in t ==> c in ComponentDefine(name) || c in tmpl;
    }
    MarkStyleWithoutStyle(t);
  }

  /**
   * A file made of a script, markup and a style: tag-free text `a`, the
   * script with body `b`, markup `c`, the style with body `d`, and text `e`.
   */
  function Layout(a: string, b: string, c: string, d: string, e: string): string {
    a + (ScriptOpen + (b + (ScriptClose + (c + (StyleOpen + (d + (StyleClose + e)))))))
  }

  /** None of the five pieces holds a tag. */
  predicate TagFree(a: string, b: string, c: string, d: string, e: string) {
    '<' !in a && '<' !in b && '<' !in c && '<' !in d && '<' !in e
  }

  /** The four section tags start with `<`, hold no other `<`, and differ from each other early on. */
  lemma SectionTags()
    ensures ScriptOpen[0] == '<' && ScriptOpen[1] == 's' && ScriptOpen[2] == 'c' && '<' !in ScriptOpen[1..]
    ensures ScriptClose[0] == '<' && ScriptClose[1] == '/' && ScriptClose[3] == 'c' && '<' !in ScriptClose[1..]
    ensures StyleOpen[0] == '<' && StyleOpen[1] == 's' && StyleOpen[2] == 't' && '<' !in StyleOpen[1..]
    ensures StyleClose[0] == '<' && StyleClose[1] == '/' && StyleClose[3] == 't' && '<' !in StyleClose[1..]
  {
  }

  /** Replacing `<script>` touches the one script opening only. */
  lemma ScriptOpenPass(a: string, b: string, c: string, d: string, e: string, m: string)
    requires TagFree(a, b, c, d, e)
    ensures ReplaceAll(Layout(a, b, c, d, e), ScriptOpen, m + ScriptOpen) == Layout(a + m, b, c, d, e)
  {
    SectionTags();
    var r := m + ScriptOpen;
    var y3 := StyleClose + e;
    var y2 := StyleOpen + (d + y3);
    var y1 := ScriptClose + (c + y2);
    ReplaceAllSkips(e, "", ScriptOpen, r);
    assert e + "" == e;
    ReplaceAllPast(d, StyleClose, e, ScriptOpen, r, 1);
    ReplaceAllPast(c, StyleOpen, d + y3, ScriptOpen, r, 2);
    ReplaceAllPast(b, ScriptClose, c + y2, ScriptOpen, r, 1);
    ReplaceAllHere(a, b + y1, ScriptOpen, r);
    Associative(m, ScriptOpen, b + y1);
    Associative(a, m, ScriptOpen + (b + y1));
  }

  /** Replacing `</script>` touches the one script closing only. */
  lemma ScriptClosePass(a: string, b: string, c: string, d: string, e: string, m: string)
    requires TagFree(a, b, c, d, e)
    ensures ReplaceAll(Layout(a, b, c, d, e), ScriptClose, ScriptClose + m) == Layout(a, b, m + c, d, e)
  {
    SectionTags();
    var r := ScriptClose + m;
    var y3 := StyleClose + e;
    var y2 := StyleOpen + (d + y3);
    var y1 := ScriptClose + (c + y2);
    ReplaceAllSkips(e, "", ScriptClose, r);
    assert e + "" == e;
    ReplaceAllPast(d, StyleClose, e, ScriptClose, r, 3);
    ReplaceAllPast(c, StyleOpen, d + y3, ScriptClose, r, 1);
    ReplaceAllHere(b, c + y2, ScriptClose, r);
    Associative(ScriptClose, m, c + y2);
    Associative(m, c, y2);
    ReplaceAllPast(a, ScriptOpen, b + y1, ScriptClose, r, 1);
  }

  /** Replacing `<style>` touches the one style opening only. */
  lemma StyleOpenPass(a: string, b: string, c: string, d: string, e: string, m: string)
    requires TagFree(a, b, c, d, e)
    ensures ReplaceAll(Layout(a, b, c, d, e), StyleOpen, m + StyleOpen) == Layout(a, b, c + m, d, e)
  {
    SectionTags();
    var r := m + StyleOpen;
    var y3 := StyleClose + e;
    var y2 := StyleOpen + (d + y3);
    var y1 := ScriptClose + (c + y2);
    ReplaceAllSkips(e, "", StyleOpen, r);
    assert e + "" == e;
    ReplaceAllPast(d, StyleClose, e, StyleOpen, r, 1);
    ReplaceAllHere(c, d + y3, StyleOpen, r);
    Associative(m, StyleOpen, d + y3);
    Associative(c, m, StyleOpen + (d + y3));
    ReplaceAllPast(b, ScriptClose, c + y2, StyleOpen, r, 1);
    ReplaceAllPast(a, ScriptOpen, b + y1, StyleOpen, r, 2);
  }

  /** Replacing `</style>` touches the one style closing only. */
  lemma StyleClosePass(a: string, b: string, c: string, d: string, e: string, m: string)
    requires TagFree(a, b, c, d, e)
    ensures ReplaceAll(Layout(a, b, c, d, e), StyleClose, StyleClose + m) == Layout(a, b, c, d, m + e)
  {
    SectionTags();
    var r := StyleClose + m;
    var y3 := StyleClose + e;
    var y2 := StyleOpen + (d + y3);
    var y1 := ScriptClose + (c + y2);
    ReplaceAllSkips(e, "", StyleClose, r);
    assert e + "" == e;
    ReplaceAllHere(d, e, StyleClose, r);
    Associative(StyleClose, m, e);
    ReplaceAllPast(c, StyleOpen, d + y3, StyleClose, r, 1);
    ReplaceAllPast(b, ScriptClose, c + y2, StyleClose, r, 3);
    ReplaceAllPast(a, ScriptOpen, b + y1, StyleClose, r, 1);
  }

  /** A pattern found in a text is found after any prefix. */
  lemma ContainsAfter(x: string, s: string, p: string)
    requires Contains(s, p)
    ensures Contains(x + s, p)
  {
    var i := IndexFrom(s, p, 0).value;
    assert (x + s)[|x| + i..|x| + i + |p|] == s[i..i + |p|];
    assert OccursAt(x + s, p, |x| + i);
  }

  /** A text that starts with `p` contains it. */
  lemma ContainsFirst(p: string, y: string)
    ensures Contains(p + y, p)
  {
    assert (p + y)[..|p|] == p;
    assert OccursAt(p + y, p, 0);
  }

  /** The layout holds a script and a style. */
  lemma LayoutContains(a: string, b: string, c: string, d: string, e: string)
    ensures Contains(Layout(a, b, c, d, e), ScriptOpen) && Contains(Layout(a, b, c, d, e), StyleOpen)
  {
    var y3 := StyleClose + e;
    var y2 := StyleOpen + (d + y3);
    var y1 := ScriptClose + (c + y2);
    ContainsFirst(ScriptOpen, b + y1);
    ContainsAfter(a, ScriptOpen + (b + y1), ScriptOpen);
    ContainsFirst(StyleOpen, d + y3);
    ContainsAfter(c, y2, StyleOpen);
    ContainsAfter(ScriptClose, c + y2, StyleOpen);
    ContainsAfter(b, y1, StyleOpen);
    ContainsAfter(ScriptOpen, b + y1, StyleOpen);
    ContainsAfter(a, ScriptOpen + (b + y1), StyleOpen);
  }

  /** The markers hold no tag. */
  lemma MarkersPlain()
    ensures '<' !in JsDefine && '<' !in ContentDefine && '<' !in EndAfter && '<' !in EndBefore && '<' !in CssDefine
  {
  }

  /**
   * A file with a script, then markup, then a style is cut into three closed
   * fragments: the `js` fragment holding the script, the fragment `define`
   * opens holding the markup, and the `css` fragment holding the style.
   */
  lemma MarkedSections(a: string, b: string, c: string, d: string, e: string, define: string)
    requires TagFree(a, b, c, d, e) && '<' !in define
    ensures MarkStyle(MarkScript(Layout(a, b, c, d, e), define))
            == Layout(a + JsDefine, b, EndAfter + define + c + EndBefore + CssDefine, d, EndAfter + e)
  {
    MarkersPlain();
    var t := Layout(a, b, c, d, e);
    MarkScriptInOnePass(t, define);
    ScriptOpenPass(a, b, c, d, e, JsDefine);
    Associative(ScriptClose, EndAfter, define);
    ScriptClosePass(a + JsDefine, b, c, d, e, EndAfter + define);
    var c1 := EndAfter + define + c;
    var t1 := Layout(a + JsDefine, b, c1, d, e);
    LayoutContains(a + JsDefine, b, c1, d, e);
    MarkStyleInOnePass(t1);
    StyleOpenPass(a + JsDefine, b, c1, d, e, EndBefore + CssDefine);
    Associative(c1, EndBefore, CssDefine);
    StyleClosePass(a + JsDefine, b, c1 + EndBefore + CssDefine, d, e, EndAfter);
  }

  /** parsePageTemplate on a page with a script, markup and a style: the `js`, `content` and `css` fragments. */
  lemma PageSections(a: string, b: string, c: string, d: string, e: string)
    requires TagFree(a, b, c, d, e)
    ensures ParsePageTemplate(Layout(a, b, c, d, e))
            == Layout(a + JsDefine, b, EndAfter + ContentDefine + c + EndBefore + CssDefine, d, EndAfter + e)
  {
    LayoutContains(a, b, c, d, e);
    MarkersPlain();
    MarkedSections(a, b, c, d, e, ContentDefine);
  }

  /** parseComponentTemplate on such a file: the `js`, `components/<name>` and `css` fragments. */
  lemma ComponentSections(a: string, b: string, c: string, d: string, e: string, name: string)
    requires TagFree(a, b, c, d, e) && '<' !in name
    ensures var define := "\n" + ComponentDefine(name);
            ParseComponentTemplate(Layout(a, b, c, d, e), name)
            == Layout(a + JsDefine, b, EndAfter + define + c + EndBefore + CssDefine, d, EndAfter + e)
  {
    LayoutContains(a, b, c, d, e);
    ComponentDefinePlain(name);
    MarkedSections(a, b, c, d, e, "\n" + ComponentDefine(name));
  }

  /** The opening of a component's fragment holds a tag only if its name does. */
  lemma ComponentDefinePlain(name: string)
    requires '<' !in name
    ensures '<' !in "\n" + ComponentDefine(name)
  {
  }

  // ---------------------------------------------------------------------------
  // The base layout
  // ---------------------------------------------------------------------------

  const BaseDefine: string := "{{define \"base\"}}\n"
  const EndLine: string := "{{end}}\n"
  const HeadClose: string := "</head>"
  const BodyOpen: string := "<body>"
  const BodyClose: string := "</body>"
  const HtmlClose: string := "</html>"
  const CssBlock: string := "{{block \"css\" .}}\n{{end}}\n"
  const ContentBlock: string := "\n{{block \"content\" .}}\n{{end}}\n"
  const JsBlock: string := "{{block \"js\" .}}\n{{end}}\n"

  /**
   * generateBaseTemplate on the contents of the layout file (main.go:231-239):
   * the layout inside the `base` fragment, the `css` block before each
   * `</head>`, the `content` block after each `<body>`, and each `</body>`
   * replaced by the `js` block followed by `</html>`.
   */
  function GenerateBaseTemplate(layout: string): string {
    var tmpl := BaseDefine + layout + EndLine;
    var t1 := ReplaceAll(tmpl, HeadClose, CssBlock + HeadClose);
    var t2 := ReplaceAll(t1, BodyOpen, BodyOpen + ContentBlock);
    ReplaceAll(t2, BodyClose, JsBlock + HtmlClose)
  }

  /** The three insertions, applied to the layout and its closing line only. */
  function InsertionPoints(s: string): string {
    ReplaceAll(ReplaceAll(ReplaceAll(s, HeadClose, CssBlock + HeadClose), BodyOpen, BodyOpen + ContentBlock),
               BodyClose, JsBlock + HtmlClose)
  }

  /** The base template always starts with the opening of the `base` fragment, untouched by the insertions. */
  lemma BaseTemplateOpensBase(layout: string)
    ensures GenerateBaseTemplate(layout) == BaseDefine + InsertionPoints(layout + EndLine)
  {
    var rest := layout + EndLine;
    assert BaseDefine + layout + EndLine == BaseDefine + rest;
    ReplaceAllSkips(BaseDefine, rest, HeadClose, CssBlock + HeadClose);
    var t1 := ReplaceAll(rest, HeadClose, CssBlock + HeadClose);
    ReplaceAllSkips(BaseDefine, t1, BodyOpen, BodyOpen + ContentBlock);
    var t2 := ReplaceAll(t1, BodyOpen, BodyOpen + ContentBlock);
    ReplaceAllSkips(BaseDefine, t2, BodyClose, JsBlock + HtmlClose);
  }

  /** A layout without any tag is wrapped in the `base` fragment as it is. */
  lemma BaseTemplateOfPlainLayout(layout: string)
    requires '<' !in layout
    ensures GenerateBaseTemplate(layout) == BaseDefine + layout + EndLine
  {
    var s := BaseDefine + layout + EndLine;
    assert '<' !in s by {
      assert forall c :: c in s ==> c in BaseDefine || c in layout || c in EndLine;
    }
    ReplaceAllSkips(s, "", HeadClose, CssBlock + HeadClose);
    assert s + "" == s;
    ReplaceAllSkips(s, "", BodyOpen, BodyOpen + ContentBlock);
    ReplaceAllSkips(s, "", BodyClose, JsBlock + HtmlClose);
  }

  /** A layout with one `</head>`, then one `<body>`, then one `</body>`, and no other tag. */
  function BaseLayout(a: string, b: string, c: string, d: string): string {
    a + (HeadClose + (b + (BodyOpen + (c + (BodyClose + d)))))
  }

  /** The three layout tags start with `<`, hold no other `<`, and differ from each other early on. */
  lemma LayoutTags()
    ensures HeadClose[0] == '<' && HeadClose[1] == '/' && HeadClose[2] == 'h' && '<' !in HeadClose[1..]
    ensures BodyOpen[0] == '<' && BodyOpen[1] == 'b' && '<' !in BodyOpen[1..]
    ensures BodyClose[0] == '<' && BodyClose[1] == '/' && BodyClose[2] == 'b' && '<' !in BodyClose[1..]
  {
  }

  /** The inserted blocks hold no tag. */
  lemma BlocksPlain()
    ensures '<' !in CssBlock && '<' !in ContentBlock && '<' !in JsBlock && '<' !in EndLine
  {
  }

  /** A layout written as one concatenation, followed by its closing line, has the nested shape. */
  lemma LayoutRegrouped<T>(a: seq<T>, h: seq<T>, b: seq<T>, o: seq<T>, c: seq<T>, k: seq<T>, d: seq<T>, e: seq<T>)
    ensures a + h + b + o + c + k + d + e == a + (h + (b + (o + (c + (k + (d + e))))))
  {
  }

  /** The nested shape of the base template, written as one concatenation. */
  lemma BaseTemplateRegrouped<T>(x: seq<T>, a: seq<T>, s: seq<T>, h: seq<T>, b: seq<T>, o: seq<T>,
                                 n: seq<T>, c: seq<T>, j: seq<T>, l: seq<T>, d: seq<T>, e: seq<T>)
    ensures x + ((a + s) + (h + (b + (o + ((n + c) + (j + (l + (d + e))))))))
         == x + a + s + h + b + o + n + c + j + l + d + e
  {
  }

  /** Replacing `</head>` puts the `css` block before the one `</head>` only. */
  lemma HeadClosePass(a: string, b: string, c: string, d: string)
    requires '<' !in a && '<' !in b && '<' !in c && '<' !in d
    ensures ReplaceAll(BaseLayout(a, b, c, d), HeadClose, CssBlock + HeadClose) == BaseLayout(a + CssBlock, b, c, d)
  {
    LayoutTags();
    BlocksPlain();
    var r := CssBlock + HeadClose;
    var y2 := BodyClose + d;
    var y1 := BodyOpen + (c + y2);
    ReplaceAllSkips(d, "", HeadClose, r);
    assert d + "" == d;
    ReplaceAllPast(c, BodyClose, d, HeadClose, r, 2);
    ReplaceAllPast(b, BodyOpen, c + y2, HeadClose, r, 1);
    ReplaceAllHere(a, b + y1, HeadClose, r);
    Associative(CssBlock, HeadClose, b + y1);
    Associative(a, CssBlock, HeadClose + (b + y1));
  }

  /** Replacing `<body>` puts the `content` block after the one `<body>` only. */
  lemma BodyOpenPass(a: string, b: string, c: string, d: string)
    requires '<' !in a && '<' !in b && '<' !in c && '<' !in d
    ensures ReplaceAll(BaseLayout(a, b, c, d), BodyOpen, BodyOpen + ContentBlock) == BaseLayout(a, b, ContentBlock + c, d)
  {
    LayoutTags();
    BlocksPlain();
    var r := BodyOpen + ContentBlock;
    var y2 := BodyClose + d;
    var y1 := BodyOpen + (c + y2);
    ReplaceAllSkips(d, "", BodyOpen, r);
    assert d + "" == d;
    ReplaceAllPast(c, BodyClose, d, BodyOpen, r, 1);
    ReplaceAllHere(b, c + y2, BodyOpen, r);
    Associative(BodyOpen, ContentBlock, c + y2);
    Associative(ContentBlock, c, y2);
    ReplaceAllPast(a, HeadClose, b + y1, BodyOpen, r, 1);
  }

  /** Replacing `</body>` turns the one `</body>` into the `js` block and `</html>`. */
  lemma BodyClosePass(a: string, b: string, c: string, d: string)
    requires '<' !in a && '<' !in b && '<' !in c && '<' !in d
    ensures ReplaceAll(BaseLayout(a, b, c, d), BodyClose, JsBlock + HtmlClose)
            == a + (HeadClose + (b + (BodyOpen + (c + (JsBlock + (HtmlClose + d))))))
  {
    LayoutTags();
    BlocksPlain();
    var r := JsBlock + HtmlClose;
    var y2 := BodyClose + d;
    var y1 := BodyOpen + (c + y2);
    ReplaceAllSkips(d, "", BodyClose, r);
    assert d + "" == d;
    ReplaceAllHere(c, d, BodyClose, r);
    Associative(JsBlock, HtmlClose, d);
    ReplaceAllPast(b, BodyOpen, c + y2, BodyClose, r, 1);
    ReplaceAllPast(a, HeadClose, b + y1, BodyClose, r, 2);
  }

  /**
   * generateBaseTemplate on a layout with a head closing, a body opening and a
   * body closing: the `css` block before `</head>`, the `content` block after
   * `<body>`, and `</body>` replaced by the `js` block and `</html>`, so the
   * body closing tag itself is gone.
   */
  lemma BaseTemplateSections(a: string, b: string, c: string, d: string)
    requires '<' !in a && '<' !in b && '<' !in c && '<' !in d
    ensures GenerateBaseTemplate(a + HeadClose + b + BodyOpen + c + BodyClose + d)
            == BaseDefine + a + CssBlock + HeadClose + b + BodyOpen + ContentBlock + c + JsBlock + HtmlClose + d + EndLine
  {
    BlocksPlain();
    var layout := a + HeadClose + b + BodyOpen + c + BodyClose + d;
    var d' := d + EndLine;
    LayoutRegrouped(a, HeadClose, b, BodyOpen, c, BodyClose, d, EndLine);
    BaseTemplateOpensBase(layout);
    HeadClosePass(a, b, c, d');
    BodyOpenPass(a + CssBlock, b, c, d');
    BodyClosePass(a + CssBlock, b, ContentBlock + c, d');
    BaseTemplateRegrouped(BaseDefine, a, CssBlock, HeadClose, b, BodyOpen, ContentBlock, c, JsBlock, HtmlClose, d, EndLine);
  }

  // ---------------------------------------------------------------------------
  // Assembling a page
  // ---------------------------------------------------------------------------

  /** A component file a page imports, with the names it imports from it. */
  datatype Import = Import(path: string, names: seq<string>)

  /** A parsed page: its template and the components it imports. */
  datatype Page = Page(template: string, components: seq<Import>)

  /** The first line of every page template. */
  const PageBase: string := "{{template \"base\" .}}\n"

  /** The reference that replaces every tag of component `name`. */
  function ComponentRef(name: string): string {
    "{{template \"components/" + name + "\" .}}"
  }

  /**
   * main.go:113-130: an import line with at least one component name registers
   * the imported file, resolved against the page's directory, and its names.
   */
  function ImportOf(line: string, pagePath: string, resolve: (string, string) -> string): Option<Import> {
    match ImportPath(line)
    case None => None
    case Some(path) =>
      var names := ComponentNames(line);
      if names == [] then None else Some(Import(resolve(pagePath, path), names))
  }

  /** main.go:131-133: the lines that are not import lines, in their order. */
  function KeptLines(lines: seq<string>): seq<string>
    decreases |lines|
  {
    if lines == [] then []
    else
      var line := lines[|lines| - 1];
      KeptLines(lines[..|lines| - 1]) + (if ImportPath(line).Some? then [] else [line])
  }

  /** main.go:113-130: the imports the lines register, in their order. */
  function PageImports(lines: seq<string>, pagePath: string, resolve: (string, string) -> string): seq<Import>
    decreases |lines|
  {
    if lines == [] then []
    else
      var more := match ImportOf(lines[|lines| - 1], pagePath, resolve) case None => [] case Some(imp) => [imp];
      PageImports(lines[..|lines| - 1], pagePath, resolve) + more
  }

  /** The uses of one component file: its path with each of its names, in order. */
  function NameUses(path: string, names: seq<string>): seq<(string, string)>
    decreases |names|
  {
    if names == [] then [] else NameUses(path, names[..|names| - 1]) + [(path, names[|names| - 1])]
  }

  /** main.go:139-143: every (path, name) pair the nested loops visit, in order. */
  function Uses(imports: seq<Import>): seq<(string, string)>
    decreases |imports|
  {
    if imports == [] then []
    else Uses(imports[..|imports| - 1]) + NameUses(imports[|imports| - 1].path, imports[|imports| - 1].names)
  }

  /**
   * main.go:144-164, one use: the component file is read and marked up (a read
   * failure is the error), every tag of `name` becomes a reference to the
   * component's fragment, and the fragment is appended.
   */
  function Include(template: string, files: map<string, string>, use: (string, string)): Result<string> {
    var (path, name) := use;
    if path !in files then Err(ReadFailed(path))
    else Ok(ReplaceTags(template, name, ComponentRef(name)) + ParseComponentTemplate(files[path], name))
  }

  /** The uses applied one after the other; the first failure ends the page. */
  function Expand(template: string, files: map<string, string>, uses: seq<(string, string)>): Result<string>
    decreases |uses|, 3
  {
    if uses == [] then Ok(template) else AfterLastUse(template, files, uses)
  }

  /**
   * AfterLastUse and LastUseOn are one definition in two steps, so that naming
   * a sequence of uses does not by itself unfold the text replacement of its
   * last use.
   */
  function AfterLastUse(template: string, files: map<string, string>, uses: seq<(string, string)>): Result<string>
    requires uses != []
    decreases |uses|, 2
  {
    LastUseOn(template, files, uses)
  }

  function LastUseOn(template: string, files: map<string, string>, uses: seq<(string, string)>): Result<string>
    requires uses != []
    decreases |uses|, 1
  {
    match Expand(template, files, uses[..|uses| - 1])
    case Err(e) => Err(e)
    case Ok(t) => Include(t, files, uses[|uses| - 1])
  }

  /**
   * createPageTemplate (main.go:97-167): the marked-up page after the base
   * reference, without its import lines, with each imported component
   * included; a page or component file that cannot be read is the error.
   */
  function PageOf(fs: FileSystem, pagePath: string): Result<Page> {
    if pagePath !in fs.files then Err(ReadFailed(pagePath))
    else AssemblePage(PageBase + ParsePageTemplate(fs.files[pagePath]), pagePath, fs)
  }

  /**
   * main.go:112-166 on the marked-up page `text`: its lines without the import
   * lines, with each imported component included.
   */
  function AssemblePage(text: string, pagePath: string, fs: FileSystem): Result<Page> {
    var lines := Split(text, '\n');
    var imports := PageImports(lines, pagePath, fs.resolve);
    match Expand(Join(KeptLines(lines), '\n'), fs.files, Uses(imports))
    case Err(e) => Err(e)
    case Ok(t) => Ok(Page(t, imports))
  }

  /** createPageTemplate: the page file is read and marked up, then its lines and imports are processed. */
  method CreatePageTemplate(fs: FileSystem, pagePath: string) returns (r: Result<Page>)
    ensures r == PageOf(fs, pagePath)
  {
    if pagePath !in fs.files {
      return Err(ReadFailed(pagePath));
    }
    var fileLines := Split(PageBase + ParsePageTemplate(fs.files[pagePath]), '\n');
    var newTemplateLines, components := SeparateImports(fileLines, pagePath, fs.resolve);
    var template := IncludeComponents(Join(newTemplateLines, '\n'), fs.files, components);
    match template
    case Err(e) => r := Err(e);
    case Ok(t) => r := Ok(Page(t, components));
  }

  /** main.go:112-133: the lines that stay in the template, and the imports the others register. */
  method SeparateImports(fileLines: seq<string>, pagePath: string, resolve: (string, string) -> string)
    returns (newTemplateLines: seq<string>, components: seq<Import>)
    ensures newTemplateLines == KeptLines(fileLines)
    ensures components == PageImports(fileLines, pagePath, resolve)
  {
    newTemplateLines, components := [], [];
    var i := 0;
    while i < |fileLines|
      invariant i <= |fileLines|
      invariant newTemplateLines == KeptLines(fileLines[..i])
      invariant components == PageImports(fileLines[..i], pagePath, resolve)
    {
      var line := fileLines[i];
      LinesStep(fileLines, i, pagePath, resolve);
      match ImportPath(line) {
        case Some(path) =>
          var names := ComponentNames(line);
          if names != [] {
            components := components + [Import(resolve(pagePath, path), names)];
          }
        case None =>
          newTemplateLines := newTemplateLines + [line];
      }
      i := i + 1;
    }
    assert fileLines[..i] == fileLines;
  }

  /** One more line: kept when it is not an import line, registered when it imports names. */
  lemma LinesStep(lines: seq<string>, i: nat, pagePath: string, resolve: (string, string) -> string)
    requires i < |lines|
    ensures KeptLines(lines[..i + 1]) == KeptLines(lines[..i]) + (if ImportPath(lines[i]).Some? then [] else [lines[i]])
    ensures PageImports(lines[..i + 1], pagePath, resolve)
            == PageImports(lines[..i], pagePath, resolve)
               + (match ImportOf(lines[i], pagePath, resolve) case None => [] case Some(imp) => [imp])
  {
    assert lines[..i + 1][..i] == lines[..i];
  }

  /** main.go:137-165: every imported name of every import, in order, included into the template. */
  method IncludeComponents(template: string, files: map<string, string>, components: seq<Import>) returns (r: Result<string>)
    ensures r == Expand(template, files, Uses(components))
  {
    var t := template;
    var i := 0;
    while i < |components|
      invariant i <= |components|
      invariant Expand(template, files, Uses(components[..i])) == Ok(t)
    {
      var next := IncludeNames(template, t, files, components, i);
      if next.Err? {
        return next;
      }
      t := next.value;
      i := i + 1;
    }
    assert components[..i] == components;
    r := Ok(t);
  }

  /**
   * main.go:141-164, the inner loop for import `i`: its names included in turn
   * into `t`, the template after the imports before it. A failure is the
   * failure of the whole page.
   */
  method IncludeNames(template: string, t: string, files: map<string, string>, components: seq<Import>, i: nat)
    returns (next: Result<string>)
    requires i < |components| && Expand(template, files, Uses(components[..i])) == Ok(t)
    ensures next.Ok? ==> next == Expand(template, files, Uses(components[..i + 1]))
    ensures next.Err? ==> next == Expand(template, files, Uses(components))
  {
    var component := components[i];
    var done := t;
    var j := 0;
    assert component.names[..0] == [];
    assert Uses(components[..i]) + NameUses(component.path, []) == Uses(components[..i]);
    while j < |component.names|
      invariant j <= |component.names|
      invariant Expand(template, files, Uses(components[..i]) + NameUses(component.path, component.names[..j])) == Ok(done)
    {
      var name := component.names[j];
      ghost var before := Uses(components[..i]) + NameUses(component.path, component.names[..j]);
      ExpandStep(template, files, before, (component.path, name));
      var step := Include(done, files, (component.path, name));
      assert component.names[..j + 1][..j] == component.names[..j];
      assert before + [(component.path, name)] == Uses(components[..i]) + NameUses(component.path, component.names[..j + 1]);
      if step.Err? {
        UsesAround(components, i, j);
        ExpandErrPersists(template, files, before + [(component.path, name)],
                          NameUses(component.path, component.names[j + 1..]) + Uses(components[i + 1..]));
        return step;
      }
      done := step.value;
      j := j + 1;
    }
    assert components[..i + 1][..i] == components[..i];
    assert component.names[..j] == component.names;
    next := Ok(done);
  }

  /** One more use: it is applied to the template the uses before it give, unless they failed. */
  lemma ExpandStep(t: string, files: map<string, string>, uses: seq<(string, string)>, use: (string, string))
    ensures Expand(t, files, uses + [use])
            == match Expand(t, files, uses) case Err(e) => Err(e) case Ok(u) => Include(u, files, use)
  {
    assert (uses + [use])[..|uses|] == uses;
    assert AfterLastUse(t, files, uses + [use]) == LastUseOn(t, files, uses + [use]);
  }

  /** Uses distributes over concatenation of the imports. */
  lemma {:induction false} UsesAppend(a: seq<Import>, b: seq<Import>)
    ensures Uses(a + b) == Uses(a) + Uses(b)
    decreases |b|
  {
    if b == [] {
      assert a + b == a;
    } else {
      var front := b[..|b| - 1];
      assert (a + b)[..|a + b| - 1] == a + front;
      UsesAppend(a, front);
    }
  }

  /** NameUses distributes over concatenation of the names. */
  lemma {:induction false} NameUsesAppend(path: string, x: seq<string>, y: seq<string>)
    ensures NameUses(path, x + y) == NameUses(path, x) + NameUses(path, y)
    decreases |y|
  {
    if y == [] {
      assert x + y == x;
    } else {
      var front := y[..|y| - 1];
      assert (x + y)[..|x + y| - 1] == x + front;
      NameUsesAppend(path, x, front);
    }
  }

  /** The use of name `j` of import `i` sits between the uses before it and the uses after it. */
  lemma UsesAround(imports: seq<Import>, i: nat, j: nat)
    requires i < |imports| && j < |imports[i].names|
    ensures var imp := imports[i];
            Uses(imports) == Uses(imports[..i]) + NameUses(imp.path, imp.names[..j + 1])
                             + (NameUses(imp.path, imp.names[j + 1..]) + Uses(imports[i + 1..]))
  {
    var imp := imports[i];
    UsesAt(imports, i);
    assert imp.names == imp.names[..j + 1] + imp.names[j + 1..];
    NameUsesAppend(imp.path, imp.names[..j + 1], imp.names[j + 1..]);
    Associative(NameUses(imp.path, imp.names[..j + 1]), NameUses(imp.path, imp.names[j + 1..]), Uses(imports[i + 1..]));
    Associative(Uses(imports[..i]), NameUses(imp.path, imp.names[..j + 1]),
                NameUses(imp.path, imp.names[j + 1..]) + Uses(imports[i + 1..]));
  }

  /** The uses of import `i` sit between the uses of the imports before it and after it. */
  lemma UsesAt(imports: seq<Import>, i: nat)
    requires i < |imports|
    ensures Uses(imports) == Uses(imports[..i]) + (NameUses(imports[i].path, imports[i].names) + Uses(imports[i + 1..]))
  {
    var imp := imports[i];
    var before, after := imports[..i], imports[i + 1..];
    assert [imp] + after == imports[i..];
    assert imports == before + imports[i..];
    UsesAppend(before, [imp] + after);
    UsesAppend([imp], after);
    UsesOne(imp);
  }

  /** The uses of a single import are its names' uses. */
  lemma UsesOne(imp: Import)
    ensures Uses([imp]) == NameUses(imp.path, imp.names)
  {
    assert [imp][..0] == [];
  }

  /** Once a use fails, the uses after it change nothing: the first failure is the result. */
  lemma {:induction false} ExpandErrPersists(t: string, files: map<string, string>, a: seq<(string, string)>, b: seq<(string, string)>)
    requires Expand(t, files, a).Err?
    ensures Expand(t, files, a + b) == Expand(t, files, a)
    decreases |b|
  {
    if b == [] {
      assert a + b == a;
    } else {
      var front := b[..|b| - 1];
      assert (a + b)[..|a + b| - 1] == a + front;
      assert AfterLastUse(t, files, a + b) == LastUseOn(t, files, a + b);
      ExpandErrPersists(t, files, a, front);
    }
  }

  // ---------------------------------------------------------------------------
  // What a page holds
  // ---------------------------------------------------------------------------

  /** The lines are taken one by one: the kept lines of a concatenation are those of its parts. */
  lemma {:induction false} KeptLinesAppend(a: seq<string>, b: seq<string>)
    ensures KeptLines(a + b) == KeptLines(a) + KeptLines(b)
    decreases |b|
  {
    if b != [] {
      var front := b[..|b| - 1];
      assert (a + b)[..|a + b| - 1] == a + front;
      KeptLinesAppend(a, front);
    } else {
      assert a + b == a;
    }
  }

  /** The imports of a concatenation are those of its parts. */
  lemma {:induction false} PageImportsAppend(a: seq<string>, b: seq<string>, pagePath: string, resolve: (string, string) -> string)
    ensures PageImports(a + b, pagePath, resolve) == PageImports(a, pagePath, resolve) + PageImports(b, pagePath, resolve)
    decreases |b|
  {
    if b != [] {
      var front := b[..|b| - 1];
      assert (a + b)[..|a + b| - 1] == a + front;
      PageImportsAppend(a, front, pagePath, resolve);
    } else {
      assert a + b == a;
    }
  }

  /** The kept lines are lines of the page, and none of them is an import line. */
  lemma {:induction false} KeptLinesSound(lines: seq<string>)
    ensures forall x :: x in KeptLines(lines) ==> x in lines && ImportPath(x).None?
    decreases |lines|
  {
    if lines != [] {
      var front := lines[..|lines| - 1];
      KeptLinesSound(front);
      assert forall x :: x in front ==> x in lines;
    }
  }

  /** A page without import lines keeps all of its lines. */
  lemma {:induction false} KeptAllLines(lines: seq<string>)
    requires forall k :: 0 <= k < |lines| ==> ImportPath(lines[k]).None?
    ensures KeptLines(lines) == lines
    decreases |lines|
  {
    if lines != [] {
      var front := lines[..|lines| - 1];
      KeptAllLines(front);
      assert front + [lines[|lines| - 1]] == lines;
    }
  }

  /** A page without import lines imports nothing. */
  lemma {:induction false} NoPageImports(lines: seq<string>, pagePath: string, resolve: (string, string) -> string)
    requires forall k :: 0 <= k < |lines| ==> ImportPath(lines[k]).None?
    ensures PageImports(lines, pagePath, resolve) == []
    decreases |lines|
  {
    if lines != [] {
      NoPageImports(lines[..|lines| - 1], pagePath, resolve);
    }
  }

  /** Every registered import names at least one component, and each name has a component name's shape. */
  lemma {:induction false} PageImportsShape(lines: seq<string>, pagePath: string, resolve: (string, string) -> string)
    ensures var imports := PageImports(lines, pagePath, resolve);
            && |imports| <= |lines|
            && forall k :: 0 <= k < |imports| ==>
                 imports[k].names != [] && forall m :: 0 <= m < |imports[k].names| ==> IsComponentName(imports[k].names[m])
    decreases |lines|
  {
    if lines != [] {
      PageImportsShape(lines[..|lines| - 1], pagePath, resolve);
      ComponentNamesShape(lines[|lines| - 1]);
    }
  }

  /** A line without a quote is never an import line. */
  lemma NoQuoteNoImport(line: string)
    requires '\'' !in line
    ensures ImportPath(line).None?
  {
  }

  /** The first line of a text is what comes before its first separator. */
  lemma SplitFirst(a: string, x: string, sep: char)
    requires sep !in a
    ensures Split(a + [sep] + x, sep)[0] == a
  {
    var s := a + [sep] + x;
    var lines := Split(s, sep);
    var l := lines[0];
    assert s[|a|] == sep;
    assert s[..|a|] == a;
    if |lines| > 1 {
      assert s == l + [sep] + Join(lines[1..], sep);
      assert s[..|l|] == l;
    }
  }

  /** Including a component keeps a prefix without `<`. */
  lemma IncludeKeepsPrefix(x: string, z: string, files: map<string, string>, use: (string, string))
    requires '<' !in x
    ensures Include(x + z, files, use).Ok? ==> exists z' :: Include(x + z, files, use).value == x + z'
  {
    var path, name := use.0, use.1;
    if path in files {
      var ref := ComponentRef(name);
      var fragment := ParseComponentTemplate(files[path], name);
      ReplaceTagsSkips(x, z, name, ref);
      Associative(x, ReplaceTags(z, name, ref), fragment);
      assert Include(x + z, files, use) == Ok(x + (ReplaceTags(z, name, ref) + fragment));
    }
  }

  /** Expanding keeps a prefix without `<`: the text before the first tag is never touched. */
  lemma {:induction false} ExpandKeepsPrefix(x: string, z: string, files: map<string, string>, uses: seq<(string, string)>)
    requires '<' !in x
    ensures Expand(x + z, files, uses).Ok? ==> exists z' :: Expand(x + z, files, uses).value == x + z'
    decreases |uses|
  {
    if uses != [] {
      var front := uses[..|uses| - 1];
      assert front + [uses[|uses| - 1]] == uses;
      ExpandStep(x + z, files, front, uses[|uses| - 1]);
      ExpandKeepsPrefix(x, z, files, front);
      if Expand(x + z, files, front).Ok? {
        var z' :| Expand(x + z, files, front).value == x + z';
        IncludeKeepsPrefix(x, z', files, uses[|uses| - 1]);
      }
    }
  }

  /** The first line of a page is the reference to the base template. */
  lemma PageFirstLine(rest: string)
    ensures Split(PageBase + rest, '\n')[0] == BaseRef
  {
    assert PageBase + rest == BaseRef + ['\n'] + rest;
    SplitFirst(BaseRef, rest, '\n');
  }

  /** A first line that is not an import line is the first kept line. */
  lemma KeptFirst(lines: seq<string>)
    requires |lines| >= 1 && ImportPath(lines[0]).None?
    ensures |KeptLines(lines)| >= 1 && KeptLines(lines)[0] == lines[0]
  {
    assert lines == [lines[0]] + lines[1..];
    KeptLinesAppend([lines[0]], lines[1..]);
    assert [lines[0]][..0] == [];
  }

  /** Joined lines start with the first line. */
  lemma JoinStartsWithFirst(lines: seq<string>, sep: char)
    requires |lines| >= 1
    ensures |Join(lines, sep)| >= |lines[0]| && Join(lines, sep)[..|lines[0]|] == lines[0]
  {
    if |lines| > 1 {
      assert Join(lines, sep) == lines[0] + ([sep] + Join(lines[1..], sep));
    }
  }

  /** The stripped lines of a page still start with the reference to the base template. */
  lemma KeptStartsWithBase(rest: string)
    ensures var stripped := Join(KeptLines(Split(PageBase + rest, '\n')), '\n');
            |stripped| >= |BaseRef| && stripped[..|BaseRef|] == BaseRef
  {
    var lines := Split(PageBase + rest, '\n');
    PageFirstLine(rest);
    BaseRefPlain();
    NoQuoteNoImport(BaseRef);
    KeptFirst(lines);
    JoinStartsWithFirst(KeptLines(lines), '\n');
  }

  /** The reference to the base template holds no tag and no quote. */
  lemma BaseRefPlain()
    ensures '<' !in BaseRef && '\'' !in BaseRef
  {
  }

  /** Every page template starts with the reference to the base template. */
  lemma PageStartsWithBase(rest: string, pagePath: string, fs: FileSystem)
    ensures var r := AssemblePage(PageBase + rest, pagePath, fs);
            r.Ok? ==> |r.value.template| >= |BaseRef| && r.value.template[..|BaseRef|] == BaseRef
  {
    var lines := Split(PageBase + rest, '\n');
    var stripped := Join(KeptLines(lines), '\n');
    KeptStartsWithBase(rest);
    var tail := stripped[|BaseRef|..];
    assert stripped == BaseRef + tail;
    var uses := Uses(PageImports(lines, pagePath, fs.resolve));
    BaseRefPlain();
    ExpandKeepsPrefix(BaseRef, tail, fs.files, uses);
    var e := Expand(BaseRef + tail, fs.files, uses);
    if e.Ok? {
      var z :| e.value == BaseRef + z;
      assert e.value[..|BaseRef|] == BaseRef;
    }
  }

  /** A marked-up page without import lines is the page template as it is, and imports nothing. */
  lemma PageWithoutImports(text: string, pagePath: string, fs: FileSystem)
    requires forall k :: 0 <= k < |Split(text, '\n')| ==> ImportPath(Split(text, '\n')[k]).None?
    ensures AssemblePage(text, pagePath, fs) == Ok(Page(text, []))
  {
    KeptAllLines(Split(text, '\n'));
    NoPageImports(Split(text, '\n'), pagePath, fs.resolve);
  }

  /**
   * Expanding fails exactly when some use names a file that cannot be read,
   * and the error names the first such file.
   */
  lemma {:induction false} ExpandErrSpec(t: string, files: map<string, string>, uses: seq<(string, string)>)
    ensures Expand(t, files, uses).Err? <==> exists k :: 0 <= k < |uses| && uses[k].0 !in files
    ensures forall k :: 0 <= k < |uses| && uses[k].0 !in files && (forall k' :: 0 <= k' < k ==> uses[k'].0 in files)
                        ==> Expand(t, files, uses) == Err(ReadFailed(uses[k].0))
    decreases |uses|
  {
    if uses != [] {
      var front := uses[..|uses| - 1];
      var last := uses[|uses| - 1];
      assert front + [last] == uses;
      ExpandStep(t, files, front, last);
      ExpandErrSpec(t, files, front);
      assert forall k :: 0 <= k < |front| ==> front[k] == uses[k];
    }
  }

  /**
   * Including component `name` into a template with a self-closing tag of it
   * (on one line, with no closing tag after it on that line) puts the
   * reference in the tag's place and appends the component's fragment.
   */
  lemma IncludeSelfClosingTag(pre: string, name: string, attrs: string, post: string, files: map<string, string>, path: string)
    requires '<' !in pre && '<' !in attrs && '/' !in attrs && '\n' !in attrs
    requires NoCloseOnLine(post, name)
    requires path in files
    ensures Include(pre + OpenTag(name) + attrs + "/>" + post, files, (path, name))
            == Ok(pre + ComponentRef(name) + ReplaceTags(post, name, ComponentRef(name)) + ParseComponentTemplate(files[path], name))
  {
    SelfClosingTagReplaced(pre, name, attrs, post, ComponentRef(name));
  }
}
