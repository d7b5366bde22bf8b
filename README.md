# indigoo compiler core, modelled in Dafny

indigoo serves web pages written as `.goo` files. A component file holds
three sections: a `<script>`, a `<style>` and a `<component>` block of markup.
The script imports other components with lines such as
`import { NavBar } from './nav-bar.goo';`. The compiler turns a component file
into Go template fragments: a `js-<class>` fragment holding the script wrapped
in a custom-element class, and a `content-<class>` fragment holding the
markup. It creates every imported component recursively and rewrites the tags
of imported components into references to their fragments. The older page
path in `main.go` does the same for `page.goo` files. It marks the script,
markup and style of a page or component file with `{{define}}`/`{{end}}`
markers, strips the import lines, includes each imported component, and
wraps the layout file in the `base` template. Routes are derived from where
the `page.goo` files lie.

The model has seven modules:

- `Text` (text.dfy): the Go library functions the core relies on. It covers
  `strings.TrimSpace`, `TrimRight`, `TrimSuffix`, `Index`, `Split` and `Join`.
  It also covers `regexp.ReplaceAllString` for a literal pattern, as a
  left-to-right, non-overlapping replacement.
- `Helpers` (helpers.dfy): `getStringBetween` and `generateCustomString`.
  `rand.Intn` is a `Random` object whose draws are an input stream.
- `Sections` (sections.dfy): `getCSSCode` and `getJavaScriptCode`.
- `StrCase` (strcase.dfy): `toCamelInitCase`, `ToCamel` and `ToLowerCamel`.
  Each is an imperative loop proved against a per-character reference
  definition.
- `Patterns` (patterns.dfy): the three fixed regular expressions, as matchers
  with RE2's semantics:
  - the import-line pattern;
  - the capitalised-name token;
  - the component-tag pattern with `ReplaceAllStringFunc`.
- `Components` (component.dfy): the `component` struct as a class, with its
  methods `New`, `handleComponentGeneration`, `handleComponents`,
  `handleTemplateSectors`, `parseTemplate`, `handleComponentsTemplateChange`
  and `handleJavascript`.
- `Pages` (pages.dfy): the following parts of `main.go`:
  - route derivation;
  - `parsePageTemplate` and `parseComponentTemplate`;
  - `generateBaseTemplate`;
  - `createPageTemplate`, as a method over its two loops, proved against the
    functions `PageOf` and `Expand`.

Reading a file is a lookup in a `files` map: a missing key is the read
error. `filepath.Join(filepath.Dir(p), q)` is an abstract `resolve`
parameter. Strings are sequences of characters.

## Model

| member | source | states |
|---|---|---|
| Text.TrimSpace | styles.go:11 | `strings.TrimSpace`: white space is dropped at both ends. TrimSpaceSpec states what the result is. |
| Text.TrimSpaceSpec | styles.go:11 | The trimmed text has no white space at either end. It is the slice of the input between the leading and the trailing white space. |
| Text.TrimSpaceKeepsAbsence | styles.go:11 | Trimming cannot create an occurrence of a text that was absent. |
| Text.TrimRightSet | component.go:44 | `TrimRight` with a cutset: the result is a prefix of the input, it does not end in a cutset character, and every dropped character is in the cutset. |
| Text.TrimSuffix | component.go:44 | The suffix is removed exactly when the input ends with it; otherwise the input is returned. |
| Text.IndexFrom | helpers.go:12-13 | The result is an occurrence at or after the start, and no earlier occurrence exists; None means there is no occurrence at all. |
| Text.LastIndexBefore | main.go:110 | The last position of a character before a bound, or None when none exists. |
| Text.Join | main.go:137 | `strings.Join` with a one-character separator. SplitJoin states that it undoes Split. |
| Text.Split | main.go:112 | `strings.Split` gives at least one piece; no piece holds the separator; joining the pieces gives the input back. |
| Text.SplitJoin | main.go:112-137 | Splitting joined lines gives the lines back when none holds the separator. |
| Text.ReplaceAll | main.go:178-188 | A literal replacement, left to right and without overlap. ReplaceAllPrefix, ReplaceAllNone and ReplaceAllFirst state its behaviour. |
| Text.ReplaceAllPrefix | main.go:178-188 | A literal replacement copies the text before the first occurrence unchanged. |
| Text.ReplaceAllNone | main.go:178-188 | Without an occurrence, a literal replacement changes nothing. |
| Text.ReplaceAllFirst | main.go:178-188 | The first occurrence is replaced and the rest is processed the same way (non-overlapping, left to right). |
| Text.ReplaceAllSkips | main.go:178-188 | Text without the pattern's first character passes through a replacement unchanged. |
| Text.ReplaceAllChars | main.go:178-188 | Every character of the result comes from the input or from the replacement. |
| Text.ReplaceAllCharGone | component.go:45 | Replacing a character by text without it leaves none of that character. |
| Text.ReplaceAllLeading | component.go:45 | A pattern at the start of a text whose remainder lacks the pattern's last character is replaced once, and the remainder is kept. |
| Text.ReplaceAllAbsent | component.go:45 | Replacing a character that does not occur changes nothing. |
| Text.ReplaceAllAfterTwice | main.go:179-180 | Two passes that each put a marker after every `p` equal one pass putting both markers, the later first. |
| Text.ReplaceAllBeforeTwice | main.go:186-187 | Two passes that each put a marker before every `p` equal one pass putting both markers in order. |
| Helpers.GetStringBetween | helpers.go:11-20 | The lazy `start(.*?)end` capture. GetStringBetweenSpec states when it fails and what it captures. |
| Helpers.GetStringBetweenSpec | helpers.go:11-20 | It fails with "no match found" exactly when no `start` is followed by an `end`. Otherwise it captures the text of the first pair, which holds no `end`. |
| Helpers.FirstPairUnique | helpers.go:12-13 | The lazily captured text of the first pair is unique. |
| Helpers.FirstPairAtUnique | helpers.go:12-13 | The first pair has one start position and one text. |
| Helpers.GetStringBetweenWrapped | helpers.go:11-20 | Wrapping a body in the delimiters, after a prefix where `start` cannot begin, gives the body back. This is the inverse of the extraction. |
| Helpers.Random.constructor | helpers.go:23 | The draw stream starts at its first draw. |
| Helpers.Random.Intn | helpers.go:27 | The result is below `n` and consumes exactly one draw. |
| Helpers.DrawnShape | helpers.go:25-31 | `max` draws give `max` characters. The k-th is picked from the 62-character table by draw k. |
| Helpers.GenerateCustomString | helpers.go:22-32 | The loop returns the characters the next `max` draws pick, and it consumes exactly `max` draws. |
| Sections.GetCSSCode | styles.go:5-13 | The trimmed text between the first `<style>` and the next `</style>`. TrimmedBlockSpec states when it exists and what it is. |
| Sections.GetJavaScriptCode | javascript.go:7-15 | The trimmed text between the first `<script>` and the next `</script>`. TrimmedBlockSpec states when it exists and what it is. |
| Sections.TrimmedBlockSpec | styles.go:5-13 | A block is found exactly when an opening tag is followed by a closing tag; its text is the trimmed first pair, with no white space at its ends and no closing tag inside. Otherwise the result is "no match found". |
| Sections.GetCSSCodeOfStyleBlock | styles.go:5-13 | A file written with a style block gives back the trimmed style. |
| Sections.GetJavaScriptCodeOfScriptBlock | javascript.go:7-15 | A file written with a script block gives back the trimmed script. |
| Sections.NoStyleBlock | styles.go:6-9 | A file without `<style>` has no CSS: "no match found". |
| StrCase.CapNextAtSpec | utils/strcase.go:43-51 | A letter ends a pending capitalisation. A digit or one of `_`, space, `-`, `.` starts one. |
| StrCase.TransformSpec | utils/strcase.go:25-41 | A written character keeps its class and digits are copied. A pending capitalisation upper-cases. The first character is otherwise lower-cased. Without an acronym, the second of two capitals is lower-cased. |
| StrCase.CamelPrefixAlnum | utils/strcase.go:24-52 | After n characters, at most n are written, all letters or digits. |
| StrCase.CamelCase | utils/strcase.go:10-54 | The reference conversion, character by character. TransformSpec, CamelCaseShape and CamelPlacement state what it writes. |
| StrCase.CamelCaseShape | utils/strcase.go:10-54 | Blank input gives "". The output holds only letters and digits. Without an acronym it is no longer than the trimmed input. |
| StrCase.ToCamelInitCase | utils/strcase.go:10-54 | The byte loop computes the reference conversion of the trimmed, acronym-substituted input. |
| StrCase.ToCamel | utils/strcase.go:56-58 | The conversion with the first letter capitalised. |
| StrCase.ToLowerCamel | utils/strcase.go:60-62 | The conversion with the first letter lower-cased. |
| StrCase.CamelPrefixGrows | utils/strcase.go:24-52 | Output is only appended: what is written after m characters is a prefix of what is written after n ≥ m. |
| StrCase.CamelPlacement | utils/strcase.go:43-48 | Each letter or digit of the input lands, transformed, at the position that counts the letters and digits before it. |
| StrCase.AlnumCount | utils/strcase.go:43-51 | The count of letters and digits is at most the length. |
| StrCase.CamelLength | utils/strcase.go:43-51 | Exactly the letters and digits are written. |
| StrCase.DigitKept | utils/strcase.go:46-48 | Digits are copied unchanged. |
| StrCase.CapitalisedAfterSeparator | utils/strcase.go:27-31 | A letter after a digit or a separator comes out upper-case. |
| StrCase.UpperRunLowered | utils/strcase.go:37-40 | Without an acronym, a capital right after a capital comes out lower-case. |
| StrCase.FirstCharacter | utils/strcase.go:22-36 | The first written character is the first input character, upper-cased for ToCamel and lower-cased otherwise. |
| StrCase.ToCamelFirstUpper | utils/strcase.go:56-58 | ToCamel starts with an upper-case letter when the input starts with a letter. |
| StrCase.ToLowerCamelFirstLower | utils/strcase.go:60-62 | ToLowerCamel starts with a lower-case letter when the input starts with a letter. |
| Patterns.ImportPath | main.go:110 | The path captured by the import-line pattern, or None. ImportPathSound and ImportPathComplete state that it matches exactly the pattern's lines. |
| Patterns.ClosingQuote | main.go:110 | The found quote is followed by `;` and then only white space. |
| Patterns.FromEnd | main.go:110 | The found position ends a `from` followed only by white space up to the opening quote. |
| Patterns.ImportEnd | main.go:110 | The found position follows leading white space, `import` and at least one white-space character. |
| Patterns.ImportPathSound | main.go:110 | A recognised line matches the import-line pattern, and the group captures the returned path. |
| Patterns.ImportPathComplete | main.go:110 | Every line the pattern matches is recognised, with the captured path. |
| Patterns.ImportPathOf | main.go:110 | The located quotes and keywords give the path between the quotes. |
| Patterns.ClosingQuoteOf | main.go:110 | A `';` followed only by white space is the closing quote found. |
| Patterns.LastQuoteOf | main.go:110 | The quote just before the closing one is found as the opening quote. |
| Patterns.FromEndOf | main.go:110 | A `from` followed by white space up to the quote is found. |
| Patterns.ImportEndOf | main.go:110 | After `import` and its white space, the search stops at or before the `from`. |
| Patterns.IsImportLineMatches | main.go:115-117 | The line is an import line exactly when the pattern matches it with some path. |
| Patterns.ComponentNames | main.go:118-126 | The names captured by the name token, each without its leading separator. NamesFromShape and ComponentNamesEmpty state their shape and when there are none. |
| Patterns.NameAt | main.go:118-120 | A match starts with a separator and a capital, holds at least two name characters, and ends at the run's end. |
| Patterns.NamesFromShape | main.go:118-126 | Every captured name has a component name's shape. |
| Patterns.ComponentNamesShape | component.go:79-87 | Every captured name has a component name's shape: a capital first, at least two characters, none of `.`, `,`, white space or `}`. |
| Patterns.NamesFromEmpty | main.go:120-122 | No names are captured exactly when no position starts a match. |
| Patterns.ComponentNamesEmpty | main.go:120-122 | A line yields no names exactly when the name token matches nowhere in it. |
| Patterns.OpenTag | main.go:149 | `<Name` is one longer than the name and starts with `<`. |
| Patterns.CloseTag | main.go:149 | `</Name>` is three longer than the name and starts with `</`. |
| Patterns.HeadEnd | component.go:170 | The white-space run after `<Name` is taken whole. |
| Patterns.TagMatch | main.go:149 | A match is non-empty and lies within the text. |
| Patterns.ShapeAfterRun | main.go:149 | Searching from the end of the white-space run finds the earliest completion, with no newline in between. |
| Patterns.TagMatchSound | main.go:149 | A match is one of the two alternatives: paired or self-closing. |
| Patterns.TagMatchPrefersPaired | main.go:149 | Where the paired alternative can match, it does, ending at the nearest closing tag (leftmost-first, lazy). |
| Patterns.TagMatchSelfClosing | main.go:149 | Otherwise the self-closing alternative matches, ending at the nearest `/>`. |
| Patterns.SelfClosingAfterRun | main.go:149 | When the paired alternative fails after the white-space run, the self-closing one matches at the nearest `/>`. |
| Patterns.TagMatchNone | main.go:149 | No match when neither alternative can match. |
| Patterns.ReplaceTags | main.go:149-160 | `ReplaceAllStringFunc` with the tag pattern: every match becomes the reference. SelfClosingTagReplaced, PairedTagReplaced and MultiLineTagKept state which tags it replaces. |
| Patterns.ReplaceTagsNone | main.go:151-160 | Text without `<Name` is left alone. |
| Patterns.ReplaceTagsSkips | main.go:151-160 | Text without `<` before a tag is copied unchanged. |
| Patterns.SelfClosingTagReplaced | main.go:149-160 | A one-line self-closing tag is replaced by the reference. |
| Patterns.SelfClosingMatch | main.go:149 | A `<Name…/>` with no closing tag on its line matches up to `/>`. |
| Patterns.SelfClosingTagMatch | main.go:149 | A self-closing tag at the start of the text is matched up to its `/>`, leaving the text after it. |
| Patterns.NoCloseTagOnLine | main.go:149 | A closing tag after the `/>` lies beyond a newline. |
| Patterns.PairedTagReplaced | component.go:170-172 | A paired tag on one line is replaced by the reference, up to the nearest closing tag. |
| Patterns.PairedMatch | main.go:149 | A `<Name…>…</Name>` on one line matches up to its closing tag. |
| Patterns.MultiLineTagKept | main.go:149 | `.` does not match a newline, so a paired tag split over two lines is left as it is. |
| Patterns.MultiLineNoMatch | main.go:149 | Neither alternative matches a paired tag split over two lines, since `.` stops at the newline. |
| Patterns.PlainThenClosingTag | main.go:149-160 | Tag-free text followed by a closing tag alone is kept. |
| Patterns.ClosingTagKept | main.go:149-160 | A closing tag without its opening tag is not replaced. |
| Components.WebComponentNameAsWritten | component.go:43-45 | The custom-element name as the source computes it, with `TrimRight` and its cutset. AsWrittenShape, AsWrittenAgrees and AsWrittenTrimsName state what it gives. |
| Components.AsWrittenShape | component.go:43-45 | The as-written custom-element name starts with `goo-` and holds no `/`. |
| Components.AsWrittenAgrees | component.go:43-45 | The as-written name equals the corrected name for every path that ends in `.goo` after a character other than `.`, `g` and `o`. |
| Components.AsWrittenPageName | component.go:43-45 | As written, `app/<n>.goo` is named `goo-` followed by the lower-cased `n`, when `n` holds no `/` and does not end in `.`, `g` or `o`. |
| Components.AsWrittenDistinct | component.go:43-45 | As written, distinct lower-case names not ending in `.`, `g` or `o` give distinct custom-element names. |
| Components.WebComponentNameOf | component.go:43-45 | The corrected custom-element name, with `.goo` removed as a suffix. WebComponentNameShape, PageName and DistinctNames state what it gives. |
| Components.WebComponentNameShape | component.go:43-45 | The corrected name starts with `goo-` and holds no `/` and no upper-case letter. |
| Components.AsWrittenTrimsName | component.go:44 | As written, `app/logo.goo` becomes `goo-l`. |
| Components.IntendedKeepsName | component.go:44 | With the suffix removed, `app/logo.goo` becomes `goo-logo`. |
| Components.AsWrittenCollides | component.go:44 | As written, `app/foo.goo` and `app/f.goo` get the same name. |
| Components.IntendedSeparates | component.go:44 | With the suffix removed, they get distinct names. |
| Components.AsWrittenOfStem | component.go:43-45 | The as-written name of a path that trims to `app/<c>` is `goo-<c>`. |
| Components.PageName | component.go:43-45 | With the corrected name, `app/<n>.goo` is named `goo-` followed by the lower-cased `n`, for every `n` without `/`. |
| Components.LowerPath | component.go:43 | Lower-casing `app/<n>.goo` lower-cases only `n`. |
| Components.StemOfPath | component.go:45 | Dropping `app/` from `app/<m>` and turning `/` into `-` gives back `m` when `m` holds no `/`. |
| Components.DistinctNames | component.go:43-45 | With the corrected name, distinct lower-case component names give distinct custom-element names, whatever their last character. |
| Components.BlankImports | component.go:199-205 | Blanking keeps the number of lines. |
| Components.BlankImportsAt | component.go:199-205 | Each cleaned line is its own line, blanked if it is an import line. |
| Components.BlankLine | component.go:200-204 | A blanked line is not an import line. A line is kept verbatim unless it was an import line, which becomes empty. |
| Components.BlankImportsRemovesImports | component.go:199-205 | No import line is left; every other line is kept verbatim. |
| Components.BlankImportsNone | component.go:199-205 | Without import lines, blanking changes nothing. |
| Components.BlankImportLines | component.go:199-205 | The loop produces the line-by-line blanking. |
| Components.ElementScript | component.go:184-210 | The script, import lines blanked and trimmed, inside the class named after the custom-element name. ElementScriptWithoutImports and BlankImportsRemovesImports state what it keeps. |
| Components.ElementScriptWithoutImports | component.go:184-210 | A script without import lines is wrapped, trimmed, in the custom-element class named after the CamelCased custom-element name. |
| Components.BlankImportsKeepsLines | component.go:207 | The joined, cleaned script splits back into the cleaned lines. |
| Components.ElementClassName | component.go:187 | The class of `goo-nav-bar` is `GooNavBar`. |
| Components.ScriptFragmentOpens | component.go:137 | The script fragment opens with the `js-<class>` define. |
| Components.ContentFragmentOpens | component.go:149 | The content fragment opens with the `content-<class>` define. |
| Components.DefineName | component.go:137 | A define holds the fragment's name after its opening text. |
| Components.TemplateOf | component.go:133-153 | The `js-<class>` fragment of the script followed by the `content-<class>` fragment of the markup, each only when present. TemplateOfShape and TemplateOfContent state its shape. |
| Components.FragmentsShape | component.go:133-153 | The text is empty exactly without script and markup. It opens with the script fragment exactly when there is a script, and otherwise with the content fragment exactly when there is markup. |
| Components.ContentFragmentNotScript | component.go:140-150 | A content fragment never opens like the script fragment. |
| Components.TemplateOfShape | component.go:133-153 | Same as FragmentsShape, for parseTemplate's template. |
| Components.FragmentsContent | component.go:140-150 | For any element script: the content define follows the script fragment exactly when there is markup, and without markup the text is the script fragment alone. The trimmed markup is wrapped in `<name>`…`</name>` exactly when there is a script. |
| Components.TemplateOfContent | component.go:140-150 | The same for parseTemplate's template: with a script and markup, the script fragment, the content define, `<name>`, the trimmed markup, `</name>` and `{{end}}`; with markup only, the content define, the trimmed markup and `{{end}}`. |
| Components.RegistrationKey | component.go:76-96 | A line registers a path exactly when its registration names that path. |
| Components.LineRegistrations | component.go:75-101 | One registration entry per script line. |
| Components.LineRegistrationAt | component.go:75-101 | Entry i is what line i registers. |
| Components.RegisteredStep | component.go:75-101 | One more line adds its registration, overwriting an earlier one for the same path. |
| Components.RegisteredNames | component.go:85-91 | Every registered name has a component name's shape. |
| Components.RegisteredFromLine | component.go:76-96 | Every registered path comes from an import line that names a component. |
| Components.RegisteredByLastLine | component.go:91-96 | The last line that registers a path decides its entry: the first name on that line. |
| Components.CollectedByLast | component.go:96 | The last registration of a key decides its entry. |
| Components.StoreUnderPaths | component.go:60-62 | The inner promotion loop stores every grandchild under its path. |
| Components.PromotionStart | component.go:59 | The promotion loop invariant holds before the loop. |
| Components.PromotionStep | component.go:59-63 | Visiting one more child keeps the promotion invariant. |
| Components.PromotionEnd | component.go:59-63 | After every child, the map is the promoted map. |
| Components.PromotedValues | component.go:59-63 | The promotion brings in only children and grandchildren. |
| Components.Promote | component.go:59-63 | Every component of every child ends up stored under its path, in any visiting order. The component itself is never stored. |
| Components.RegistrationsStore | component.go:96 | Storing a component under its path keeps the registrations. |
| Components.NestedStore | component.go:96 | Storing a component adds at most its own components to the nested ones. |
| Components.CompiledStore | component.go:96 | Storing a compiled component in a map of compiled components keeps every component compiled. |
| Components.NewComponent | component.go:91 | A created component is fresh, with the given path and name, and keyed by paths. On success it is compiled from its file: its raw text is the file, its sections are those of the file, its name is the corrected name of its path and its template is built from them. |
| Components.Register | component.go:90-96 | Creating one imported component and storing it under its path adds its registration, keeps every child compiled and stored under its path, and brings in only fresh components. |
| Components.ScanLine | component.go:76-100 | One line adds what it registers and keeps every child compiled; the first failure stops the scan. When no line of the script registers a component, it does not fail. |
| Components.NothingRegisteredAt | component.go:75-101 | When no line of the script imports a component, no single line does. |
| Components.ScanImports | component.go:70-106 | The map holds one fresh, compiled component per registered path, named by the last import line of that path. When no line registers a component, the scan does not fail. |
| Components.ReplaceInOthers | component.go:174-178 | One template per component. |
| Components.ReplaceInOthersAt | component.go:174-178 | Each other component's tags are replaced exactly when its class differs. |
| Components.TemplateChangeNext | component.go:169-181 | Round k follows the first k rounds. |
| Components.ReplaceTagsPlain | component.go:172 | Text without `<` has no tag to replace. |
| Components.ReplaceInOthersPlain | component.go:174-178 | Without `<` in any template, nothing changes. |
| Components.TemplateChangeWithoutTags | component.go:169-181 | Without tags, the component's templates are appended in visiting order and the others are kept. |
| Components.StepWithoutTags | component.go:169-181 | Each tag-free round appends one template. |
| Components.AppendedStep | component.go:180 | Appending one more template. |
| Components.RoundWithoutTags | component.go:169-181 | A tag-free round appends only the visited component's template. |
| Components.AppendedPlain | component.go:180 | Appending tag-free templates gives tag-free text. |
| Components.SelfClosingTagBecomesReference | component.go:169-181 | `<Name/>` becomes the reference to its content, followed by that component's template. |
| Components.SelfClosingTagAlone | component.go:170-172 | `<Name/>` alone becomes the reference. |
| Components.SameClassKept | component.go:175 | A component's own template is not rewritten for its own tag. |
| Components.Component.constructor | component.go:11-23 | `new(component)`: every field is empty. |
| Components.Component.HandleComponentsTemplateChange | component.go:155-182 | After visiting the map in any iteration order, the component's template and the children's templates are those of the reference rounds. |
| Components.Component.ReplaceTagsOf | component.go:169-181 | One outer round moves the heap from round i to round i+1. |
| Components.Component.ReplaceTagsIn | component.go:170-180 | The body of a round on the heap equals the reference round. |
| Components.Component.ReplaceInComponents | component.go:174-178 | Every child of another class has its tags replaced by the reference; same-class children are kept. |
| Components.Component.HandleTemplateSectors | component.go:108-131 | Success exactly when all three blocks exist. Each field holds its trimmed block, set in order until the first missing block, and the error is "no match found". |
| Components.Component.HandleJavascript | component.go:184-210 | The custom-element script of the component. |
| Components.Component.ParseTemplate | component.go:133-153 | The template is the fragments of the script and the markup (shaped as TemplateOfShape and TemplateOfContent state); no other field changes. |
| Components.Component.HandleComponents | component.go:70-106 | On success, the map holds the registered components under their paths, each compiled from its file. A failure leaves the map untouched. A script that imports no component does not fail. No other field changes. |
| Components.Component.Adopt | component.go:103 | The scanned map becomes the component's map, keyed by paths, with its registrations and compiled children; no other field changes. |
| Components.Component.PromoteNested | component.go:59-63 | The map becomes the promoted map and stays keyed by paths. |
| Components.Component.Load | component.go:37-52 | A missing file gives a read error; a file missing a section gives "no match found". It succeeds exactly when the file is readable and has its three sections, and then the names, class and sections are set. |
| Components.Component.AssignNames | component.go:42-47 | Sets the name, custom-element name, path and `indigoo-` class from exactly 8 draws. |
| Components.Component.Assemble | component.go:54-65 | On success: the children (registered and each compiled from its file), the promoted map and the template. A script that imports no component does not fail. |
| Components.Component.HandleComponentGeneration | component.go:34-68 | The same errors as Load. On success, the component is generated. A readable file with its three sections whose script imports no component is generated without error. |
| Components.Component.New | component.go:25-32 | The component itself on success, the error otherwise. A readable file with its three sections whose script imports no component gives the component. |
| Pages.Route | main.go:49-55 | Exactly the `page.goo` files get a route, and a route starts with `/`. |
| Pages.RouteOfDirectory | main.go:50-55 | A page in a directory gets `/` plus the directory, without its final `/`. |
| Pages.DirectoryOfRoute | main.go:50-51 | A route other than `/` names the directory after its leading `/`. |
| Pages.FinalSlashDropped | main.go:53-55 | Dropping the final `/` undoes appending one. |
| Pages.RouteOfPagePath | main.go:49-55 | The page file of a route gets that route back. |
| Pages.PagePathOfRoute | main.go:49-55 | A page file in a well-formed directory gets a route that leads back to it. |
| Pages.RootRoute | main.go:49-55 | `app/page.goo` serves `/`. |
| Pages.NestedRoute | main.go:49-55 | `app/a/b/page.goo` serves `/a/b`: the final `/` is dropped. |
| Pages.ParsePageTemplate | main.go:169-194 | The page marked with `js`, `content` and `css` fragments. PageSections and PlainPage state what it gives. |
| Pages.ParseComponentTemplate | main.go:196-223 | The component marked with `js`, `components/<name>` and `css` fragments. ComponentSections and PlainComponent state what it gives. |
| Pages.MarkScriptInOnePass | main.go:177-180 | The three script passes equal one pass: `js` opens before `<script>`, and each `</script>` is followed by `{{end}}` and then the define. |
| Pages.MarkStyleInOnePass | main.go:185-188 | The three style passes equal one: `{{end}}` and the `css` define before `<style>`, `{{end}}` after `</style>`. |
| Pages.MarkStyleWithoutStyle | main.go:189-191 | Without `<style>`, only `{{end}}` is appended. |
| Pages.OpenContentPlain | main.go:182 | Text without `{` has no base marker to open content after. |
| Pages.OpenContentAfterLeadingBase | main.go:181-183 | A script-less page starting with the base marker gets the content fragment opened right after it. |
| Pages.PlainPage | main.go:175-193 | A page with neither script, style nor marker is only closed by `{{end}}`. |
| Pages.PlainComponent | main.go:208-218 | A component without script and style is one fragment named after it. |
| Pages.ScriptOpenPass | main.go:178 | Replacing `<script>` touches the one script opening. |
| Pages.ScriptClosePass | main.go:179-180 | Replacing `</script>` touches the one script closing. |
| Pages.StyleOpenPass | main.go:186-187 | Replacing `<style>` touches the one style opening. |
| Pages.StyleClosePass | main.go:188 | Replacing `</style>` touches the one style closing. |
| Pages.LayoutContains | main.go:177 | The layout holds a script and a style. |
| Pages.MarkedSections | main.go:177-188 | A script, markup, style file is cut into three closed fragments: `js` with the script, the markup fragment, and `css` with the style. |
| Pages.PageSections | main.go:175-193 | A page gets its `js`, `content` and `css` fragments. |
| Pages.ComponentSections | main.go:202-218 | A component gets its `js`, `components/<name>` and `css` fragments. |
| Pages.GenerateBaseTemplate | main.go:225-240 | The layout wrapped in the `base` define, with the three blocks inserted. BaseTemplateSections states where they go. |
| Pages.HeadClosePass | main.go:235 | Replacing `</head>` puts the `css` block before the one `</head>`. |
| Pages.BodyOpenPass | main.go:236 | Replacing `<body>` puts the `content` block after the one `<body>`. |
| Pages.BodyClosePass | main.go:237 | Replacing `</body>` puts the `js` block and `</html>` in place of the one `</body>`. |
| Pages.BaseTemplateSections | main.go:231-237 | A layout with one `</head>`, `<body>` and `</body>` becomes the `base` define with the `css` block before `</head>`, the `content` block after `<body>`, the `js` block and `</html>` in place of `</body>`, and `{{end}}` at the end. |
| Pages.BaseTemplateOpensBase | main.go:231-237 | The base template starts with the `base` define, untouched by the insertions. |
| Pages.BaseTemplateOfPlainLayout | main.go:231-239 | A tag-free layout is wrapped in `base` as it is. |
| Pages.PageOf | main.go:97-167 | The reference page: the read error, or the base reference, the stripped page and every included component. PageStartsWithBase, PageWithoutImports and ExpandErrSpec state its properties. |
| Pages.Expand | main.go:139-164 | Every use applied in order, stopping at the first failure. ExpandErrSpec and ExpandKeepsPrefix state its properties. |
| Pages.Include | main.go:143-163 | One name of one import: its tags replaced by the reference and its parsed file appended, or the read error. IncludeSelfClosingTag states its effect on a tag. |
| Pages.CreatePageTemplate | main.go:97-167 | The method's two loops compute the reference page. |
| Pages.SeparateImports | main.go:112-135 | The line loop keeps exactly the non-import lines and registers the imports in order. |
| Pages.LinesStep | main.go:114-134 | One more line is kept, or registers its import. |
| Pages.IncludeComponents | main.go:137-165 | The nested loops apply every use in order; the first failure is the result. |
| Pages.IncludeNames | main.go:141-164 | The inner loop for one import applies its names, or ends the page with the failure. |
| Pages.ExpandStep | main.go:143-163 | One more use applies to the previous result, unless that result failed. |
| Pages.UsesAppend | main.go:139-143 | Uses distribute over concatenation. |
| Pages.NameUsesAppend | main.go:143 | Name uses distribute over concatenation. |
| Pages.UsesAround | main.go:139-143 | Each use sits between the uses before it and after it. |
| Pages.UsesAt | main.go:139-143 | The uses of import i sit between the uses of the imports before it and after it. |
| Pages.UsesOne | main.go:143 | The uses of one import are its names, in order. |
| Pages.ExpandErrPersists | main.go:144-147 | After a failure, later uses change nothing. |
| Pages.KeptLinesAppend | main.go:131-134 | The kept lines of a concatenation are those of its parts. |
| Pages.PageImportsAppend | main.go:114-131 | The imports of a concatenation are those of its parts. |
| Pages.KeptLinesSound | main.go:114-134 | Every kept line is a line of the page and is not an import line. |
| Pages.KeptAllLines | main.go:114-137 | A page without import lines keeps all of its lines. |
| Pages.NoPageImports | main.go:114-131 | A page without import lines imports nothing. |
| Pages.PageImportsShape | main.go:117-130 | There are no more imports than lines. Each names at least one component, and each name has a component name's shape. |
| Pages.NoQuoteNoImport | main.go:110 | A line without a quote is never an import line. |
| Pages.SplitFirst | main.go:112 | The first line is the text before the first newline. |
| Pages.IncludeKeepsPrefix | main.go:149-162 | Including keeps a tag-free prefix. |
| Pages.ExpandKeepsPrefix | main.go:139-164 | Expanding keeps a tag-free prefix. |
| Pages.PageFirstLine | main.go:98-108 | The first line of a page is the base reference. |
| Pages.KeptFirst | main.go:132-134 | A non-import first line is the first kept line. |
| Pages.JoinStartsWithFirst | main.go:137 | Joined lines start with the first line. |
| Pages.KeptStartsWithBase | main.go:98-137 | The stripped page still starts with the base reference. |
| Pages.BaseRefPlain | main.go:99 | The base reference holds no tag and no quote. |
| Pages.PageStartsWithBase | main.go:97-167 | Every page template starts with `{{template "base" .}}`. |
| Pages.PageWithoutImports | main.go:112-137 | A page without import lines is kept as it is and imports nothing. |
| Pages.ExpandErrSpec | main.go:139-147 | Inclusion fails exactly when some used file is missing, with the read error of the first such file. |
| Pages.IncludeSelfClosingTag | main.go:144-162 | A self-closing tag becomes the component reference, and the component's fragments are appended. |

## Left out

- I/O: `os.ReadFile` is a lookup in a `files` map; a missing key is the read error. The `log.Println`/`log.Fatal` calls and the HTTP server are left out. So are `renderPage`, `template.Parse` and `ExecuteTemplate` (main.go:73-95).
- The `log.Fatal` of `generateBaseTemplate` when the layout cannot be read (main.go:226-229): the model takes the layout's contents.
- `validateStructuralFiles` (main.go:242-270): it only checks that files exist on disk and is outside the compiler core.
- `filepath.Walk` is left out: `Route` handles one visited entry, and `InFolder` states what the walk guarantees of its paths.
- `filepath.Join(filepath.Dir(p), q)` is the abstract `resolve` parameter. Path cleaning is not modelled.
- Components.Component.HandleComponents: the source's `componentImportPattern` is not defined in the files of this model. It is modelled with the import-line pattern at main.go:110.
- Components.Component.AssignNames: sets `WebComponentName` to the corrected name `WebComponentNameOf`, with `.goo` removed as a suffix, and not to the `TrimRight` cutset result of component.go:44 (`WebComponentNameAsWritten`). `AsWrittenAgrees` proves the two equal unless the file's stem ends in `.`, `g` or `o`; the difference is the finding below.
- Components.Component.Load: the custom-element name it sets is the corrected one, through AssignNames.
- Components.Component.HandleComponentGeneration: the custom-element name, and so the class name in the element script, is the corrected one, through AssignNames.
- Components.Promote: visits a snapshot of the children taken before the loop. Go ranges over `cmpt.Components` while storing into it (component.go:59-63). Go may or may not visit an entry stored during the range, and visits an entry overwritten before its turn with its new value, so it can also promote components of grandchildren. The model promotes exactly the components of the original children.
- Components.Component.PromoteNested: inherits the snapshot order of Components.Promote.
- Components.Component.New: the created component, and every component it creates, carries the corrected custom-element name, through AssignNames. Creation recurses through the imports with a `fuel` bound. When the bound runs out, it fails with `DepthExceeded`; the source would recurse without end on cyclic imports.
- Components.ScanImports: `newTemplateLines` (component.go:74-100) is built and never read, so it is left out.
- Components.Component.Load: on a read error, the source leaves `Raw` as `readFile` returns it. The model does not state `Raw` on that path.
- Components.Component.HandleComponentsTemplateChange: nothing in the source calls `handleComponentsTemplateChange`, so it is modelled standalone. Go's map iteration order is the ghost `order` parameter; the proof holds for every order.
- The `RootDomComponent` field is never used, and the commented-out `handleStyles` and `attachCSS` code is not modelled.
- Randomness: `rand.NewSource(time.Now().UnixNano())` is called for nothing in `generateCustomString`. `rand.Intn` draws from a stream given as input.
- Strings are sequences of code points. `strcase.go` works on bytes, but it only transforms ASCII letters and digits, so the two agree for ASCII names. Non-ASCII input is not modelled beyond that.
- Regular-expression replacements with a literal pattern are modelled without `$` expansion in the replacement text. The fixed replacement texts hold no `$`. The replacement at main.go:206 holds the component name, and the name token (`IsComponentName`) admits `$`: Go would expand `$name` or `${name}` there, and `Pages.ParseComponentTemplate` copies it literally.
- A component name holding regular-expression metacharacters would make `regexp.MustCompile` at main.go:149 and component.go:170 panic or match differently. The model treats names literally; the name token's shape (`IsComponentName`) allows `[`, `(` and similar characters.
- `strings.ToLower` is modelled for ASCII letters only.
- Pages.ParsePageTemplate: a page without `<script>` opens its content fragment only where its own text holds the base marker. The marker that main.go:99 puts in front is added after parsing. Pages.PlainPage states this as the source behaves.

## Findings

| source | as written | input that shows it | evidently intended | confidence | as-written member | corrected member |
|---|---|---|---|---|---|---|
| component.go:44 | `strings.TrimRight(name, ".goo")` removes every trailing `.`, `g` and `o` character, because its second argument is a character set | `app/logo.goo` becomes `goo-l`; `app/foo.goo` and `app/f.goo` both become `goo-f` | remove the `.goo` suffix (`strings.TrimSuffix`), giving `goo-logo`, `goo-foo` and `goo-f` | high; not executed | Components.AsWrittenCollides | Components.IntendedSeparates |
