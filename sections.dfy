/**
 * styles.go and javascript.go: the CSS and the JavaScript of a component file
 * are the trimmed text of its first `<style>…</style>` and
 * `<script>…</script>` blocks.
 */
module Sections {
  import opened Text
  import opened Helpers

  const StyleOpen: string := "<style>"
  const StyleClose: string := "</style>"
  const ScriptOpen: string := "<script>"
  const ScriptClose: string := "</script>"
  const ComponentOpen: string := "<component>"
  const ComponentClose: string := "</component>"

  /** The trimmed text of the first `open … close` block of `tmpl`, or the error of getStringBetween. */
  function TrimmedBlock(tmpl: string, open: string, close: string): Result<string> {
    match GetStringBetween(tmpl, open, close)
    case Err(e) => Err(e)
    case Ok(body) => Ok(TrimSpace(body))
  }

  /**
   * A block is found exactly when some `open` is followed by a `close`; its
   * text is the trimmed text of the first pair, so it has no white space at
   * either end and no `close` inside; otherwise the error is "no match found".
   */
  lemma TrimmedBlockSpec(tmpl: string, open: string, close: string)
    ensures var r := TrimmedBlock(tmpl, open, close);
            && (r.Err? <==> !HasPair(tmpl, open, close))
            && (r.Err? ==> r.error == NoMatchFound)
            && (r.Ok? ==> exists body :: FirstPair(tmpl, open, close, body) && r.value == TrimSpace(body))
            && (r.Ok? ==> r.value == "" || (!IsSpace(r.value[0]) && !IsSpace(r.value[|r.value| - 1])))
            && (r.Ok? && close != "" ==> forall k :: !OccursAt(r.value, close, k))
  {
    GetStringBetweenSpec(tmpl, open, close);
    match GetStringBetween(tmpl, open, close)
    case Err(e) =>
    case Ok(body) =>
      TrimSpaceSpec(body);
      if close != "" {
        TrimSpaceKeepsAbsence(body, close);
      }
  }

  /** getCSSCode: the trimmed content of the first style block (see TrimmedBlock). */
  function GetCSSCode(tmpl: string): Result<string> {
    TrimmedBlock(tmpl, StyleOpen, StyleClose)
  }

  /** getJavaScriptCode: the trimmed content of the first script block (see TrimmedBlock). */
  function GetJavaScriptCode(tmpl: string): Result<string> {
    TrimmedBlock(tmpl, ScriptOpen, ScriptClose)
  }

  /**
   * A component file whose markup before the style block holds no `<` gives
   * back the trimmed style it was written with.
   */
  lemma {:induction false} GetCSSCodeOfStyleBlock(pre: string, css: string, post: string)
    requires '<' !in pre
    requires forall j :: 0 <= j < |css| ==> !OccursAt(css + StyleClose, StyleClose, j)
    ensures GetCSSCode(pre + StyleOpen + css + StyleClose + post) == Ok(TrimSpace(css))
  {
    GetStringBetweenWrapped(pre, StyleOpen, css, StyleClose, post);
  }

  /** The same for the script block. */
  lemma {:induction false} GetJavaScriptCodeOfScriptBlock(pre: string, js: string, post: string)
    requires '<' !in pre
    requires forall j :: 0 <= j < |js| ==> !OccursAt(js + ScriptClose, ScriptClose, j)
    ensures GetJavaScriptCode(pre + ScriptOpen + js + ScriptClose + post) == Ok(TrimSpace(js))
  {
    GetStringBetweenWrapped(pre, ScriptOpen, js, ScriptClose, post);
  }

  /** A file without a style block has no CSS: the source reports "no match found". */
  lemma NoStyleBlock(tmpl: string)
    requires forall i :: !OccursAt(tmpl, StyleOpen, i)
    ensures GetCSSCode(tmpl) == Err(NoMatchFound)
  {
    GetStringBetweenSpec(tmpl, StyleOpen, StyleClose);
    assert !HasPair(tmpl, StyleOpen, StyleClose);
  }
}
