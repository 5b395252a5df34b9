/**
 * backend/src/services/svg-sanitizer.ts: the four case-insensitive
 * signature checks of `isSvgSafe` and the validate, reject, sanitize order
 * of `validateAndSanitizeSvg`. The `sanitize-html` call is a parameter;
 * None stands for a sanitizer that throws.
 *
 * Each regular expression carries the `i` flag and consists of ASCII
 * letters, so matching it is matching its lower-case form against the
 * ASCII-lower-cased text (a non-unicode JavaScript pattern never folds a
 * non-ASCII character onto an ASCII one).
 */
module SvgSanitizer {
  import opened Base

  const NotXmlError := "Invalid SVG: does not start with XML tag"
  const DangerousError := "SVG contains potentially dangerous content (scripts, event handlers)"
  const SanitizeFailedError := "SVG sanitization failed"

  /** `/<script/i`. */
  predicate HasScriptTag(t: string) {
    Contains(t, "<script")
  }

  /** A run of `\w` from `lo` (inclusive) to `hi` (exclusive). */
  predicate WordRun(t: string, lo: int, hi: int)
    requires 0 <= lo <= hi <= |t|
  {
    forall m :: lo <= m < hi ==> IsWordChar(t[m])
  }

  /** A run of `\s` from `lo` (inclusive) to `hi` (exclusive). */
  predicate SpaceRun(t: string, lo: int, hi: int)
    requires 0 <= lo <= hi <= |t|
  {
    forall m :: lo <= m < hi ==> IsJsSpace(t[m])
  }

  /** `/on\w+\s*=/` matches `t` with `on` at i, the `\s*` starting at j and `=` at k. */
  predicate EventHandlerMatch(t: string, i: int, j: int, k: int) {
    0 <= i && i + 2 < j <= k < |t|
    && t[i] == 'o' && t[i + 1] == 'n'
    && WordRun(t, i + 2, j) && SpaceRun(t, j, k) && t[k] == '='
  }

  /** `/on\w+\s*=/` (lower-cased). */
  predicate HasEventHandler(t: string) {
    exists i, j, k :: 0 <= i < j <= k < |t| && EventHandlerMatch(t, i, j, k)
  }

  /** `/javascript:/i`. */
  predicate HasJavascriptUrl(t: string) {
    Contains(t, "javascript:")
  }

  /** No line terminator between `lo` (inclusive) and `hi` (exclusive): what `.*` may span. */
  predicate OnOneLine(t: string, lo: int, hi: int)
    requires 0 <= lo <= hi <= |t|
  {
    forall m :: lo <= m < hi ==> !IsLineTerminator(t[m])
  }

  /** `/data:.*script/` (lower-cased) matches with `data:` at i and `script` at k. */
  predicate DataScriptMatch(t: string, i: int, k: int) {
    0 <= i && i + 5 <= k && k + 6 <= |t|
    && t[i..i + 5] == "data:" && t[k..k + 6] == "script" && OnOneLine(t, i + 5, k)
  }

  /** `/data:.*script/i`. */
  predicate HasDataScript(t: string) {
    exists i, k :: 0 <= i <= k <= |t| && DataScriptMatch(t, i, k)
  }

  /** `isSvgSafe(svgContent)`. */
  predicate IsSvgSafe(svgContent: string) {
    var t := ToLower(svgContent);
    !HasScriptTag(t) && !HasEventHandler(t) && !HasJavascriptUrl(t) && !HasDataScript(t)
  }

  datatype SvgResult = SvgResult(valid: bool, sanitized: Option<string>, error: Option<string>)

  /** `validateAndSanitizeSvg(svgContent)` with `sanitizeSvg` as the parameter `sanitize`. */
  function ValidateAndSanitizeSvg(svgContent: string, sanitize: string -> Option<string>): (r: SvgResult)
    ensures r.valid <==> r.sanitized.Some?
    ensures r.valid <==> r.error.None?
    ensures !r.valid ==> r.error.value != ""
    ensures r.valid ==> StartsWith(Trim(svgContent), "<") && IsSvgSafe(svgContent)
                        && r.sanitized == sanitize(svgContent)
  {
    if !StartsWith(Trim(svgContent), "<") then
      SvgResult(false, None, Some(NotXmlError))
    else if !IsSvgSafe(svgContent) then
      SvgResult(false, None, Some(DangerousError))
    else
      match sanitize(svgContent)
      case None => SvgResult(false, None, Some(SanitizeFailedError))
      case Some(sanitized) => SvgResult(true, Some(sanitized), None)
  }

  // ---------------------------------------------------------------------
  // Properties of validateAndSanitizeSvg
  // ---------------------------------------------------------------------

  /** Content not starting with `<` (after trimming) is rejected before the safety check. */
  lemma NonXmlRejectedFirst(svgContent: string, sanitize: string -> Option<string>)
    requires !StartsWith(Trim(svgContent), "<")
    ensures ValidateAndSanitizeSvg(svgContent, sanitize) == SvgResult(false, None, Some(NotXmlError))
  {
  }

  /**
   * Unsafe content is rejected with the "dangerous content" error whatever
   * the sanitizer would do: it is never consulted.
   */
  lemma UnsafeNeverSanitized(svgContent: string, sanitize: string -> Option<string>, other: string -> Option<string>)
    requires StartsWith(Trim(svgContent), "<") && !IsSvgSafe(svgContent)
    ensures ValidateAndSanitizeSvg(svgContent, sanitize) == SvgResult(false, None, Some(DangerousError))
    ensures ValidateAndSanitizeSvg(svgContent, sanitize) == ValidateAndSanitizeSvg(svgContent, other)
  {
  }

  /** Safe, tag-shaped content is valid exactly when the sanitizer succeeds. */
  lemma SafeContentSanitized(svgContent: string, sanitize: string -> Option<string>)
    requires StartsWith(Trim(svgContent), "<") && IsSvgSafe(svgContent)
    ensures var r := ValidateAndSanitizeSvg(svgContent, sanitize);
      (r.valid <==> sanitize(svgContent).Some?)
      && (!r.valid ==> r.error == Some(SanitizeFailedError))
  {
  }

  // ---------------------------------------------------------------------
  // Properties of the signature checks
  // ---------------------------------------------------------------------

  /** A text without some character of `p` does not contain `p`. */
  lemma {:induction false} MissingCharNotContained(t: string, p: string, c: char)
    requires c in p && c !in t
    ensures !Contains(t, p)
    decreases |t|
  {
    if t != [] {
      MissingCharNotContained(t[1..], p, c);
    }
  }

  /** Without an `o` there is no event handler attribute. */
  lemma NoOnWithoutO(t: string)
    requires 'o' !in t
    ensures !HasEventHandler(t)
  {
  }

  /** Without an `a` there is no `data:` at any position. */
  lemma NoDataAt(t: string, i: int, k: int)
    requires 'a' !in t
    ensures !DataScriptMatch(t, i, k)
  {
    if 0 <= i && i + 5 <= |t| {
      assert t[i..i + 5][1] == t[i + 1];
    }
  }

  /** Without an `a` there is no `data:` URL. */
  lemma NoDataWithoutA(t: string)
    requires 'a' !in t
    ensures !HasDataScript(t)
  {
    forall i, k ensures !DataScriptMatch(t, i, k) {
      NoDataAt(t, i, k);
    }
  }

  lemma LowerConcat(a: string, b: string)
    ensures ToLower(a + b) == ToLower(a) + ToLower(b)
  {
  }

  /** A lower-case pattern inside a text is found in the lower-cased text. */
  lemma LowerPatternContained(a: string, p: string, b: string)
    requires ToLower(p) == p
    ensures Contains(ToLower(a + p + b), p)
  {
    LowerConcat(a + p, b);
    LowerConcat(a, p);
    var t := ToLower(a + p + b);
    assert t[|a|..][..|p|] == p;
    ContainsAt(t, p, |a|);
  }

  /**
   * `on`, a non-empty name of word characters and `=` anywhere in the text
   * are flagged, whatever precedes them; so the check also fires inside a
   * word.
   */
  lemma EventHandlerFound(a: string, name: string, b: string)
    requires name != [] && forall m :: 0 <= m < |name| ==> IsWordChar(name[m])
    ensures HasEventHandler(ToLower(a + "on" + name + "=" + b))
  {
    var s := a + "on" + name + "=" + b;
    var t := ToLower(s);
    var i, j := |a|, |a| + 2 + |name|;
    assert s[i] == 'o' && s[i + 1] == 'n' && s[j] == '=';
    forall m | i + 2 <= m < j ensures IsWordChar(t[m]) {
      assert s[m] == name[m - i - 2];
    }
    assert EventHandlerMatch(t, i, j, j);
  }

  /** The characters the safe sample provably lacks. */
  predicate AvoidsSignatureLetters(s: string) {
    forall k :: 0 <= k < |s| ==> s[k] !in "oOpPjJaA"
  }

  /** A text without any of `o`, `p`, `j` and `a` (either case) is safe. */
  lemma SafeWithoutSignatureLetters(s: string)
    requires AvoidsSignatureLetters(s)
    ensures IsSvgSafe(s)
  {
    var t := ToLower(s);
    assert 'o' !in t && 'p' !in t && 'j' !in t && 'a' !in t by {
      forall k | 0 <= k < |t| ensures t[k] !in "opja" {
        assert t[k] == LowerChar(s[k]);
      }
    }
    MissingCharNotContained(t, "<script", 'p');
    MissingCharNotContained(t, "javascript:", 'j');
    NoOnWithoutO(t);
    NoDataWithoutA(t);
  }

  /** The samples of the sanitizer tests. */
  const SafeSample := "<svg><rect" + " x=\"0\" y=\"0\"" + " width=\"100\"" + " height=\"100\"" + " /></svg>"
  const ScriptSample := "<svg>" + "<script" + ">alert(\"xss\")</script></svg>"
  const OnClickSample := "<svg " + "on" + "click" + "=" + "\"alert(1)\"><rect /></svg>"
  const JavascriptSample := "<svg><a href=\"" + "javascript:" + "alert(1)\">test</a></svg>"
  const NotXmlSample := "not an svg"

  /** `<text font="x">`: `font=` is flagged. */
  const FontSample := "<text f" + "on" + "t" + "=" + "\"x\">"

  lemma SafeExample()
    ensures IsSvgSafe(SafeSample)
  {
    assert AvoidsSignatureLetters("<svg><rect");
    assert AvoidsSignatureLetters(" x=\"0\" y=\"0\"");
    assert AvoidsSignatureLetters(" width=\"100\"");
    assert AvoidsSignatureLetters(" height=\"100\"");
    assert AvoidsSignatureLetters(" /></svg>");
    SafeWithoutSignatureLetters(SafeSample);
  }

  /** The safe sample passes validation whenever the sanitizer succeeds. */
  lemma SafeExampleValid(sanitize: string -> Option<string>)
    requires sanitize(SafeSample).Some?
    ensures ValidateAndSanitizeSvg(SafeSample, sanitize).valid
    ensures ValidateAndSanitizeSvg(SafeSample, sanitize).sanitized == sanitize(SafeSample)
  {
    SafeExample();
    assert SafeSample[0] == '<';
    assert Trim(SafeSample) == SafeSample;
  }

  lemma ScriptExample()
    ensures !IsSvgSafe(ScriptSample)
  {
    LowerPatternContained("<svg>", "<script", ">alert(\"xss\")</script></svg>");
  }

  lemma OnClickExample()
    ensures !IsSvgSafe(OnClickSample)
  {
    EventHandlerFound("<svg ", "click", "\"alert(1)\"><rect /></svg>");
  }

  lemma JavascriptExample()
    ensures !IsSvgSafe(JavascriptSample)
  {
    LowerPatternContained("<svg><a href=\"", "javascript:", "alert(1)\">test</a></svg>");
  }

  lemma FontAttributeFlagged()
    ensures !IsSvgSafe(FontSample)
  {
    EventHandlerFound("<text f", "t", "\"x\">");
  }

  lemma NotXmlExample(sanitize: string -> Option<string>)
    ensures ValidateAndSanitizeSvg(NotXmlSample, sanitize) == SvgResult(false, None, Some(NotXmlError))
  {
    assert !IsJsSpace('n') && !IsJsSpace('g');
    assert Trim(NotXmlSample) == NotXmlSample;
  }
}
