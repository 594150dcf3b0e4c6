/** `parseCombinedCode` and `formatCodeForIteration` of src/lib/utils.ts:
    the split of one combined HTML document into markup, style sheet and
    script, and the template that joins the three back into a document. */
module Utils {
  import opened Strings
  import opened Search
  import opened Patterns

  /** The three parts of a combined document. */
  datatype ParsedCode = ParsedCode(html: string, css: string, js: string)

  predicate AllWithin(spans: seq<Span>, n: nat) {
    forall k :: 0 <= k < |spans| ==> Within(spans[k], n)
  }

  lemma {:induction false} ChainWithin(spans: seq<Span>, from: nat, n: nat)
    requires Chain(spans, from, n)
    ensures AllWithin(spans, n)
    decreases |spans|
  {
    if spans != [] {
      ChainWithin(spans[1..], spans[0].end, n);
      forall k | 0 <= k < |spans| ensures Within(spans[k], n) {
        if k > 0 {
          assert spans[k] == spans[1..][k - 1];
        }
      }
    }
  }

  /** Concatenation of span lists regrouped, stated over variables so the
      loop's proof need not unfold the scans. */
  lemma SpansAssoc(a: seq<Span>, b: seq<Span>, c: seq<Span>)
    ensures a + (b + c) == (a + b) + c
  {
  }

  /** The text captured by `([\s\S]*?)` in a match. */
  function Inner(s: string, sp: Span): (r: string)
    requires Within(sp, |s|)
    ensures |r| == sp.innerEnd - sp.innerStart
  {
    s[sp.innerStart..sp.innerEnd]
  }

  /** What the loop over the script matches pushes, in document order: an
      empty inner text is falsy and pushes nothing, any other is pushed
      trimmed. */
  function ScriptParts(s: string, spans: seq<Span>): (r: seq<string>)
    requires AllWithin(spans, |s|)
    ensures |r| <= |spans|
  {
    if spans == [] then []
    else
      var last := spans[|spans| - 1];
      ScriptParts(s, spans[..|spans| - 1]) +
        (if last.innerStart < last.innerEnd then [Trim(Inner(s, last))] else [])
  }

  /** One more span for the loop over the script matches. */
  lemma PartsStep(s: string, seen: seq<Span>, sp: Span)
    requires AllWithin(seen, |s|) && Within(sp, |s|)
    ensures AllWithin(seen + [sp], |s|)
    ensures ScriptParts(s, seen + [sp]) == ScriptParts(s, seen) +
      (if sp.innerStart < sp.innerEnd then [Trim(Inner(s, sp))] else [])
  {
    assert (seen + [sp])[..|seen|] == seen;
  }

  /** `css`: the inner text of the first style element, trimmed; empty when
      there is none or its inner text is empty. */
  function CssOf(s: string): (r: string)
    ensures |r| <= |s|
    ensures r == [] || (!IsSpace(r[0]) && !IsSpace(r[|r| - 1]))
  {
    match FirstElement(s, Style, 0)
    case None => ""
    case Some(sp) => if sp.innerStart < sp.innerEnd then Trim(Inner(s, sp)) else ""
  }

  /** `js`: the parts of all executable scripts joined by a blank line. */
  function JsOf(s: string): string {
    var spans := AllElements(s, Script, 0);
    ChainWithin(spans, 0, |s|);
    Join(ScriptParts(s, spans), "\n\n")
  }

  /** The body branch: the inner text of the body trimmed, then every
      executable script and every style element deleted. */
  function BodyHtml(body: string): (r: string)
    ensures |r| <= |body|
  {
    RemoveAll(RemoveAll(Trim(body), Script), Style)
  }

  /** The fallback: the first style element, all executable scripts, the
      first head element, the first `<html…>` tag and the first `</html>`
      deleted in this order, then the whole trimmed. */
  function FallbackHtml(s: string): (r: string)
    ensures |r| <= |s|
    ensures r == [] || (!IsSpace(r[0]) && !IsSpace(r[|r| - 1]))
  {
    Trim(RemoveHtmlClose(RemoveHtmlOpen(RemoveFirst(RemoveAll(RemoveFirst(s, Style), Script), Head))))
  }

  /** `html`: the body branch when the first body element has a non-empty
      inner text, the fallback otherwise. */
  function HtmlOf(s: string): (r: string)
    ensures |r| <= |s|
  {
    match FirstElement(s, Body, 0)
    case None => FallbackHtml(s)
    case Some(sp) => if sp.innerStart < sp.innerEnd then BodyHtml(Inner(s, sp)) else FallbackHtml(s)
  }

  /** The value `parseCombinedCode` returns. */
  function Parse(s: string): (r: ParsedCode)
    ensures s == [] ==> r == ParsedCode("", "", "")
    ensures |r.html| <= |s| && |r.css| <= |s|
  {
    if s == [] then ParsedCode("", "", "") else ParsedCode(HtmlOf(s), CssOf(s), JsOf(s))
  }

  /** The parser, step by step: the empty input returns three empty strings;
      otherwise `css` comes from the first style match, `js` from a loop
      over the global script search that resumes after each match, and
      `html` from the body or the fallback. */
  method ParseCombinedCode(combinedCode: string) returns (r: ParsedCode)
    ensures r == Parse(combinedCode)
    ensures combinedCode == [] ==> r == ParsedCode("", "", "")
  {
    if combinedCode == [] {
      return ParsedCode("", "", "");
    }
    var html, css, js := "", "", "";

    var styleMatch := FirstElement(combinedCode, Style, 0);
    if styleMatch.Some? && styleMatch.value.innerStart < styleMatch.value.innerEnd {
      css := Trim(Inner(combinedCode, styleMatch.value));
    }
    assert css == CssOf(combinedCode);

    var jsParts: seq<string> := [];
    ghost var seen: seq<Span> := [];
    var lastIndex := 0;
    var m := FirstElement(combinedCode, Script, lastIndex);
    while m.Some?
      invariant lastIndex <= |combinedCode|
      invariant m == FirstElement(combinedCode, Script, lastIndex)
      invariant AllElements(combinedCode, Script, 0) == seen + AllElements(combinedCode, Script, lastIndex)
      invariant AllWithin(seen, |combinedCode|)
      invariant jsParts == ScriptParts(combinedCode, seen)
      decreases |combinedCode| - lastIndex
    {
      var sp := m.value;
      if sp.innerStart < sp.innerEnd {
        jsParts := jsParts + [Trim(Inner(combinedCode, sp))];
      }
      ScanStep(combinedCode, Script, lastIndex);
      PartsStep(combinedCode, seen, sp);
      SpansAssoc(seen, [sp], AllElements(combinedCode, Script, sp.end));
      seen := seen + [sp];
      lastIndex := sp.end;
      m := FirstElement(combinedCode, Script, lastIndex);
    }
    assert seen + [] == seen;
    js := Join(jsParts, "\n\n");
    assert js == JsOf(combinedCode);

    var bodyMatch := FirstElement(combinedCode, Body, 0);
    if bodyMatch.Some? && bodyMatch.value.innerStart < bodyMatch.value.innerEnd {
      html := Trim(Inner(combinedCode, bodyMatch.value));
      html := RemoveAll(html, Script);
      html := RemoveAll(html, Style);
    } else {
      html := FallbackHtml(combinedCode);
    }
    assert html == HtmlOf(combinedCode);
    return ParsedCode(html, css, js);
  }

  /** `css` is the trimmed inner text of the leftmost style element. */
  lemma CssIsFirstStyle(s: string, sp: Span)
    requires IsMatch(s, Style, sp) && NoElementIn(s, Style, 0, sp.start)
    ensures Parse(s).css == Trim(s[sp.innerStart..sp.innerEnd])
  {
    FirstElementIs(s, Style, 0, sp);
  }

  /** Without a style element `css` is empty. */
  lemma CssAbsent(s: string)
    requires NoElementIn(s, Style, 0, |s|)
    ensures Parse(s).css == ""
  {
    FirstElementNone(s, Style, 0);
  }

  /** `js` joins the parts of the script matches of the global search, each
      of which is a match of the script pattern. */
  lemma JsIsScripts(s: string)
    ensures var spans := AllElements(s, Script, 0);
      AllWithin(spans, |s|) && AllMatch(s, Script, spans) &&
      Parse(s).js == Join(ScriptParts(s, spans), "\n\n")
  {
    var spans := AllElements(s, Script, 0);
    ChainWithin(spans, 0, |s|);
    AllElementsMatch(s, Script, 0);
    if s == [] {
      assert spans == [];
    }
  }

  /** When no script has an empty inner text, there is one part per script,
      in document order, each the trimmed inner text; a script holding only
      white space gives an empty part. */
  lemma {:induction false} ScriptPartsAllNonEmpty(s: string, spans: seq<Span>)
    requires AllWithin(spans, |s|)
    requires forall k :: 0 <= k < |spans| ==> spans[k].innerStart < spans[k].innerEnd
    ensures var r := ScriptParts(s, spans);
      |r| == |spans| && forall k :: 0 <= k < |r| ==> r[k] == Trim(Inner(s, spans[k]))
    decreases |spans|
  {
    if spans != [] {
      var init := spans[..|spans| - 1];
      assert AllWithin(init, |s|) by {
        forall k | 0 <= k < |init| ensures Within(init[k], |s|) {
          assert init[k] == spans[k];
        }
      }
      forall k | 0 <= k < |init| ensures init[k].innerStart < init[k].innerEnd {
        assert init[k] == spans[k];
      }
      ScriptPartsAllNonEmpty(s, init);
    }
  }

  /** The body branch: a leftmost body element with a non-empty inner text
      gives that text trimmed, with every script and every style element
      removed, and no final trim. */
  lemma BodyBranch(s: string, sp: Span)
    requires IsMatch(s, Body, sp) && NoElementIn(s, Body, 0, sp.start)
    requires sp.innerStart < sp.innerEnd
    ensures Parse(s).html == RemoveAll(RemoveAll(Trim(s[sp.innerStart..sp.innerEnd]), Script), Style)
  {
    FirstElementIs(s, Body, 0, sp);
  }

  /** The fallback: taken when there is no body element, or when the first
      one has an empty inner text. */
  lemma FallbackBranch(s: string)
    requires s != []
    requires forall sp :: IsMatch(s, Body, sp) && NoElementIn(s, Body, 0, sp.start) ==>
      sp.innerStart == sp.innerEnd
    ensures Parse(s).html == FallbackHtml(s)
  {
    var f := FirstElement(s, Body, 0);
    if f.Some? {
      FirstElementIs(s, Body, 0, f.value);
    }
  }

  /** Text that holds none of the tags the parser looks for takes the
      fallback, where every removal leaves it as it is: `html` is the
      whole text trimmed. */
  lemma FallbackPlain(s: string)
    requires s != []
    requires Free(s, Open(Body)) && Free(s, Open(Style)) && Free(s, Open(Script)) && Free(s, Open(Head))
    requires Free(s, "<html") && Free(s, "</html>")
    ensures Parse(s).html == Trim(s)
  {
    NoOpenNoElement(s, Body, 0, |s|);
    FirstElementNone(s, Body, 0);
    NoOpenNoElement(s, Style, 0, |s|);
    RemoveNothing(s, Style);
    NoOpenNoElement(s, Script, 0, |s|);
    RemoveNothing(s, Script);
    NoOpenNoElement(s, Head, 0, |s|);
    RemoveNothing(s, Head);
    RemoveHtmlOpenNone(s);
    RemoveHtmlCloseIs(s, 0);
  }

  /** The fixed text of the document template, cut before each tag and at
      white space. Everything before the style sheet: */
  const Preamble: string :=
    "<!DOCTYPE" + " html>\n" + "<html" + " lang=\"en\">\n" + "<head>\n    " +
    "<meta" + " charset=\"UTF-8\">\n    " +
    "<meta" + " name=\"viewport\"" + " content=\"width=device-width," + " initial-scale=1.0\">\n    " +
    "<title>Game" + "</title>\n    "

  const StyleOpen: string := "<style>\n"

  /** Between the style sheet and the markup. */
  const StyleToBody: string := "\n    " + "</style>\n" + "</head>\n" + "<body>\n"

  /** Between the markup and the script. */
  const BodyToScript: string := "\n    " + "<script>\n"

  /** After the script. */
  const ScriptToEnd: string := "\n    " + "</script>\n" + "</body>\n" + "</html>"

  /** The number of characters the template adds to the three fragments. */
  const TemplateLength: nat := 251

  /** The document with the three fragments spliced in, before the final
      `trim`. */
  function Document(html: string, css: string, js: string): string {
    Preamble + StyleOpen + css + StyleToBody + html + BodyToScript + js + ScriptToEnd
  }

  /** `formatCodeForIteration`: the template literal opens with a line break
      and closes with a line break and two spaces, and `trim` removes
      exactly those, whatever the fragments hold. */
  function FormatCodeForIteration(html: string, css: string, js: string): (r: string)
    ensures r == Preamble + StyleOpen + css + StyleToBody + html + BodyToScript + js + ScriptToEnd
    ensures |r| == TemplateLength + |css| + |html| + |js|
    ensures r[..15] == "<!DOCTYPE html>" && r[|r| - 7..] == "</html>"
  {
    var doc := Document(html, css, js);
    DocumentUnpadded(html, css, js);
    TrimOfPadded("\n", doc, "\n  ");
    Trim("\n" + doc + "\n  ")
  }

  /** The document starts with `<!DOCTYPE html>` and ends with `</html>`,
      so the final `trim` keeps it whole. */
  lemma DocumentUnpadded(html: string, css: string, js: string)
    ensures var doc := Document(html, css, js);
      |doc| == TemplateLength + |css| + |html| + |js| &&
      doc[..15] == "<!DOCTYPE html>" && doc[|doc| - 7..] == "</html>" &&
      Trim(doc) == doc
  {
    var doc := Document(html, css, js);
    var middle := StyleOpen + css + StyleToBody + html + BodyToScript + js;
    Regroup(Preamble, StyleOpen, css, StyleToBody, html, BodyToScript, js, ScriptToEnd);
    DocumentEnds(Preamble, middle, ScriptToEnd);
    TrimUnpadded(doc);
  }

  /** Eight pieces regrouped as first, middle and last; stated over
      variables so the template literals stay folded. */
  lemma Regroup(a: string, b: string, c: string, d: string, e: string, f: string, g: string, h: string)
    ensures a + b + c + d + e + f + g + h == a + (b + c + d + e + f + g) + h
  {
  }

  lemma DocumentEnds(a: string, b: string, c: string)
    requires a == Preamble && c == ScriptToEnd
    ensures var doc := a + b + c;
      |doc| == |a| + |b| + |c| &&
      doc[..15] == "<!DOCTYPE html>" && doc[|doc| - 7..] == "</html>"
  {
    var doc := a + b + c;
    assert a[..15] == "<!DOCTYPE html>";
    assert doc[..15] == a[..15];
    assert c[|c| - 7..] == "</html>";
    assert doc[|doc| - 7..] == c[|c| - 7..];
  }
}
