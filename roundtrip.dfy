/** The round trip between the two functions of src/lib/utils.ts: a
    document built by `formatCodeForIteration` from fragments that contain
    none of the tags the parser looks for is split back by
    `parseCombinedCode` into the same fragments, up to white space at their
    ends. */
module RoundTrip {
  import opened Strings
  import opened Search
  import opened Patterns
  import opened Utils

  /** The fragment holds none of the six tags that delimit the parts. */
  predicate TagFree(x: string) {
    Free(x, Open(Style)) && Free(x, Close(Style)) &&
    Free(x, Open(Script)) && Free(x, Close(Script)) &&
    Free(x, Open(Body)) && Free(x, Close(Body))
  }

  lemma TagPatterns(t: Tag)
    ensures TagPattern(Open(t)) && TagPattern(Close(t))
  {
    match t
    case Style => StylePatterns();
    case Script => ScriptPatterns();
    case Body => BodyPatterns();
    case Head => HeadPatterns();
  }

  lemma StylePatterns()
    ensures TagPattern("<style") && TagPattern("</style>")
  {
    assert "<style"[1..] == "style" && "</style>"[1..] == "/style>";
  }

  lemma ScriptPatterns()
    ensures TagPattern("<script") && TagPattern("</script>")
  {
    assert "<script"[1..] == "script" && "</script>"[1..] == "/script>";
  }

  lemma BodyPatterns()
    ensures TagPattern("<body") && TagPattern("</body>")
  {
    assert "<body"[1..] == "body" && "</body>"[1..] == "/body>";
  }

  lemma HeadPatterns()
    ensures TagPattern("<head") && TagPattern("</head>")
  {
    assert "<head"[1..] == "head" && "</head>"[1..] == "/head>";
  }

  /** A piece free of a tag pattern and followed across a seam holds no
      match in the longer text either. */
  lemma NoMatchBefore(a: string, b: string, pat: string)
    requires TagPattern(pat) && Seam(a, b) && Free(a, pat)
    ensures NoMatchIn(a + b, pat, 0, |a|)
  {
    forall q | 0 <= q < |a| ensures !MatchesAt(a + b, q, pat) {
      if q + |pat| <= |a| {
        MatchesInPrefix(a, b, q, pat);
      } else {
        NoStraddle(a, b, pat, q);
      }
    }
  }

  /** `<tag>` written at the end of `a` is an opening tag without
      attributes. */
  lemma OpeningWritten(s: string, a: string, t: Tag, rest: string)
    requires TagPattern(Open(t)) && s == a + (Open(t) + (">" + rest))
    ensures OpeningTag(s, t, |a|, |a| + |Open(t)| + 1)
  {
    var o := |a| + |Open(t)|;
    MatchesShifted(a, Open(t) + (">" + rest), 0, Open(t));
    MatchesOwnPrefix(Open(t), ">" + rest);
    assert s[o] == '>';
    assert s[o..o] == [];
  }

  /** The inner text of a written element runs to its `</tag>`. */
  lemma InnerWritten(s: string, y: string, t: Tag, inner: string, b: string)
    requires TagPattern(Close(t)) && Free(inner, Close(t)) && s == y + (inner + (Close(t) + b))
    ensures LazyInner(s, t, |y|, |y| + |inner|) && s[|y|..|y| + |inner|] == inner
  {
    var tail := inner + (Close(t) + b);
    assert s[|y|..|y| + |inner|] == inner;
    MatchesShifted(y, tail, |inner|, Close(t));
    MatchesShifted(inner, Close(t) + b, 0, Close(t));
    MatchesOwnPrefix(Close(t), b);
    NoMatchBefore(inner, Close(t) + b, Close(t));
    forall q | |y| <= q < |y| + |inner| ensures !MatchesAt(s, q, Close(t)) {
      MatchesShifted(y, tail, q - |y|, Close(t));
    }
  }

  /** An element written out as `<tag>` + inner + `</tag>`, with no `</tag>`
      in its inner text, is a match. */
  lemma ElementWritten(s: string, t: Tag, a: string, inner: string, b: string)
    requires s == a + (Open(t) + (">" + (inner + (Close(t) + b))))
    requires Free(inner, Close(t))
    ensures var o := |a| + |Open(t)| + 1;
      IsMatch(s, t, Span(|a|, o, o + |inner|, o + |inner| + |Close(t)|)) && s[o..o + |inner|] == inner
  {
    TagPatterns(t);
    OpeningWritten(s, a, t, inner + (Close(t) + b));
    assert s == a + Open(t) + ">" + (inner + (Close(t) + b));
    InnerWritten(s, a + Open(t) + ">", t, inner, b);
  }

  /** Written after a piece free of `<tag`, that element is the first match. */
  lemma FirstElementWritten(s: string, t: Tag, a: string, inner: string, b: string)
    requires s == a + (Open(t) + (">" + (inner + (Close(t) + b))))
    requires Free(a, Open(t)) && Free(inner, Close(t))
    ensures var o := |a| + |Open(t)| + 1;
      FirstElement(s, t, 0) == Some(Span(|a|, o, o + |inner|, o + |inner| + |Close(t)|)) &&
      s[o..o + |inner|] == inner
  {
    TagPatterns(t);
    var o := |a| + |Open(t)| + 1;
    var sp := Span(|a|, o, o + |inner|, o + |inner| + |Close(t)|);
    ElementWritten(s, t, a, inner, b);
    NoMatchBefore(a, Open(t) + (">" + (inner + (Close(t) + b))), Open(t));
    assert IsMatch(s, t, sp) && NoMatchIn(s, Open(t), 0, sp.start);
    FirstElementAfterNoOpen(s, t, sp);
  }

  /** After a position past which `<tag` never occurs, neither search
      finds anything more. */
  lemma NoElementAfter(a: string, b: string, t: Tag)
    requires Free(b, Open(t))
    ensures FirstElement(a + b, t, |a|).None? && AllElements(a + b, t, |a|) == []
  {
    FreeAfter(a, b, Open(t));
    FirstElementNoOpen(a + b, t, |a|);
  }

  /** A piece that starts with its only `<` and differs from the pattern at
      position `k` holds no occurrence of it. */
  lemma LedFree(c: string, pat: string, k: nat)
    requires TagPattern(pat) && c != [] && c[0] == '<' && '<' !in c[1..]
    requires k < |pat| && (k >= |c| || Lower(c[k]) != pat[k])
    ensures Free(c, pat)
  {
    Mismatch(c, 0, pat, k);
    FreeLed(c, pat);
  }

  /** Pieces free of a pattern, each opening with `<` or white space, are
      free of it together. */
  lemma FreeFour(a: string, b: string, c: string, d: string, pat: string)
    requires TagPattern(pat) && Free(a, pat) && Free(b, pat) && Free(c, pat) && Free(d, pat)
    requires b != [] && (b[0] == '<' || IsSpace(b[0]))
    requires c != [] && (c[0] == '<' || IsSpace(c[0]))
    requires d != [] && (d[0] == '<' || IsSpace(d[0]))
    ensures Free(a + b + c + d, pat)
  {
    FreeConcat(a, b, pat);
    FreeConcat(a + b, c, pat);
    FreeConcat(a + b + c, d, pat);
  }

  /** The document as thirteen pieces, regrouped around the style sheet;
      stated over variables so the template literals stay folded. */
  lemma Thirteen(c1: string, c2: string, c3: string, c4: string, c5: string, c6: string,
                 c7: string, c8: string, c9: string, c10: string, c11: string, c12: string, c13: string)
    ensures c1 + c2 + c3 + c4 + c5 + c6 + c7 + c8 + c9 + c10 + c11 + c12 + c13 ==
      (c1 + c2 + c3 + c4) + (c5 + c6 + c7) + (c8 + c9 + c10) + (c11 + c12 + c13)
  {
  }

  lemma PreambleGroup1(pat: string)
    requires TagPattern(pat) && |pat| > 1 && (pat[1] == 's' || pat[1] == 'b')
    ensures Free("<!DOCTYPE" + " html>\n" + "<html" + " lang=\"en\">\n", pat)
  {
    LedFree("<!DOCTYPE", pat, 1);
    FreeWithoutLt(" html>\n", pat);
    LedFree("<html", pat, 1);
    FreeWithoutLt(" lang=\"en\">\n", pat);
    FreeFour("<!DOCTYPE", " html>\n", "<html", " lang=\"en\">\n", pat);
  }

  lemma PreambleGroup2(pat: string)
    requires TagPattern(pat) && |pat| > 1 && (pat[1] == 's' || pat[1] == 'b')
    ensures Free("<head>\n    " + "<meta" + " charset=\"UTF-8\">\n    ", pat)
  {
    LedFree("<head>\n    ", pat, 1);
    LedFree("<meta", pat, 1);
    FreeWithoutLt(" charset=\"UTF-8\">\n    ", pat);
    FreeConcat("<head>\n    ", "<meta", pat);
    FreeConcat("<head>\n    " + "<meta", " charset=\"UTF-8\">\n    ", pat);
  }

  lemma PreambleGroup3(pat: string)
    requires TagPattern(pat) && |pat| > 1 && (pat[1] == 's' || pat[1] == 'b')
    ensures Free("<meta" + " name=\"viewport\"" + " content=\"width=device-width,", pat)
  {
    LedFree("<meta", pat, 1);
    FreeWithoutLt(" name=\"viewport\"", pat);
    FreeWithoutLt(" content=\"width=device-width,", pat);
    FreeConcat("<meta", " name=\"viewport\"", pat);
    FreeConcat("<meta" + " name=\"viewport\"", " content=\"width=device-width,", pat);
  }

  lemma PreambleGroup4(pat: string)
    requires TagPattern(pat) && |pat| > 1 && (pat[1] == 's' || pat[1] == 'b')
    ensures Free(" initial-scale=1.0\">\n    " + "<title>Game" + "</title>\n    ", pat)
  {
    FreeWithoutLt(" initial-scale=1.0\">\n    ", pat);
    LedFree("<title>Game", pat, 1);
    LedFree("</title>\n    ", pat, 1);
    FreeConcat(" initial-scale=1.0\">\n    ", "<title>Game", pat);
    FreeConcat(" initial-scale=1.0\">\n    " + "<title>Game", "</title>\n    ", pat);
  }

  /** The fixed text before the style sheet holds no `<style`, `<script` or
      `<body`. */
  lemma PreambleFree(pat: string)
    requires TagPattern(pat) && |pat| > 1 && (pat[1] == 's' || pat[1] == 'b')
    ensures Free(Preamble, pat)
  {
    Thirteen("<!DOCTYPE", " html>\n", "<html", " lang=\"en\">\n", "<head>\n    ",
      "<meta", " charset=\"UTF-8\">\n    ",
      "<meta", " name=\"viewport\"", " content=\"width=device-width,", " initial-scale=1.0\">\n    ",
      "<title>Game", "</title>\n    ");
    PreambleGroup1(pat);
    PreambleGroup2(pat);
    PreambleGroup3(pat);
    PreambleGroup4(pat);
    FreeFour("<!DOCTYPE" + " html>\n" + "<html" + " lang=\"en\">\n",
      "<head>\n    " + "<meta" + " charset=\"UTF-8\">\n    ",
      "<meta" + " name=\"viewport\"" + " content=\"width=device-width,",
      " initial-scale=1.0\">\n    " + "<title>Game" + "</title>\n    ", pat);
  }

  /** The tags as the template writes them, each followed by a line break. */
  lemma TagTexts()
    ensures "<style>\n" == Open(Style) + (">" + "\n") && "</style>\n" == Close(Style) + "\n"
    ensures "<body>\n" == Open(Body) + (">" + "\n") && "</body>\n" == Close(Body) + "\n"
    ensures "<script>\n" == Open(Script) + (">" + "\n") && "</script>\n" == Close(Script) + "\n"
  {
  }

  /** A line break before and an indented line break after keep a piece
      free of a tag. */
  lemma PaddedFree(x: string, pat: string)
    requires TagPattern(pat) && Free(x, pat)
    ensures Free("\n" + x + "\n    ", pat)
  {
    FreeWithoutLt("\n", pat);
    FreeWithoutLt("\n    ", pat);
    FreeConcat("\n", x, pat);
    FreeConcat("\n" + x, "\n    ", pat);
  }

  /** The document regrouped as text before the style element, the
      element, and text after it; stated over variables for the same reason. */
  lemma RegroupCss(p: string, o: string, g: string, n: string, c: string, w: string, cl: string,
                   n2: string, t2: string, t3: string, h: string, bts: string, j: string, ste: string)
    ensures p + (o + (g + n)) + c + (w + (cl + n2) + t2 + t3) + h + bts + j + ste ==
      p + (o + (g + ((n + c + w) + (cl + (n2 + t2 + t3 + h + bts + j + ste)))))
  {
  }

  /** The leftmost style element of the document is the template's, and its
      inner text is the style sheet with a line break before and after. */
  lemma CssRoundTrip(h: string, c: string, j: string)
    requires TagFree(c)
    ensures Parse(FormatCodeForIteration(h, c, j)).css == Trim(c)
  {
    var doc := FormatCodeForIteration(h, c, j);
    var w := "\n    ";
    var inner := "\n" + c + w;
    var b := "\n" + "</head>\n" + "<body>\n" + h + BodyToScript + j + ScriptToEnd;
    TagTexts();
    RegroupCss(Preamble, Open(Style), ">", "\n", c, w, Close(Style), "\n", "</head>\n", "<body>\n",
      h, BodyToScript, j, ScriptToEnd);
    assert doc == Preamble + (Open(Style) + (">" + (inner + (Close(Style) + b))));
    StylePatterns();
    PreambleFree(Open(Style));
    PaddedFree(c, Close(Style));
    FirstElementWritten(doc, Style, Preamble, inner, b);
    TrimOfPadded("\n", c, w);
  }

  /** The document regrouped around the body element's inner text. */
  lemma RegroupBody(p: string, so: string, c: string, w: string, s1: string, s2: string, o: string,
                    g: string, n: string, h: string, bts: string, j: string, s4: string, cl: string,
                    n2: string, e: string)
    ensures p + so + c + (w + s1 + s2 + (o + (g + n))) + h + bts + j + (w + s4 + (cl + n2) + e) ==
      (p + so + c + w + s1 + s2) + (o + (g + ((n + h + bts + j + w + s4) + (cl + (n2 + e)))))
  {
  }

  /** Everything before the template's `<body>` is free of `<body`. */
  lemma BeforeBodyFree(c: string)
    requires TagFree(c)
    ensures Free(Preamble + StyleOpen + c + "\n    " + "</style>\n" + "</head>\n", "<body")
  {
    var pat := "<body";
    BodyPatterns();
    PreambleFree(pat);
    LedFree(StyleOpen, pat, 1);
    FreeConcat(Preamble, StyleOpen, pat);
    assert (Preamble + StyleOpen)[|Preamble + StyleOpen| - 1] == '\n';
    FreeConcat(Preamble + StyleOpen, c, pat);
    FreeWithoutLt("\n    ", pat);
    FreeConcat(Preamble + StyleOpen + c, "\n    ", pat);
    LedFree("</style>\n", pat, 1);
    FreeConcat(Preamble + StyleOpen + c + "\n    ", "</style>\n", pat);
    LedFree("</head>\n", pat, 1);
    FreeConcat(Preamble + StyleOpen + c + "\n    " + "</style>\n", "</head>\n", pat);
  }

  /** The template's body, up to its `</body>`, holds no `</body>`. */
  lemma BodyInnerFree(h: string, j: string)
    requires TagFree(h) && TagFree(j)
    ensures Free("\n" + h + BodyToScript + j + "\n    " + "</script>\n", "</body>")
  {
    var pat := "</body>";
    BodyPatterns();
    FreeWithoutLt("\n", pat);
    FreeConcat("\n", h, pat);
    FreeWithoutLt("\n    ", pat);
    LedFree("<script>\n", pat, 1);
    FreeConcat("\n    ", "<script>\n", pat);
    FreeConcat("\n" + h, BodyToScript, pat);
    FreeConcat("\n" + h + BodyToScript, j, pat);
    FreeConcat("\n" + h + BodyToScript + j, "\n    ", pat);
    LedFree("</script>\n", pat, 2);
    FreeConcat("\n" + h + BodyToScript + j + "\n    ", "</script>\n", pat);
  }

  /** A body written after a piece free of `<body`, with a non-empty inner
      text, selects the body branch on that text. */
  lemma BodyWritten(s: string, a: string, inner: string, b: string)
    requires s == a + (Open(Body) + (">" + (inner + (Close(Body) + b))))
    requires Free(a, Open(Body)) && Free(inner, Close(Body)) && inner != []
    ensures HtmlOf(s) == BodyHtml(inner)
  {
    var o := |a| + |Open(Body)| + 1;
    var sp := Span(|a|, o, o + |inner|, o + |inner| + |Close(Body)|);
    FirstElementWritten(s, Body, a, inner, b);
    assert FirstElement(s, Body, 0) == Some(sp) && Inner(s, sp) == inner;
  }

  /** The leftmost body element of the document is the template's, so the
      body branch runs on the markup and the scripts written inside it. */
  lemma HtmlFromBody(h: string, c: string, j: string)
    requires TagFree(h) && TagFree(c) && TagFree(j)
    ensures Parse(FormatCodeForIteration(h, c, j)).html ==
      BodyHtml("\n" + h + BodyToScript + j + "\n    " + "</script>\n")
  {
    var doc := FormatCodeForIteration(h, c, j);
    var w := "\n    ";
    var a := Preamble + StyleOpen + c + w + "</style>\n" + "</head>\n";
    var inner := "\n" + h + BodyToScript + j + w + "</script>\n";
    TagTexts();
    RegroupBody(Preamble, StyleOpen, c, w, "</style>\n", "</head>\n", Open(Body), ">", "\n", h,
      BodyToScript, j, "</script>\n", Close(Body), "\n", "</html>");
    assert doc == a + (Open(Body) + (">" + (inner + (Close(Body) + ("\n" + "</html>")))));
    BeforeBodyFree(c);
    BodyInnerFree(h, j);
    BodyWritten(doc, a, inner, "\n" + "</html>");
  }

  /** The document regrouped around the template's script element. */
  lemma RegroupScript(p: string, so: string, c: string, stb: string, h: string, w: string, o: string,
                      g: string, n: string, j: string, cl: string, n2: string, s5: string, e: string)
    ensures p + so + c + stb + h + (w + (o + (g + n))) + j + (w + (cl + n2) + s5 + e) ==
      (p + so + c + stb + h + w) + (o + (g + ((n + j + w) + (cl + (n2 + s5 + e)))))
  {
  }

  /** Everything before the template's `<script>` is free of `<script`. */
  lemma BeforeScriptFree(h: string, c: string)
    requires TagFree(h) && TagFree(c)
    ensures Free(Preamble + StyleOpen + c + StyleToBody + h + "\n    ", "<script")
  {
    var pat := "<script";
    ScriptPatterns();
    PreambleFree(pat);
    LedFree(StyleOpen, pat, 2);
    FreeConcat(Preamble, StyleOpen, pat);
    assert (Preamble + StyleOpen)[|Preamble + StyleOpen| - 1] == '\n';
    FreeConcat(Preamble + StyleOpen, c, pat);
    FreeWithoutLt("\n    ", pat);
    LedFree("</style>\n", pat, 1);
    LedFree("</head>\n", pat, 1);
    LedFree("<body>\n", pat, 1);
    FreeFour("\n    ", "</style>\n", "</head>\n", "<body>\n", pat);
    FreeConcat(Preamble + StyleOpen + c, StyleToBody, pat);
    FreeConcat(Preamble + StyleOpen + c + StyleToBody, h, pat);
    FreeConcat(Preamble + StyleOpen + c + StyleToBody + h, "\n    ", pat);
  }

  /** What follows the template's `</script>` holds no `<script`. */
  lemma AfterScriptFree()
    ensures Free("\n" + "</body>\n" + "</html>", "<script")
  {
    var pat := "<script";
    ScriptPatterns();
    FreeWithoutLt("\n", pat);
    LedFree("</body>\n", pat, 1);
    LedFree("</html>", pat, 1);
    FreeConcat("\n", "</body>\n", pat);
    FreeConcat("\n" + "</body>\n", "</html>", pat);
  }

  /** An element written between a piece free of `<tag` and a piece free
      of `<tag` is the only one the global search finds. */
  lemma OnlyElement(s: string, t: Tag, a: string, inner: string, b: string)
    requires s == a + (Open(t) + (">" + (inner + (Close(t) + b))))
    requires Free(a, Open(t)) && Free(inner, Close(t)) && Free(b, Open(t))
    ensures var o := |a| + |Open(t)| + 1;
      AllElements(s, t, 0) == [Span(|a|, o, o + |inner|, o + |inner| + |Close(t)|)] &&
      s[o..o + |inner|] == inner
  {
    FirstElementWritten(s, t, a, inner, b);
    var x := a + Open(t) + ">" + inner + Close(t);
    assert s == x + b;
    NoElementAfter(x, b, t);
    ScanStep(s, t, 0);
    assert FirstElement(s, t, 0).value.end == |x|;
  }

  /** With a single script element, the script text is its inner text
      trimmed. */
  lemma JsOfOne(s: string, sp: Span)
    requires AllElements(s, Script, 0) == [sp] && sp.innerStart < sp.innerEnd
    ensures JsOf(s) == Trim(s[sp.innerStart..sp.innerEnd])
  {
    ChainWithin([sp], 0, |s|);
    assert [sp][..0] == [];
  }

  /** A single script written without attributes gives the script text. */
  lemma ScriptWritten(s: string, a: string, inner: string, b: string)
    requires s == a + (Open(Script) + (">" + (inner + (Close(Script) + b))))
    requires Free(a, Open(Script)) && Free(inner, Close(Script)) && Free(b, Open(Script))
    requires inner != []
    ensures JsOf(s) == Trim(inner)
  {
    OnlyElement(s, Script, a, inner, b);
    var o := |a| + |Open(Script)| + 1;
    JsOfOne(s, Span(|a|, o, o + |inner|, o + |inner| + |Close(Script)|));
  }

  /** The only executable script of the document is the template's, so the
      script text is the script written, trimmed. */
  lemma JsFromScript(h: string, c: string, j: string)
    requires TagFree(h) && TagFree(c) && TagFree(j)
    ensures Parse(FormatCodeForIteration(h, c, j)).js == Trim(j)
  {
    var doc := FormatCodeForIteration(h, c, j);
    var w := "\n    ";
    var a := Preamble + StyleOpen + c + StyleToBody + h + w;
    var inner := "\n" + j + w;
    var b := "\n" + "</body>\n" + "</html>";
    TagTexts();
    RegroupScript(Preamble, StyleOpen, c, StyleToBody, h, w, Open(Script), ">", "\n", j,
      Close(Script), "\n", "</body>\n", "</html>");
    assert doc == a + (Open(Script) + (">" + (inner + (Close(Script) + b))));
    BeforeScriptFree(h, c);
    AfterScriptFree();
    ScriptPatterns();
    PaddedFree(j, Close(Script));
    ScriptWritten(doc, a, inner, b);
    TrimOfPadded("\n", j, w);
  }

  /** The body's inner text regrouped as markup, then the script element. */
  lemma RegroupBodyInner(n: string, h: string, w: string, o: string, g: string, j: string, cl: string)
    ensures n + h + (w + (o + (g + n))) + j + w + (cl + n) ==
      n + ((h + w) + ((o + (g + ((n + j + w) + (cl + [])))) + n))
  {
  }

  /** A piece ending in a written element ends in `>`. */
  lemma EndsInGt(x: string, t: Tag, inner: string)
    ensures var s := x + (Open(t) + (">" + (inner + (Close(t) + []))));
      s != [] && s[|s| - 1] == '>'
  {
    var s := x + (Open(t) + (">" + (inner + (Close(t) + []))));
    assert s == (x + Open(t) + ">" + inner) + Close(t);
  }

  /** Trimming the template's body leaves the markup, trimmed at its start,
      followed by the script element. */
  lemma TrimOfBody(h: string, j: string)
    ensures var w := "\n    ";
      Trim("\n" + h + BodyToScript + j + w + "</script>\n") ==
        TrimStart(h + w) + (Open(Script) + (">" + (("\n" + j + w) + (Close(Script) + []))))
  {
    var w := "\n    ";
    var x := TrimStart(h + w);
    var z := Open(Script) + (">" + (("\n" + j + w) + (Close(Script) + [])));
    TagTexts();
    RegroupBodyInner("\n", h, w, Open(Script), ">", j, Close(Script));
    var body := "\n" + h + BodyToScript + j + w + "</script>\n";
    assert body == "\n" + ((h + w) + (z + "\n"));
    TrimStartOfSpaces("\n", (h + w) + (z + "\n"));
    TrimStartAppend(h + w, z + "\n");
    assert x + (z + "\n") == (x + z) + "\n";
    TrimEndOfSpaces(x + z, "\n");
    EndsInGt(x, Script, "\n" + j + w);
    TrimEndAppend(x + z, []);
    assert x + z + [] == x + z;
  }

  /** The global removal deletes a single script written at the end. */
  lemma ScriptsRemoved(s: string, x: string, inner: string)
    requires s == x + (Open(Script) + (">" + (inner + (Close(Script) + []))))
    requires Free(x, Open(Script)) && Free(inner, Close(Script))
    ensures RemoveAll(s, Script) == x
  {
    ScriptPatterns();
    assert Free([], Open(Script));
    OnlyElement(s, Script, x, inner, []);
    assert s[..|x|] == x;
  }

  /** The markup trimmed at its start stays free of a tag it is free of. */
  lemma TrimmedFree(h: string, pat: string)
    requires TagPattern(pat) && Free(h, pat)
    ensures Free(TrimStart(h + "\n    "), pat)
  {
    FreeWithoutLt("\n    ", pat);
    FreeConcat(h, "\n    ", pat);
    TrimStartSuffix(h + "\n    ");
    FreeSuffix(h + "\n    ", |h + "\n    "| - |TrimStart(h + "\n    ")|, pat);
  }

  /** The body branch on the template's body gives back the markup. */
  lemma BodyHtmlWritten(h: string, j: string)
    requires TagFree(h) && TagFree(j)
    ensures BodyHtml("\n" + h + BodyToScript + j + "\n    " + "</script>\n") == TrimStart(h + "\n    ")
  {
    var w := "\n    ";
    var x := TrimStart(h + w);
    TrimOfBody(h, j);
    ScriptPatterns();
    StylePatterns();
    TrimmedFree(h, Open(Script));
    TrimmedFree(h, Open(Style));
    PaddedFree(j, Close(Script));
    ScriptsRemoved(x + (Open(Script) + (">" + (("\n" + j + w) + (Close(Script) + [])))), x, "\n" + j + w);
    NoOpenNoElement(x, Style, 0, |x|);
    RemoveNothing(x, Style);
  }

  /** The template's indentation after the markup trims away. */
  lemma MarkupTrimmed(h: string)
    ensures Trim(TrimStart(h + "\n    ")) == Trim(h)
  {
    TrimAfterTrimStart(h + "\n    ");
    TrimOfPadded([], h, "\n    ");
    assert [] + h + "\n    " == h + "\n    ";
  }

  /** Parsing a formatted document gives back the style sheet and the script
      trimmed, and the markup trimmed at its start with the template's
      indentation after it: trimmed, the markup given. */
  lemma ParseOfFormat(h: string, c: string, j: string)
    requires TagFree(h) && TagFree(c) && TagFree(j)
    ensures var p := Parse(FormatCodeForIteration(h, c, j));
      p.css == Trim(c) && p.js == Trim(j) && p.html == TrimStart(h + "\n    ") && Trim(p.html) == Trim(h)
  {
    var p := Parse(FormatCodeForIteration(h, c, j));
    CssRoundTrip(h, c, j);
    JsFromScript(h, c, j);
    HtmlFromBody(h, c, j);
    BodyHtmlWritten(h, j);
    MarkupTrimmed(h);
  }

  /** The body branch does not trim after deleting the script, so the
      template's indentation before `<script>` stays at the end of the
      markup: when the markup ends in a character other than white space
      it comes back with a line break and four spaces after it. */
  lemma MarkupKeepsIndent(h: string, c: string, j: string)
    requires TagFree(h) && TagFree(c) && TagFree(j)
    requires h != [] && !IsSpace(h[|h| - 1])
    ensures Parse(FormatCodeForIteration(h, c, j)).html == TrimStart(h) + "\n    "
  {
    ParseOfFormat(h, c, j);
    TrimStartKeepsTail(h, "\n    ");
  }

  /** Such markup therefore does not come back trimmed. */
  lemma MarkupNotTrimmed(h: string, c: string, j: string)
    requires TagFree(h) && TagFree(c) && TagFree(j)
    requires h != [] && !IsSpace(h[|h| - 1])
    ensures Parse(FormatCodeForIteration(h, c, j)).html != Trim(h)
  {
    MarkupKeepsIndent(h, c, j);
    TrimStartPlusNotTrim(h, "\n    ");
  }
}
