# parseCombinedCode and formatCodeForIteration in Dafny

A model of the two string functions in `src/lib/utils.ts`:

- `formatCodeForIteration(html, css, js)` splices a style sheet, markup and a
  script into a fixed HTML document template and trims the result.
- `parseCombinedCode(combinedCode)` goes the other way. It splits one combined
  document into `{html, css, js}` by searching the raw text for a handful of
  regular expressions:
  - `css` is the first `<style>` element;
  - `js` is every executable `<script>` element, joined by a blank line;
  - `html` is the `<body>` contents with scripts and styles deleted, or a
    fallback that strips the first style, all scripts, the head and the
    `<html>` tags.

The project is organised in five modules:

- `Strings` (`strings.dfy`): JavaScript's white space, ASCII case folding,
  `trimStart`, `trimEnd`, `trim` and `join`.
- `Search` (`search.dfy`): case-insensitive search for a literal (`Find`,
  the leftmost occurrence), with the facts about searching in a
  concatenation.
- `Patterns` (`patterns.dfy`): each regular expression of the parser, written
  as the search it performs:
  - `TagEnd` is the opening tag `<tag…>`, ended by its first `>`, with the
    negative lookahead (`HasDataType`) for scripts;
  - `ElementAt` is one attempt at a position;
  - `FirstElement` is a non-global search;
  - `AllElements` is a global search that resumes at the end of each match;
  - `RemoveFirst` and `RemoveAll` are `replace(…, '')` without and with the
    `g` flag;
  - `RemoveHtmlOpen` and `RemoveHtmlClose` delete the `<html…>` tag and
    `</html>`.

  `IsMatch` states what a match is without searching. The lemmas tie each
  search to it: leftmost, complete, sound.
- `Utils` (`utils.dfy`):
  - `ParsedCode`;
  - the specification functions `CssOf`, `JsOf`, `BodyHtml`, `FallbackHtml`,
    `HtmlOf` and `Parse`;
  - the imperative `ParseCombinedCode`, whose loop over the global script
    search fills `jsParts` the way the source's `for…of` over `matchAll`
    does;
  - the template and `FormatCodeForIteration`.
- `RoundTrip` (`roundtrip.dfy`): the round trip. Parsing a formatted document
  gives back `trim(css)`, `trim(js)`, and markup whose trim is `trim(html)`,
  provided the fragments contain none of the six tags that delimit the
  parts.

## Model

| member | source | states |
|---|---|---|
| Utils.ParseCombinedCode | src/lib/utils.ts:14-61 | The method's result equals `Parse` for every input, so it is total. The empty input gives three empty strings. The loop invariant keeps `jsParts` equal to the parts of the script matches seen so far. |
| Utils.Parse | src/lib/utils.ts:14-61 | The empty input gives three empty strings. Neither `html` nor `css` is longer than the input. |
| Utils.CssOf | src/lib/utils.ts:24-27 | `css` is no longer than the input and neither starts nor ends with white space. |
| Utils.ScriptParts | src/lib/utils.ts:33-37 | There are at most as many parts as script matches. |
| Utils.BodyHtml | src/lib/utils.ts:44-47 | The body branch never lengthens the body's inner text. |
| Utils.FallbackHtml | src/lib/utils.ts:51-57 | The fallback is no longer than the input and neither starts nor ends with white space. |
| Utils.HtmlOf | src/lib/utils.ts:42-58 | `html` is never longer than the input. |
| Utils.CssIsFirstStyle | src/lib/utils.ts:24-27 | With a leftmost style match, `css` is its inner text, trimmed. |
| Utils.CssAbsent | src/lib/utils.ts:24-27 | Without any style match, `css` is empty. |
| Utils.JsIsScripts | src/lib/utils.ts:31-38 | `js` is the join, with a blank line, of the parts of the global script search in document order. Every span of that search is a match of the script pattern. |
| Utils.ScriptPartsAllNonEmpty | src/lib/utils.ts:33-37 | When no script is empty inside, there is exactly one part per script, each its trimmed inner text, so a script holding only white space gives an empty part. |
| Utils.BodyBranch | src/lib/utils.ts:42-47 | With a leftmost body match that is non-empty inside, `html` is that text trimmed, then with all scripts and all styles removed. There is no trim after the removals. |
| Utils.FallbackBranch | src/lib/utils.ts:48-58 | Without a body match, or when the leftmost one is empty inside, `html` is the fallback. The fallback removes the first style, all scripts, the first head, the `<html…>` tag and the first `</html>`, in that order, then trims. |
| Utils.FallbackPlain | src/lib/utils.ts:48-58 | Text holding none of the tags the parser looks for comes back as `html` only trimmed: every removal of the fallback leaves it as it is. |
| Utils.FormatCodeForIteration | src/lib/utils.ts:63-83 | The result is the fixed preamble, css, fixed text, html, fixed text, js and fixed end, in that order. Its length is 251 plus the three fragment lengths. It starts with `<!DOCTYPE html>` and ends with `</html>`. |
| Utils.DocumentUnpadded | src/lib/utils.ts:64-82 | The spliced document has no white space at either end, so the final `trim` removes only the template literal's leading line break and trailing indentation. |
| Patterns.TagEndIs | src/lib/utils.ts:24 | The opening-tag search finds `g` exactly when `<tag` starts at `p`, the first `>` after it is at `g` and, for a script, the attributes carry no data type. |
| Patterns.ElementAtSound | src/lib/utils.ts:24 | A successful attempt at a position is a match: an opening tag, then the nearest closing tag. |
| Patterns.ElementAtComplete | src/lib/utils.ts:24 | Every match is what the attempt at its start returns. |
| Patterns.FirstElementIs | src/lib/utils.ts:24 | The non-global search returns `sp` exactly when `sp` is a match and no match starts before it. |
| Patterns.FirstElementNone | src/lib/utils.ts:24 | The non-global search finds nothing exactly when no match starts at or after the search start. |
| Patterns.FirstElementLeftmost | src/lib/utils.ts:42 | Whenever an attempt succeeds at some position, the search finds a match that starts there or earlier. |
| Patterns.FirstElementSkips | src/lib/utils.ts:42 | Positions where `<tag` does not occur do not change what the search finds. |
| Patterns.FirstElementAfterNoOpen | src/lib/utils.ts:42 | A match with no `<tag` before it is the one the search finds. |
| Patterns.FirstElementNoOpen | src/lib/utils.ts:42 | Nothing is found after the last `<tag`. |
| Patterns.AllElementsMatch | src/lib/utils.ts:31-33 | Every span of the global search is a match of the pattern. |
| Patterns.AllElementsFound | src/lib/utils.ts:31-33 | Every span of the global search is what the attempt at its start returns. |
| Patterns.AllElementsCover | src/lib/utils.ts:31-33 | The global search misses no match: each one is found, or starts inside a match found before it. |
| Patterns.DataTypeFromIs | src/lib/utils.ts:31 | The lookahead rejects a tag exactly when a data-type attribute starts somewhere in its attribute text. |
| Patterns.DataTypeWritten | src/lib/utils.ts:31 | `type`, any white space, `=`, any white space, then `application/json`, `application/ld+json` or `text/template` between equal quotes rejects the script. |
| Patterns.MismatchedQuotes | src/lib/utils.ts:31 | One of those data types between a double and a single quote, in either order, is not a data value, because the back-reference asks for the opening quote. |
| Patterns.SkipSpaces | src/lib/utils.ts:31 | `\s*` consumes exactly the run of white space: everything it skips is white space, and it stops at the end or at a character that is not. |
| Patterns.NoQuoteNoDataType | src/lib/utils.ts:31 | Attribute text without quotes never rejects a script, so an unquoted type does not count. |
| Patterns.NotDataTagAt | src/lib/utils.ts:31 | No executable script's opening tag starts where a tag with a data type does. |
| Patterns.DataScriptSkipped | src/lib/utils.ts:31-33 | No span of the global script search starts at the opening tag of a script that carries a data type. |
| Patterns.DataScriptUntouched | src/lib/utils.ts:31-38 | Take a data script that lies inside no executable script's match and holds no other `<script` after its first character. No executable script's match reaches into its text, and neither does any inner text, so none of it goes into `js`. |
| Patterns.DataScriptKept | src/lib/utils.ts:46-47 | Such a data script survives the global deletion: its whole text occurs in the result, at the offset `KeptAt` gives. |
| Patterns.RemoveAllKeeps | src/lib/utils.ts:46-47 | The global deletion keeps, whole and in one piece, any text that no match reaches into. |
| Patterns.CutKeeps | src/lib/utils.ts:46-47 | Deleting a chain of spans keeps any stretch of text that no span overlaps, at the start less the characters deleted before it. |
| Patterns.RemoveFirstIs | src/lib/utils.ts:52 | The single replacement deletes exactly the leftmost match. |
| Patterns.RemoveNothing | src/lib/utils.ts:46-47 | Without a match, both replacements leave the text unchanged. |
| Patterns.CutLength | src/lib/utils.ts:46-53 | Deleting the spans of a global search removes exactly their characters. |
| Patterns.FirstOpenTagSound | src/lib/utils.ts:55 | The `<html…>` search returns a tag that ends at the first `>` after `<html`, with no such tag before it. |
| Patterns.FirstOpenTagLeftmost | src/lib/utils.ts:55 | The `<html…>` search finds a tag whenever one exists, and never one after another. |
| Patterns.RemoveHtmlOpenIs | src/lib/utils.ts:55 | The leftmost `<html…>` tag is deleted, from its `<` through its first `>`. |
| Patterns.RemoveHtmlOpenNone | src/lib/utils.ts:55 | Without an `<html…>` tag the text is unchanged. |
| Patterns.RemoveHtmlCloseIs | src/lib/utils.ts:56 | The leftmost `</html>` is deleted. Without one the text is unchanged. |
| Patterns.TagEnd | src/lib/utils.ts:24 | A found opening tag ends at a `>` after `<tag`. |
| Patterns.ElementAt | src/lib/utils.ts:24 | A successful attempt starts where it was made and its span lies within the text. |
| Patterns.FirstElement | src/lib/utils.ts:24 | The non-global search finds a span at or after its start, within the text. |
| Patterns.AllElements | src/lib/utils.ts:31-33 | The global search's spans are in order and do not overlap: each starts at or after the end of the one before. |
| Patterns.Cut | src/lib/utils.ts:46-47 | Deleting spans never lengthens the text; deleting none keeps it. |
| Patterns.RemoveFirst | src/lib/utils.ts:52 | The single replacement never lengthens the text, and changes it exactly when there is a match. |
| Patterns.RemoveAll | src/lib/utils.ts:46-47 | The global replacement shortens the text by exactly the total length of the matches. |
| Patterns.RemoveAllChanges | src/lib/utils.ts:46-47 | The global replacement changes the text exactly when there is a match. |
| Patterns.FirstOpenTag | src/lib/utils.ts:55 | A found `<html…>` tag starts with `<html`, ends with `>`, and lies at or after the search start. |
| Patterns.RemoveHtmlOpen | src/lib/utils.ts:55 | Removing the `<html…>` tag never lengthens the text, and changes it exactly when there is such a tag. |
| Patterns.RemoveHtmlClose | src/lib/utils.ts:56 | Removing `</html>` never lengthens the text, and changes it exactly when `</html>` occurs. |
| Patterns.NextGt | src/lib/utils.ts:24 | A found end is a `>` at or after the start. |
| Patterns.NextGtIs | src/lib/utils.ts:24 | `[^>]*>` ends at `j` exactly when `j` holds the first `>` from the start on. |
| Search.Find | src/lib/utils.ts:24 | A found position is at or after the start, and the literal occurs there, ignoring ASCII case. |
| Search.FindIs | src/lib/utils.ts:24 | The lazy inner text stops at `j` exactly when the closing tag occurs at `j` and nowhere between the search start and `j`. |
| Search.FindFirst | src/lib/utils.ts:24 | No occurrence lies before what the search returns, nor anywhere when it returns nothing. |
| Strings.Trim | src/lib/utils.ts:26 | `trim` never lengthens its input, and its result neither starts nor ends with white space. |
| Strings.TrimInfix | src/lib/utils.ts:26 | `trim` keeps a contiguous infix of its input, with only white space cut on either side. |
| Strings.TrimOfPadded | src/lib/utils.ts:82 | Trimming white space added around text that has none at its ends gives that text back. |
| Strings.Join | src/lib/utils.ts:38 | The join's length is the parts' total length plus one separator between neighbours. It starts with the first part. |
| RoundTrip.CssRoundTrip | src/lib/utils.ts:24-27 | On a formatted document, `css` is the trimmed style sheet. |
| RoundTrip.JsFromScript | src/lib/utils.ts:31-38 | On a formatted document, the template's script is the only executable one, and `js` is the trimmed script. |
| RoundTrip.HtmlFromBody | src/lib/utils.ts:42-44 | On a formatted document, the body branch runs on the markup followed by the template's script. |
| RoundTrip.BodyHtmlWritten | src/lib/utils.ts:44-47 | That body branch gives the markup trimmed at its start, with the template's indentation after it. |
| RoundTrip.ParseOfFormat | src/lib/utils.ts:14-82 | The round trip for tag-free fragments: css and js come back trimmed, and html comes back such that its trim is the trimmed markup. |
| RoundTrip.MarkupKeepsIndent | src/lib/utils.ts:44-47 | Markup that ends in a character other than white space comes back followed by a line break and four spaces. |
| RoundTrip.MarkupNotTrimmed | src/lib/utils.ts:44-47 | Such markup therefore does not come back equal to its trim. |
| RoundTrip.OnlyElement | src/lib/utils.ts:31-33 | An element written with `<tag` nowhere else around it is the only span of the global search. |
| RoundTrip.FirstElementWritten | src/lib/utils.ts:24 | A written element with no `<tag` before it is the first match, and its inner text is what was written. |

## Left out

- `cn` (src/lib/utils.ts:4-6) wraps the `clsx` and `tailwind-merge` libraries, whose code is not part of this model.
- The callers in `src/app/page.tsx` and the AI flows are not part of this model. They are UI and calls to a remote model.
- JavaScript strings are sequences of UTF-16 code units; here a string is a sequence of Unicode scalar values. The patterns and the template are ASCII, but a surrogate pair counts as one character here and two in the source, so positions in text with astral characters differ.
- The regular-expression engine itself is not modelled: each of the parser's patterns is written out as the search it performs.
- The body branch (src/lib/utils.ts:44-47) trims the body text before deleting scripts and styles, and not after. So a round trip gives `trim(html) == trim(markup)` (`RoundTrip.ParseOfFormat`), and `html` itself keeps the template's indentation (`RoundTrip.MarkupNotTrimmed`).
- Utils.FormatCodeForIteration: states the exact concatenation, not that each fragment occurs only once in the result, because a fragment may itself contain the text of the template or of another fragment.
- Patterns.DataScriptSkipped: states only that no span starts at the data script's tag. Its text can still be swallowed by an earlier executable script whose match runs past it. `Patterns.DataScriptUntouched` and `Patterns.DataScriptKept` give the strong form when no script match covers the tag.
- Patterns.DataScriptKept: states that the data script survives `RemoveAll` on the text it is given, not that it reaches the final `html`, because the body branch first cuts the document down to the body's inner text.
