/** The regular expressions of src/lib/utils.ts, each written out as the
    search it performs rather than through a general regex engine. An
    element pattern (style, script, body, head) opens with `<tag`, runs to
    the first `>`, and captures lazily up to the nearest `</tag>`; the
    script pattern adds a negative lookahead that rejects an opening tag
    carrying a quoted data type; two more patterns delete the `<html…>`
    tag and `</html>`. Matching is ASCII case-insensitive (the `i` flag);
    the `m` flag changes nothing because no pattern uses `^` or `$`. */
module Patterns {
  import opened Strings
  import opened Search

  /** The elements the parser looks for. */
  datatype Tag = Style | Script | Body | Head

  function Open(t: Tag): string {
    match t
    case Style => "<style"
    case Script => "<script"
    case Body => "<body"
    case Head => "<head"
  }

  function Close(t: Tag): string {
    match t
    case Style => "</style>"
    case Script => "</script>"
    case Body => "</body>"
    case Head => "</head>"
  }

  /** One match: [start, end) is the whole element and [innerStart, innerEnd)
      the text captured by `([\s\S]*?)`. */
  datatype Span = Span(start: nat, innerStart: nat, innerEnd: nat, end: nat)

  predicate Within(sp: Span, n: nat) {
    sp.start < sp.innerStart <= sp.innerEnd < sp.end <= n
  }

  /** The first `>` at or after `i`: how `[^>]*>` ends an opening tag. */
  function NextGt(s: string, i: nat): (r: Option<nat>)
    ensures r.Some? ==> i <= r.value < |s| && s[r.value] == '>'
    decreases |s| - i
  {
    if i >= |s| then None
    else if s[i] == '>' then Some(i)
    else NextGt(s, i + 1)
  }

  /** No `>` at a position in [a, b). */
  predicate NoGtIn(s: string, a: nat, b: nat)
    requires b <= |s|
  {
    forall k :: a <= k < b ==> s[k] != '>'
  }

  /** No `>` lies between `i` and what `NextGt` finds. */
  lemma {:induction false} NextGtFirst(s: string, i: nat)
    ensures forall k :: i <= k < |s| && (NextGt(s, i).None? || k < NextGt(s, i).value) ==> s[k] != '>'
    decreases |s| - i
  {
    if i < |s| && s[i] != '>' {
      NextGtFirst(s, i + 1);
    }
  }

  /** `NextGt` returns `j` exactly when `j` holds the first `>` from `i` on. */
  lemma NextGtIs(s: string, i: nat, j: nat)
    ensures NextGt(s, i) == Some(j) <==> i <= j < |s| && s[j] == '>' && NoGtIn(s, i, j)
  {
    NextGtFirst(s, i);
  }

  /** `\s*`, which is greedy and always followed here by a character that is
      not white space, so it consumes exactly the run of white space. */
  function SkipSpaces(s: string, i: nat): (r: nat)
    requires i <= |s|
    ensures i <= r <= |s|
    ensures AllSpace(s[i..r])
    ensures r < |s| ==> !IsSpace(s[r])
    decreases |s| - i
  {
    if i < |s| && IsSpace(s[i]) then SkipSpaces(s, i + 1) else i
  }

  /** `\s*` from `i` stops at `e` when white space fills [i, e) and `e`
      holds none. */
  lemma SkipSpacesTo(s: string, i: nat, e: nat)
    requires i <= e < |s| && AllSpace(s[i..e]) && !IsSpace(s[e])
    ensures SkipSpaces(s, i) == e
  {
  }

  /** `(['"])v\1` at `b`: the value `v` between two equal quotes. */
  predicate QuotedAt(s: string, b: nat, v: string) {
    b < |s| && (s[b] == '"' || s[b] == '\'') &&
    MatchesAt(s, b + 1, v) && b + 1 + |v| < |s| && s[b + 1 + |v|] == s[b]
  }

  /** The data types that mark a script as not executable. */
  predicate DataValueAt(s: string, b: nat) {
    QuotedAt(s, b, "application/json") ||
    QuotedAt(s, b, "application/ld+json") ||
    QuotedAt(s, b, "text/template")
  }

  /** `type\s*=\s*` at `t`: where the attribute's value starts. */
  function ValueStart(s: string, t: nat): (r: Option<nat>)
    ensures r.Some? ==> t + 5 <= r.value <= |s|
  {
    if !MatchesAt(s, t, "type") then None
    else
      var a := SkipSpaces(s, t + 4);
      if a < |s| && s[a] == '=' then Some(SkipSpaces(s, a + 1)) else None
  }

  /** A data-type attribute at `t`: `type`, an `=` with optional white
      space around it, then one of the data types between equal quotes. */
  predicate DataTypeAttrAt(s: string, t: nat) {
    var v := ValueStart(s, t);
    v.Some? && DataValueAt(s, v.value)
  }

  /** The negative lookahead of the script pattern, read on the attribute
      text of the opening tag (what lies between `<script` and its first
      `>`): `[^>]*` cannot pass that `>`, and a data-type attribute contains
      none, so the lookahead rejects the tag exactly when such an attribute
      starts somewhere in that text. */
  predicate HasDataType(attrs: string) {
    DataTypeFrom(attrs, 0)
  }

  /** The lookahead tried at every position from `i` on. */
  predicate DataTypeFrom(attrs: string, i: nat)
    decreases |attrs| - i
  {
    i < |attrs| && (DataTypeAttrAt(attrs, i) || DataTypeFrom(attrs, i + 1))
  }

  /** `DataTypeFrom` holds exactly when a data-type attribute starts at some
      position from `i` on. */
  lemma {:induction false} DataTypeFromIs(attrs: string, i: nat)
    ensures DataTypeFrom(attrs, i) <==> exists j :: i <= j < |attrs| && DataTypeAttrAt(attrs, j)
    decreases |attrs| - i
  {
    if DataTypeFrom(attrs, i) {
      var j := DataTypeFromSome(attrs, i);
    }
    forall j | i <= j < |attrs| ensures DataTypeAttrAt(attrs, j) ==> DataTypeFrom(attrs, i) {
      if DataTypeAttrAt(attrs, j) {
        DataTypeFromAt(attrs, i, j);
      }
    }
  }

  /** A data-type attribute at `j` is found by the lookahead tried from any
      `i` up to `j`. */
  lemma {:induction false} DataTypeFromAt(attrs: string, i: nat, j: nat)
    requires i <= j < |attrs| && DataTypeAttrAt(attrs, j)
    ensures DataTypeFrom(attrs, i)
    decreases j - i
  {
    if i < j {
      DataTypeFromAt(attrs, i + 1, j);
    }
  }

  /** Where the lookahead succeeds from `i`, a data-type attribute starts at
      some `j` from `i` on. */
  lemma {:induction false} DataTypeFromSome(attrs: string, i: nat) returns (j: nat)
    requires DataTypeFrom(attrs, i)
    ensures i <= j < |attrs| && DataTypeAttrAt(attrs, j)
    decreases |attrs| - i
  {
    if DataTypeAttrAt(attrs, i) {
      j := i;
    } else {
      j := DataTypeFromSome(attrs, i + 1);
    }
  }

  /** `type`, white space, `=`, white space, then one of the data types
      between equal quotes excludes the script. */
  lemma DataTypeWritten(attrs: string, i: nat, e: nat, b: nat, v: string)
    requires v == "application/json" || v == "application/ld+json" || v == "text/template"
    requires MatchesAt(attrs, i, "type") && i + 4 <= e < b < |attrs|
    requires AllSpace(attrs[i + 4..e]) && attrs[e] == '=' && AllSpace(attrs[e + 1..b])
    requires QuotedAt(attrs, b, v)
    ensures HasDataType(attrs)
  {
    ValueWritten(attrs, i, e, b);
    assert DataValueAt(attrs, b);
    DataTypeFromIs(attrs, 0);
    assert DataTypeAttrAt(attrs, i);
  }

  /** `type\s*=\s*` written out ends where the value starts. */
  lemma ValueWritten(attrs: string, i: nat, e: nat, b: nat)
    requires MatchesAt(attrs, i, "type") && i + 4 <= e < b < |attrs|
    requires AllSpace(attrs[i + 4..e]) && attrs[e] == '=' && AllSpace(attrs[e + 1..b])
    requires !IsSpace(attrs[b])
    ensures ValueStart(attrs, i) == Some(b)
  {
    SkipSpacesTo(attrs, i + 4, e);
    SkipSpacesTo(attrs, e + 1, b);
  }

  /** A data type between two different quotes is no data value: `\1` asks
      for the quote that opened it. */
  lemma MismatchedQuotes(attrs: string, b: nat, v: string)
    requires v == "application/json" || v == "application/ld+json" || v == "text/template"
    requires b + 1 + |v| < |attrs| && MatchesAt(attrs, b + 1, v)
    requires (attrs[b] == '"' && attrs[b + 1 + |v|] == '\'') ||
      (attrs[b] == '\'' && attrs[b + 1 + |v|] == '"')
    ensures !DataValueAt(attrs, b)
  {
    QuotesDiffer(attrs, b, v);
    if v == "text/template" {
      MatchedChar(attrs, b + 1, v, 0);
      Mismatch(attrs, b + 1, "application/json", 0);
      Mismatch(attrs, b + 1, "application/ld+json", 0);
    } else if v == "application/json" {
      MatchedChar(attrs, b + 1, v, 0);
      MatchedChar(attrs, b + 1, v, 12);
      Mismatch(attrs, b + 1, "text/template", 0);
      Mismatch(attrs, b + 1, "application/ld+json", 12);
    } else {
      MatchedChar(attrs, b + 1, v, 0);
      MatchedChar(attrs, b + 1, v, 12);
      Mismatch(attrs, b + 1, "text/template", 0);
      Mismatch(attrs, b + 1, "application/json", 12);
    }
  }

  /** A closing quote other than the opening one ends no quoted value. */
  lemma QuotesDiffer(attrs: string, b: nat, v: string)
    requires b + 1 + |v| < |attrs| && attrs[b + 1 + |v|] != attrs[b]
    ensures !QuotedAt(attrs, b, v)
  {
  }

  /** An attribute text without quotes never excludes a script: an
      unquoted `type` value does not count. */
  lemma NoQuoteNoDataType(attrs: string)
    requires '"' !in attrs && '\'' !in attrs
    ensures !HasDataType(attrs)
  {
    DataTypeFromIs(attrs, 0);
    forall j | 0 <= j < |attrs| ensures !DataTypeAttrAt(attrs, j) {
      var v := ValueStart(attrs, j);
      if v.Some? && v.value < |attrs| {
        assert attrs[v.value] in attrs;
      }
    }
  }

  /** `<tag[^>]*>` from `start` up to `innerStart`: the opening tag runs to
      its first `>`, and for a script carries no data type. */
  predicate OpeningTag(s: string, t: Tag, start: nat, innerStart: nat) {
    var o := start + |Open(t)|;
    MatchesAt(s, start, Open(t)) && o < innerStart <= |s| &&
    NextGt(s, o) == Some(innerStart - 1) &&
    (t == Script ==> !HasDataType(s[o..innerStart - 1]))
  }

  /** `([\s\S]*?)<\/tag>`: the inner text stops at the nearest closing tag
      (`*?` is lazy). */
  predicate LazyInner(s: string, t: Tag, innerStart: nat, innerEnd: nat) {
    innerStart <= innerEnd && MatchesAt(s, innerEnd, Close(t)) &&
    NoMatchIn(s, Close(t), innerStart, innerEnd)
  }

  /** What the element pattern means, stated without searching. */
  predicate IsMatch(s: string, t: Tag, sp: Span) {
    OpeningTag(s, t, sp.start, sp.innerStart) &&
    LazyInner(s, t, sp.innerStart, sp.innerEnd) &&
    sp.end == sp.innerEnd + |Close(t)|
  }

  /** Where the opening tag that starts at `p` ends: the `>` that closes
      `<tag[^>]*`, provided that, for a script, the lookahead lets the tag
      through. */
  function TagEnd(s: string, t: Tag, p: nat): (r: Option<nat>)
    ensures r.Some? ==> p + |Open(t)| <= r.value < |s| && s[r.value] == '>'
  {
    var o := p + |Open(t)|;
    if !MatchesAt(s, p, Open(t)) then None
    else match NextGt(s, o)
      case None => None
      case Some(g) => if t == Script && HasDataType(s[o..g]) then None else Some(g)
  }

  /** `TagEnd` finds `g` exactly when an opening tag runs from `p` to `g`. */
  lemma TagEndIs(s: string, t: Tag, p: nat, g: nat)
    ensures TagEnd(s, t, p) == Some(g) <==> OpeningTag(s, t, p, g + 1)
  {
    var o := p + |Open(t)|;
    if OpeningTag(s, t, p, g + 1) {
      assert s[o..(g + 1) - 1] == s[o..g];
    }
    if TagEnd(s, t, p) == Some(g) {
      assert NextGt(s, o) == Some(g);
      assert s[o..(g + 1) - 1] == s[o..g];
    }
  }

  /** The attempt of the element pattern at position `p`: the opening tag,
      then the nearest closing tag. */
  function ElementAt(s: string, t: Tag, p: nat): (r: Option<Span>)
    ensures r.Some? ==> r.value.start == p && Within(r.value, |s|)
  {
    match TagEnd(s, t, p)
    case None => None
    case Some(g) =>
      match Find(s, Close(t), g + 1)
      case None => None
      case Some(c) => Some(Span(p, g + 1, c, c + |Close(t)|))
  }

  /** A successful attempt is a match in the sense of `IsMatch`. */
  lemma ElementAtSound(s: string, t: Tag, p: nat)
    requires ElementAt(s, t, p).Some?
    ensures IsMatch(s, t, ElementAt(s, t, p).value)
  {
    var sp := ElementAt(s, t, p).value;
    var g := TagEnd(s, t, p).value;
    TagEndIs(s, t, p, g);
    FindIs(s, Close(t), g + 1, sp.innerEnd);
  }

  /** A match in the sense of `IsMatch` is what the attempt at its start
      returns. */
  lemma ElementAtComplete(s: string, t: Tag, sp: Span)
    requires IsMatch(s, t, sp)
    ensures ElementAt(s, t, sp.start) == Some(sp)
  {
    var g := sp.innerStart - 1;
    TagEndIs(s, t, sp.start, g);
    FindIs(s, Close(t), g + 1, sp.innerEnd);
  }

  /** A non-global search: the leftmost match at or after `from`, trying
      one position after the other. */
  function FirstElement(s: string, t: Tag, from: nat): (r: Option<Span>)
    ensures r.Some? ==> from <= r.value.start && Within(r.value, |s|)
    decreases |s| - from
  {
    if from >= |s| then None
    else if ElementAt(s, t, from).Some? then ElementAt(s, t, from)
    else FirstElement(s, t, from + 1)
  }

  /** What `FirstElement` returns is the attempt at its own start. */
  lemma {:induction false} FirstElementFound(s: string, t: Tag, from: nat)
    ensures var r := FirstElement(s, t, from);
      r.Some? ==> ElementAt(s, t, r.value.start) == r
    decreases |s| - from
  {
    if from < |s| && ElementAt(s, t, from).None? {
      FirstElementFound(s, t, from + 1);
    }
  }

  /** No match lies before the one `FirstElement` returns. */
  lemma {:induction false} FirstElementLeftmost(s: string, t: Tag, from: nat, p: nat)
    requires from <= p && ElementAt(s, t, p).Some?
    ensures FirstElement(s, t, from).Some? && FirstElement(s, t, from).value.start <= p
    decreases |s| - from
  {
    if from < p && ElementAt(s, t, from).None? {
      FirstElementLeftmost(s, t, from + 1, p);
    }
  }

  /** Positions where no `<tag` starts can be skipped. */
  lemma {:induction false} FirstElementSkips(s: string, t: Tag, i: nat, j: nat)
    requires i <= j
    requires forall p :: i <= p < j ==> !MatchesAt(s, p, Open(t))
    ensures FirstElement(s, t, i) == FirstElement(s, t, j)
    decreases j - i
  {
    if i < j {
      assert !MatchesAt(s, i, Open(t));
      NoOpenNoAttempt(s, t, i);
      FirstElementSkips(s, t, i + 1, j);
    }
  }

  /** Where `<tag` does not start, the attempt fails. */
  lemma NoOpenNoAttempt(s: string, t: Tag, p: nat)
    requires !MatchesAt(s, p, Open(t))
    ensures ElementAt(s, t, p).None?
  {
  }

  /** Nothing is found from a position after which `<tag` never occurs. */
  lemma FirstElementNoOpen(s: string, t: Tag, from: nat)
    requires from <= |s| && NoMatchIn(s, Open(t), from, |s|)
    ensures FirstElement(s, t, from).None?
  {
    FirstElementSkips(s, t, from, |s|);
  }

  /** The spans lie in order, without overlap, from `from` up to `n`. */
  predicate Chain(spans: seq<Span>, from: nat, n: nat) {
    if spans == [] then from <= n
    else from <= spans[0].start && Within(spans[0], n) && Chain(spans[1..], spans[0].end, n)
  }

  /** No match starts in [a, b). */
  ghost predicate NoElementIn(s: string, t: Tag, a: nat, b: nat) {
    forall sp :: IsMatch(s, t, sp) ==> !(a <= sp.start < b)
  }

  /** What `FirstElement` returns is a match with none before it. */
  lemma FirstElementMatchesLeftmost(s: string, t: Tag, from: nat, sp: Span)
    requires FirstElement(s, t, from) == Some(sp)
    ensures from <= sp.start && IsMatch(s, t, sp) && NoElementIn(s, t, from, sp.start)
  {
    FirstElementFound(s, t, from);
    ElementAtSound(s, t, sp.start);
    forall m | IsMatch(s, t, m) ensures !(from <= m.start < sp.start) {
      if from <= m.start < sp.start {
        ElementAtComplete(s, t, m);
        FirstElementLeftmost(s, t, from, m.start);
      }
    }
  }

  /** A match with none before it is what `FirstElement` returns. */
  lemma LeftmostIsFirstElement(s: string, t: Tag, from: nat, sp: Span)
    requires from <= sp.start && IsMatch(s, t, sp) && NoElementIn(s, t, from, sp.start)
    ensures FirstElement(s, t, from) == Some(sp)
  {
    ElementAtComplete(s, t, sp);
    FirstElementLeftmost(s, t, from, sp.start);
    var f := FirstElement(s, t, from).value;
    FirstElementFound(s, t, from);
    assert ElementAt(s, t, f.start) == Some(f);
    ElementAtSound(s, t, f.start);
    assert IsMatch(s, t, f);
    assert f.start == sp.start;
  }

  /** A match with no `<tag` before it is what `FirstElement` returns. */
  lemma FirstElementAfterNoOpen(s: string, t: Tag, sp: Span)
    requires IsMatch(s, t, sp) && NoMatchIn(s, Open(t), 0, sp.start)
    ensures FirstElement(s, t, 0) == Some(sp)
  {
    NoOpenNoElement(s, t, 0, sp.start);
    LeftmostIsFirstElement(s, t, 0, sp);
  }

  /** `FirstElement` returns the leftmost match at or after `from`. */
  lemma FirstElementIs(s: string, t: Tag, from: nat, sp: Span)
    ensures FirstElement(s, t, from) == Some(sp) <==>
      from <= sp.start && IsMatch(s, t, sp) && NoElementIn(s, t, from, sp.start)
  {
    if FirstElement(s, t, from) == Some(sp) {
      FirstElementMatchesLeftmost(s, t, from, sp);
    }
    if from <= sp.start && IsMatch(s, t, sp) && NoElementIn(s, t, from, sp.start) {
      LeftmostIsFirstElement(s, t, from, sp);
    }
  }

  /** `FirstElement` finds nothing exactly when no match starts at or after
      `from`. */
  lemma FirstElementNone(s: string, t: Tag, from: nat)
    ensures FirstElement(s, t, from).None? <==> NoElementIn(s, t, from, |s|)
  {
    var f := FirstElement(s, t, from);
    if f.Some? {
      FirstElementFound(s, t, from);
      ElementAtSound(s, t, f.value.start);
    } else {
      forall m | IsMatch(s, t, m) ensures !(from <= m.start < |s|) {
        if from <= m.start < |s| {
          ElementAtComplete(s, t, m);
          FirstElementLeftmost(s, t, from, m.start);
        }
      }
    }
  }

  /** A global search (`matchAll`, or `replace` with the `g` flag): after each
      match the search resumes where that match ended. */
  function AllElements(s: string, t: Tag, from: nat): (r: seq<Span>)
    requires from <= |s|
    ensures Chain(r, from, |s|)
    decreases |s| - from
  {
    match FirstElement(s, t, from)
    case None => []
    case Some(sp) => [sp] + AllElements(s, t, sp.end)
  }

  /** Each span is what the attempt at its own start returns. */
  predicate AllFound(s: string, t: Tag, spans: seq<Span>) {
    forall k :: 0 <= k < |spans| ==> ElementAt(s, t, spans[k].start) == Some(spans[k])
  }

  /** One step of the global search: the first match, then the search
      resumed at its end. */
  lemma ScanStep(s: string, t: Tag, from: nat)
    requires from <= |s| && FirstElement(s, t, from).Some?
    ensures var sp := FirstElement(s, t, from).value;
      AllElements(s, t, from) == [sp] + AllElements(s, t, sp.end)
  {
  }

  /** Every span of the global search is the attempt at its own start. */
  lemma {:induction false} AllElementsFound(s: string, t: Tag, from: nat)
    requires from <= |s|
    ensures AllFound(s, t, AllElements(s, t, from))
    decreases |s| - from
  {
    var f := FirstElement(s, t, from);
    if f.Some? {
      FirstElementFound(s, t, from);
      var rest := AllElements(s, t, f.value.end);
      AllElementsFound(s, t, f.value.end);
      var r := [f.value] + rest;
      assert AllElements(s, t, from) == r;
      forall k | 0 <= k < |r| ensures ElementAt(s, t, r[k].start) == Some(r[k]) {
        if k == 0 {
          assert r[k] == f.value;
        } else {
          assert r[k] == rest[k - 1];
        }
      }
    }
  }

  /** Every span of `r` is a match of the pattern. */
  ghost predicate AllMatch(s: string, t: Tag, r: seq<Span>) {
    forall k :: 0 <= k < |r| ==> IsMatch(s, t, r[k])
  }

  /** Every span of the global search is a match of the pattern. */
  lemma AllElementsMatch(s: string, t: Tag, from: nat)
    requires from <= |s|
    ensures AllMatch(s, t, AllElements(s, t, from))
  {
    var r := AllElements(s, t, from);
    AllElementsFound(s, t, from);
    forall k | 0 <= k < |r| ensures IsMatch(s, t, r[k]) {
      ElementAtSound(s, t, r[k].start);
    }
  }

  /** No match of the global search starts at the opening tag of a script
      that carries a quoted data type. (Its text can still lie inside an
      earlier script's match; `DataScriptKept` rules that out.) */
  lemma DataScriptSkipped(s: string, p: nat, g: nat)
    requires MatchesAt(s, p, Open(Script)) && NextGt(s, p + |Open(Script)|) == Some(g)
    requires HasDataType(s[p + |Open(Script)|..g])
    ensures var r := AllElements(s, Script, 0);
      forall k :: 0 <= k < |r| ==> r[k].start != p
  {
    var r := AllElements(s, Script, 0);
    AllElementsMatch(s, Script, 0);
    assert AllMatch(s, Script, r);
    forall k | 0 <= k < |r| ensures r[k].start != p {
      assert IsMatch(s, Script, r[k]);
      NotDataTagAt(s, r[k].start, r[k].innerStart, p, g);
    }
  }

  /** Two `<script` tags at the same place have the same attributes. */
  lemma SameTagSameAttrs(s: string, a: nat, b: nat, p: nat, g: nat)
    requires NextGt(s, a + |Open(Script)|) == Some(b - 1) && a + |Open(Script)| <= b - 1 <= |s|
    requires NextGt(s, p + |Open(Script)|) == Some(g) && p + |Open(Script)| <= g <= |s|
    ensures a == p ==> s[a + |Open(Script)|..b - 1] == s[p + |Open(Script)|..g]
  {
  }

  /** An executable script's opening tag never starts where a tag that
      carries a data type does. */
  lemma NotDataTagAt(s: string, a: nat, b: nat, p: nat, g: nat)
    requires OpeningTag(s, Script, a, b) && NextGt(s, p + |Open(Script)|) == Some(g)
    requires HasDataType(s[p + |Open(Script)|..g])
    ensures a != p
  {
    SameTagSameAttrs(s, a, b, p, g);
  }

  /** Some span of `r` holds position `p`. */
  ghost predicate Covers(r: seq<Span>, p: nat) {
    exists k :: 0 <= k < |r| && r[k].start <= p < r[k].end
  }

  /** The global search misses no match: every match that starts at or after
      `from` is one of the spans found, or starts inside one (it was
      consumed by an earlier match). */
  lemma {:induction false} AllElementsCover(s: string, t: Tag, from: nat, p: nat)
    requires from <= p <= |s| && ElementAt(s, t, p).Some?
    ensures Covers(AllElements(s, t, from), p)
    decreases |s| - from
  {
    FirstElementLeftmost(s, t, from, p);
    var m := FirstElement(s, t, from).value;
    var rest := AllElements(s, t, m.end);
    var r := AllElements(s, t, from);
    assert r == [m] + rest;
    if p >= m.end {
      AllElementsCover(s, t, m.end, p);
      var k :| 0 <= k < |rest| && rest[k].start <= p < rest[k].end;
      assert r[k + 1] == rest[k];
    } else {
      assert r[0] == m;
    }
  }

  /** `s` from `keep` on with every span deleted. */
  function Cut(s: string, spans: seq<Span>, keep: nat): (r: string)
    requires Chain(spans, keep, |s|)
    ensures |r| <= |s| - keep
    ensures spans == [] ==> r == s[keep..]
  {
    if spans == [] then s[keep..]
    else s[keep..spans[0].start] + Cut(s, spans[1..], spans[0].end)
  }

  /** `s.replace(re, '')` for the element pattern without the `g` flag. */
  function RemoveFirst(s: string, t: Tag): (r: string)
    ensures |r| <= |s|
    ensures r == s <==> FirstElement(s, t, 0).None?
  {
    match FirstElement(s, t, 0)
    case None => s
    case Some(sp) => s[..sp.start] + s[sp.end..]
  }

  /** `s.replace(re, '')` for the element pattern with the `g` flag. */
  function RemoveAll(s: string, t: Tag): (r: string)
    ensures |r| + SpanTotal(AllElements(s, t, 0)) == |s|
  {
    CutLength(s, AllElements(s, t, 0), 0);
    Cut(s, AllElements(s, t, 0), 0)
  }

  /** The global replacement changes the text exactly when there is a
      match. */
  lemma RemoveAllChanges(s: string, t: Tag)
    ensures RemoveAll(s, t) == s <==> AllElements(s, t, 0) == []
  {
    CutLength(s, AllElements(s, t, 0), 0);
  }

  /** The single replacement deletes exactly the leftmost match. */
  lemma RemoveFirstIs(s: string, t: Tag, sp: Span)
    requires IsMatch(s, t, sp) && NoElementIn(s, t, 0, sp.start)
    ensures RemoveFirst(s, t) == s[..sp.start] + s[sp.end..]
  {
    FirstElementIs(s, t, 0, sp);
  }

  /** Without a match both replacements leave the text as it is. */
  lemma RemoveNothing(s: string, t: Tag)
    requires NoElementIn(s, t, 0, |s|)
    ensures RemoveFirst(s, t) == s && RemoveAll(s, t) == s
  {
    FirstElementNone(s, t, 0);
  }

  /** Where `<tag` never occurs no match starts. */
  lemma NoOpenNoElement(s: string, t: Tag, a: nat, b: nat)
    requires NoMatchIn(s, Open(t), a, b)
    ensures NoElementIn(s, t, a, b)
  {
  }

  /** `<open[^>]*>` can match at `q`: `open` is there and a `>` follows. */
  predicate OpenTagAt(s: string, open: string, q: nat) {
    MatchesAt(s, q, open) && NextGt(s, q + |open|).Some?
  }

  /** `<open[^>]*>` matches at no position in [a, b). */
  predicate NoOpenTagIn(s: string, open: string, a: nat, b: nat) {
    forall q :: a <= q < b ==> !OpenTagAt(s, open, q)
  }

  /** Leftmost match of `<open[^>]*>`; its span is empty inside. */
  function FirstOpenTag(s: string, open: string, from: nat): (r: Option<Span>)
    ensures r.Some? ==> (from <= r.value.start < r.value.end <= |s| &&
      MatchesAt(s, r.value.start, open) && s[r.value.end - 1] == '>' &&
      r.value.start + |open| < r.value.end)
    decreases |s| - from
  {
    match Find(s, open, from)
    case None => None
    case Some(p) =>
      match NextGt(s, p + |open|)
      case Some(g) => Some(Span(p, g + 1, g + 1, g + 1))
      case None => FirstOpenTag(s, open, p + 1)
  }

  /** What `FirstOpenTag` returns is a match that ends at the first `>`
      after `open`, with no match before it. */
  lemma {:induction false} FirstOpenTagSound(s: string, open: string, from: nat)
    requires FirstOpenTag(s, open, from).Some?
    ensures var sp := FirstOpenTag(s, open, from).value;
      OpenTagAt(s, open, sp.start) && NextGt(s, sp.start + |open|) == Some(sp.end - 1) &&
      NoOpenTagIn(s, open, from, sp.start)
    decreases |s| - from
  {
    var p := Find(s, open, from).value;
    NoOpenTagBeforeFind(s, open, from);
    match NextGt(s, p + |open|)
    case Some(g) =>
      assert FirstOpenTag(s, open, from).value.start == p;
    case None =>
      var rest := FirstOpenTag(s, open, p + 1);
      assert FirstOpenTag(s, open, from) == rest;
      FirstOpenTagSound(s, open, p + 1);
      NoOpenTagJoin(s, open, from, p, rest.value.start);
  }

  /** No opening tag starts before the leftmost `open`. */
  lemma NoOpenTagBeforeFind(s: string, open: string, from: nat)
    requires Find(s, open, from).Some?
    ensures NoOpenTagIn(s, open, from, Find(s, open, from).value)
  {
    FindFirst(s, open, from);
  }

  /** Two neighbouring ranges without a match, with none at their border
      either, make one. */
  lemma NoOpenTagJoin(s: string, open: string, a: nat, b: nat, c: nat)
    requires a <= b < c && NoOpenTagIn(s, open, a, b) && !OpenTagAt(s, open, b)
    requires NoOpenTagIn(s, open, b + 1, c)
    ensures NoOpenTagIn(s, open, a, c)
  {
  }

  /** No match of `<open[^>]*>` at or after `from` lies before the one
      `FirstOpenTag` returns, and it returns one whenever there is one: once
      no `>` follows the leftmost `open`, none follows any later one. */
  lemma FirstOpenTagLeftmost(s: string, open: string, from: nat, q: nat)
    requires from <= q && OpenTagAt(s, open, q)
    ensures FirstOpenTag(s, open, from).Some? && FirstOpenTag(s, open, from).value.start <= q
  {
    FindFirst(s, open, from);
    var p := Find(s, open, from).value;
    if NextGt(s, p + |open|).None? {
      NextGtFirst(s, p + |open|);
      assert false;
    }
  }

  /** The single deletion of the `<html…>` tag: the leftmost `<html` whose
      tag is closed by a `>` goes, up to and including that `>`. */
  function RemoveHtmlOpen(s: string): (r: string)
    ensures |r| <= |s|
    ensures r == s <==> FirstOpenTag(s, "<html", 0).None?
  {
    match FirstOpenTag(s, "<html", 0)
    case None => s
    case Some(sp) => s[..sp.start] + s[sp.end..]
  }

  /** The leftmost `<html…>` tag is deleted, from its `<` to its first `>`. */
  lemma RemoveHtmlOpenIs(s: string, p: nat, g: nat)
    requires MatchesAt(s, p, "<html") && NextGt(s, p + 5) == Some(g)
    requires NoOpenTagIn(s, "<html", 0, p)
    ensures RemoveHtmlOpen(s) == s[..p] + s[g + 1..]
  {
    assert OpenTagAt(s, "<html", p);
    FirstOpenTagLeftmost(s, "<html", 0, p);
    FirstOpenTagSound(s, "<html", 0);
    var sp := FirstOpenTag(s, "<html", 0).value;
    assert sp.start == p by {
      assert OpenTagAt(s, "<html", sp.start);
    }
    assert sp.end == g + 1;
  }

  /** Without an `<html…>` tag the text stays as it is. */
  lemma RemoveHtmlOpenNone(s: string)
    requires NoOpenTagIn(s, "<html", 0, |s|)
    ensures RemoveHtmlOpen(s) == s
  {
    if FirstOpenTag(s, "<html", 0).Some? {
      FirstOpenTagSound(s, "<html", 0);
    }
  }

  /** The single deletion of the leftmost `</html>`. */
  function RemoveHtmlClose(s: string): (r: string)
    ensures |r| <= |s|
    ensures r == s <==> Find(s, "</html>", 0).None?
  {
    match Find(s, "</html>", 0)
    case None => s
    case Some(p) => s[..p] + s[p + 7..]
  }

  /** The leftmost `</html>` is deleted; without one the text stays as it
      is. */
  lemma RemoveHtmlCloseIs(s: string, p: nat)
    ensures MatchesAt(s, p, "</html>") && NoMatchIn(s, "</html>", 0, p) ==>
      RemoveHtmlClose(s) == s[..p] + s[p + 7..]
    ensures NoMatchIn(s, "</html>", 0, |s|) ==> RemoveHtmlClose(s) == s
  {
    FindIs(s, "</html>", 0, p);
    FindFirst(s, "</html>", 0);
  }

  /** The number of characters the spans hold. */
  function SpanTotal(spans: seq<Span>): int {
    if spans == [] then 0 else (spans[0].end - spans[0].start) + SpanTotal(spans[1..])
  }

  /** Deleting the spans removes exactly their characters. */
  lemma {:induction false} CutLength(s: string, spans: seq<Span>, keep: nat)
    requires Chain(spans, keep, |s|)
    ensures |Cut(s, spans, keep)| + SpanTotal(spans) == |s| - keep
    ensures spans == [] <==> SpanTotal(spans) == 0
    decreases |spans|
  {
    if spans != [] {
      CutLength(s, spans[1..], spans[0].end);
    }
  }

  /** No span of `spans` reaches into [a, b). */
  predicate Untouched(spans: seq<Span>, a: nat, b: nat) {
    forall k :: 0 <= k < |spans| ==> spans[k].end <= a || b <= spans[k].start
  }

  /** Where text [a, b) that no span reaches into lands in `Cut`: its
      offset from `keep`, less the length of the spans before it. */
  function KeptAt(spans: seq<Span>, keep: nat, a: nat, b: nat): int {
    if spans == [] || b <= spans[0].start then a - keep
    else (spans[0].start - keep) + KeptAt(spans[1..], spans[0].end, a, b)
  }

  /** Text that no span reaches into survives the deletion in one piece. */
  lemma {:induction false} CutKeeps(s: string, spans: seq<Span>, keep: nat, a: nat, b: nat)
    requires Chain(spans, keep, |s|) && keep <= a <= b <= |s| && Untouched(spans, a, b)
    ensures var r := Cut(s, spans, keep); var i := KeptAt(spans, keep, a, b);
      0 <= i && i + (b - a) <= |r| && r[i..i + (b - a)] == s[a..b]
    decreases |spans|
  {
    if spans == [] {
      SliceOfSlice(s, keep, |s|, a, b);
    } else if b <= spans[0].start {
      CutFront(s, spans, keep, a, b);
    } else {
      UntouchedTail(spans, a, b);
      CutKeeps(s, spans[1..], spans[0].end, a, b);
      CutBehind(s, spans, keep, KeptAt(spans[1..], spans[0].end, a, b), b - a);
    }
  }

  /** Text before the first span is kept where it was, less `keep`. */
  lemma CutFront(s: string, spans: seq<Span>, keep: nat, a: nat, b: nat)
    requires spans != [] && Chain(spans, keep, |s|) && keep <= a <= b <= spans[0].start
    ensures var r := Cut(s, spans, keep);
      b - keep <= |r| && r[a - keep..b - keep] == s[a..b]
  {
    var head := s[keep..spans[0].start];
    var rest := Cut(s, spans[1..], spans[0].end);
    assert Cut(s, spans, keep) == head + rest;
    SliceOfSlice(s, keep, spans[0].start, a, b);
    SliceLeft(head, rest, a - keep, b - a);
  }

  /** What the deletion after the first span keeps follows the text before
      that span. */
  lemma CutBehind(s: string, spans: seq<Span>, keep: nat, j: nat, n: nat)
    requires spans != [] && Chain(spans, keep, |s|)
    requires j + n <= |Cut(s, spans[1..], spans[0].end)|
    ensures var r := Cut(s, spans, keep); var h := spans[0].start - keep;
      h + j + n <= |r| && r[h + j..h + j + n] == Cut(s, spans[1..], spans[0].end)[j..j + n]
  {
    var head := s[keep..spans[0].start];
    var rest := Cut(s, spans[1..], spans[0].end);
    assert Cut(s, spans, keep) == head + rest;
    SliceRight(head, rest, j, n);
  }

  lemma UntouchedTail(spans: seq<Span>, a: nat, b: nat)
    requires spans != [] && Untouched(spans, a, b)
    ensures Untouched(spans[1..], a, b)
  {
    forall k | 0 <= k < |spans[1..]| ensures spans[1..][k].end <= a || b <= spans[1..][k].start {
      assert spans[1..][k] == spans[k + 1];
    }
  }

  /** No executable script reaches into a data script that lies inside none
      of them and holds no `<script` of its own after its first character. */
  lemma DataScriptUntouched(s: string, p: nat, g: nat, e: nat)
    requires MatchesAt(s, p, Open(Script)) && NextGt(s, p + |Open(Script)|) == Some(g)
    requires HasDataType(s[p + |Open(Script)|..g])
    requires p < e <= |s| && NoMatchIn(s, Open(Script), p + 1, e)
    requires !Covers(AllElements(s, Script, 0), p)
    ensures var r := AllElements(s, Script, 0);
      Untouched(r, p, e) &&
      forall k :: 0 <= k < |r| ==> r[k].innerEnd <= p || e <= r[k].innerStart
  {
    var r := AllElements(s, Script, 0);
    DataScriptSkipped(s, p, g);
    AllElementsMatch(s, Script, 0);
    forall k | 0 <= k < |r| ensures r[k].end <= p || e <= r[k].start {
      assert IsMatch(s, Script, r[k]);
    }
    forall k | 0 <= k < |r| ensures r[k].innerEnd <= p || e <= r[k].innerStart {
      assert IsMatch(s, Script, r[k]);
    }
  }

  /** Such a data script stays out of the global deletion: `RemoveAll`
      keeps its text whole. */
  lemma DataScriptKept(s: string, p: nat, g: nat, e: nat)
    requires MatchesAt(s, p, Open(Script)) && NextGt(s, p + |Open(Script)|) == Some(g)
    requires HasDataType(s[p + |Open(Script)|..g])
    requires p < e <= |s| && NoMatchIn(s, Open(Script), p + 1, e)
    requires !Covers(AllElements(s, Script, 0), p)
    ensures KeptIn(RemoveAll(s, Script), KeptAt(AllElements(s, Script, 0), 0, p, e), s[p..e])
  {
    DataScriptUntouched(s, p, g, e);
    RemoveAllKeeps(s, Script, p, e);
  }

  /** `piece` occurs in `out` at `i`. */
  predicate KeptIn(out: string, i: int, piece: string) {
    0 <= i && i + |piece| <= |out| && out[i..i + |piece|] == piece
  }

  /** The global deletion keeps whole any text no match reaches into. */
  lemma RemoveAllKeeps(s: string, t: Tag, a: nat, b: nat)
    requires a <= b <= |s| && Untouched(AllElements(s, t, 0), a, b)
    ensures KeptIn(RemoveAll(s, t), KeptAt(AllElements(s, t, 0), 0, a, b), s[a..b])
  {
    CutKeeps(s, AllElements(s, t, 0), 0, a, b);
  }
}
