/** Character classes, trimming and joining as JavaScript's String and Array
    builtins define them for the parser in src/lib/utils.ts. */
module Strings {

  /** The white space of JavaScript: the WhiteSpace and LineTerminator code
      points. Both the `\s` class of a regular expression and
      `String.prototype.trim` use exactly this set. */
  predicate IsSpace(c: char) {
    c == '\t' || c == '\n' || c == '\U{000B}' || c == '\U{000C}' || c == '\r' ||
    c == ' ' || c == '\U{00A0}' || c == '\U{1680}' || ('\U{2000}' <= c <= '\U{200A}') ||
    c == '\U{2028}' || c == '\U{2029}' || c == '\U{202F}' || c == '\U{205F}' ||
    c == '\U{3000}' || c == '\U{FEFF}'
  }

  predicate AllSpace(s: string) {
    forall k :: 0 <= k < |s| ==> IsSpace(s[k])
  }

  predicate IsUpper(c: char) {
    'A' <= c <= 'Z'
  }

  /** Case folding of the `i` flag without `u`: only the 26 ASCII capitals
      fold onto letters of the patterns used here. */
  function Lower(c: char): (r: char)
    ensures IsUpper(c) ==> 'a' <= r <= 'z'
    ensures !IsUpper(c) ==> r == c
  {
    if IsUpper(c) then (c as int + 32) as char else c
  }

  /** `trimStart`: drop the leading white space. */
  function TrimStart(s: string): (r: string)
    ensures |r| <= |s|
    ensures r == [] || !IsSpace(r[0])
  {
    if s != [] && IsSpace(s[0]) then TrimStart(s[1..]) else s
  }

  /** What `trimStart` drops is white space and what it keeps is a suffix. */
  lemma {:induction false} TrimStartSuffix(s: string)
    ensures var r := TrimStart(s);
      r == s[|s| - |r|..] && AllSpace(s[..|s| - |r|])
    decreases |s|
  {
    if s != [] && IsSpace(s[0]) {
      TrimStartSuffix(s[1..]);
    }
  }

  /** `trimEnd`: drop the trailing white space. */
  function TrimEnd(s: string): (r: string)
    ensures |r| <= |s|
    ensures r == [] || !IsSpace(r[|r| - 1])
  {
    if s != [] && IsSpace(s[|s| - 1]) then TrimEnd(s[..|s| - 1]) else s
  }

  /** What `trimEnd` drops is white space and what it keeps is a prefix. */
  lemma {:induction false} TrimEndPrefix(s: string)
    ensures var r := TrimEnd(s);
      r == s[..|r|] && AllSpace(s[|r|..])
    decreases |s|
  {
    if s != [] && IsSpace(s[|s| - 1]) {
      TrimEndPrefix(s[..|s| - 1]);
    }
  }

  /** `trim`: both ends trimmed. */
  function Trim(s: string): (r: string)
    ensures |r| <= |s|
    ensures r == [] || (!IsSpace(r[0]) && !IsSpace(r[|r| - 1]))
  {
    var t := TrimStart(s);
    TrimEndPrefix(t);
    TrimEnd(t)
  }

  /** What `trim` keeps is an infix of its input, starting where `trimStart`
      stops, with only white space around it. */
  lemma TrimInfix(s: string)
    ensures var r := Trim(s); var lead := |s| - |TrimStart(s)|;
      lead + |r| <= |s| && r == s[lead..lead + |r|] &&
      AllSpace(s[..lead]) && AllSpace(s[lead + |r|..])
  {
    var t := TrimStart(s);
    var r := TrimEnd(t);
    var lead := |s| - |t|;
    TrimStartSuffix(s);
    TrimEndPrefix(t);
    assert s[lead + |r|..] == t[|r|..];
  }

  /** `Array.prototype.join`: the parts in order with `sep` between
      neighbours. */
  function Join(parts: seq<string>, sep: string): (r: string)
    ensures |r| == TotalLength(parts) + (if parts == [] then 0 else (|parts| - 1) * |sep|)
    ensures parts != [] ==> r[..|parts[0]|] == parts[0]
  {
    if |parts| == 0 then ""
    else if |parts| == 1 then parts[0]
    else parts[0] + sep + Join(parts[1..], sep)
  }

  function TotalLength(parts: seq<string>): nat {
    if parts == [] then 0 else |parts[0]| + TotalLength(parts[1..])
  }

  lemma {:induction false} TrimStartOfSpaces(w: string, x: string)
    requires AllSpace(w)
    ensures TrimStart(w + x) == TrimStart(x)
    decreases |w|
  {
    if w != [] {
      assert (w + x)[1..] == w[1..] + x;
      TrimStartOfSpaces(w[1..], x);
    } else {
      assert w + x == x;
    }
  }

  lemma {:induction false} TrimEndOfSpaces(x: string, w: string)
    requires AllSpace(w)
    ensures TrimEnd(x + w) == TrimEnd(x)
    decreases |w|
  {
    if w != [] {
      assert (x + w)[..|x + w| - 1] == x + w[..|w| - 1];
      TrimEndOfSpaces(x, w[..|w| - 1]);
    } else {
      assert x + w == x;
    }
  }

  /** Trimming stops at the first non-space character, so whatever follows
      it is kept verbatim. */
  lemma {:induction false} TrimStartAppend(a: string, b: string)
    requires b != [] && !IsSpace(b[0])
    ensures TrimStart(a + b) == TrimStart(a) + b
    decreases |a|
  {
    if a == [] {
      assert a + b == b;
    } else if IsSpace(a[0]) {
      assert (a + b)[1..] == a[1..] + b;
      TrimStartAppend(a[1..], b);
    }
  }

  lemma {:induction false} TrimEndAppend(a: string, b: string)
    requires a != [] && !IsSpace(a[|a| - 1])
    ensures TrimEnd(a + b) == a + TrimEnd(b)
    decreases |b|
  {
    if b == [] {
      assert a + b == a;
    } else if IsSpace(b[|b| - 1]) {
      assert (a + b)[..|a + b| - 1] == a + b[..|b| - 1];
      TrimEndAppend(a, b[..|b| - 1]);
    }
  }

  /** Text that ends in a character other than white space keeps whatever
      follows it through `trimStart`. */
  lemma TrimStartKeepsTail(h: string, w: string)
    requires h != [] && !IsSpace(h[|h| - 1])
    ensures TrimStart(h + w) == TrimStart(h) + w
  {
    var x := h[..|h| - 1];
    var e := [h[|h| - 1]];
    assert h == x + e;
    assert h + w == x + (e + w);
    TrimStartAppend(x, e + w);
    TrimStartAppend(x, e);
  }

  /** Anything appended after `trimStart` makes the text longer than the
      trimmed text. */
  lemma TrimStartPlusNotTrim(h: string, w: string)
    requires w != []
    ensures TrimStart(h) + w != Trim(h)
  {
    assert |Trim(h)| <= |TrimStart(h)| < |TrimStart(h) + w|;
  }

  lemma TrimStartIdempotent(s: string)
    ensures TrimStart(TrimStart(s)) == TrimStart(s)
  {
  }

  lemma SpacesTrimAway(w: string)
    requires AllSpace(w)
    ensures TrimStart(w) == []
  {
    TrimStartOfSpaces(w, []);
    assert w + [] == w;
  }

  lemma {:induction false} TrimStartPaddedRight(x: string, w: string)
    requires AllSpace(w)
    ensures TrimEnd(TrimStart(x + w)) == TrimEnd(TrimStart(x))
  {
    var t := TrimStart(x);
    TrimStartSuffix(x);
    var pre := x[..|x| - |t|];
    assert x + w == pre + (t + w) by {
      assert x == pre + t;
    }
    TrimStartOfSpaces(pre, t + w);
    if t == [] {
      assert t + w == w;
      SpacesTrimAway(w);
    } else {
      assert (t + w)[0] == t[0];
      assert TrimStart(t + w) == t + w;
      TrimEndOfSpaces(t, w);
    }
  }

  /** White space added at either end does not change what `trim` returns. */
  lemma {:induction false} TrimOfPadded(w1: string, x: string, w2: string)
    requires AllSpace(w1) && AllSpace(w2)
    ensures Trim(w1 + x + w2) == Trim(x)
  {
    assert w1 + x + w2 == w1 + (x + w2);
    TrimStartOfSpaces(w1, x + w2);
    TrimStartPaddedRight(x, w2);
  }

  /** A text that starts and ends with a character other than white space
      is its own trim. */
  lemma TrimUnpadded(x: string)
    requires x != [] && !IsSpace(x[0]) && !IsSpace(x[|x| - 1])
    ensures Trim(x) == x
  {
  }

  /** Trimming the front first changes nothing about the full trim. */
  lemma TrimAfterTrimStart(s: string)
    ensures Trim(TrimStart(s)) == Trim(s)
  {
    TrimStartIdempotent(s);
  }

  /** A piece of the left operand of a concatenation. */
  lemma SliceLeft(x: string, y: string, i: nat, n: nat)
    requires i + n <= |x|
    ensures (x + y)[i..i + n] == x[i..i + n]
  {
  }

  /** A piece of the right operand of a concatenation. */
  lemma SliceRight(x: string, y: string, j: nat, n: nat)
    requires j + n <= |y|
    ensures (x + y)[|x| + j..|x| + j + n] == y[j..j + n]
  {
  }

  /** A piece of a piece is a piece of the whole. */
  lemma SliceOfSlice(s: string, lo: nat, hi: nat, a: nat, b: nat)
    requires lo <= a <= b <= hi <= |s|
    ensures s[lo..hi][a - lo..b - lo] == s[a..b]
  {
    var x := s[lo..hi][a - lo..b - lo];
    assert |x| == b - a;
    forall k | 0 <= k < b - a ensures x[k] == s[a..b][k] {
      assert x[k] == s[lo..hi][a - lo + k];
    }
  }
}
