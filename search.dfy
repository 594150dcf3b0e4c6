/** Case-insensitive search for a literal piece of text, the building block
    of every pattern in src/lib/utils.ts, with the facts about searching in a
    concatenation that the proofs about whole documents use. */
module Search {
  import opened Strings

  datatype Option<T> = None | Some(value: T)

  /** `pat` (lower case) occurs at `i` under ASCII case folding. */
  predicate MatchesAt(s: string, i: nat, pat: string)
    ensures MatchesAt(s, i, pat) ==> i + |pat| <= |s|
    decreases |pat|
  {
    if pat == [] then i <= |s|
    else
      var n := |pat| - 1;
      MatchesAt(s, i, pat[..n]) && i + n < |s| && Lower(s[i + n]) == pat[n]
  }

  /** `pat` occurs nowhere in `s`. */
  predicate Free(s: string, pat: string) {
    forall i :: 0 <= i <= |s| ==> !MatchesAt(s, i, pat)
  }

  /** A pattern that starts with `<`, has no other `<` and no white space:
      every tag pattern of the parser has this shape. */
  predicate TagPattern(pat: string) {
    |pat| > 0 && pat[0] == '<' && '<' !in pat[1..] &&
    forall c :: c in pat ==> !IsSpace(c) && !IsUpper(c)
  }

  /** No occurrence of a tag pattern can cross the border between `a` and
      `b`: either side of the border is white space, or `b` opens a tag. */
  predicate Seam(a: string, b: string) {
    a == [] || b == [] || IsSpace(a[|a| - 1]) || IsSpace(b[0]) || b[0] == '<'
  }

  function Shift(o: Option<nat>, d: nat): Option<nat> {
    if o.None? then None else Some(o.value + d)
  }

  /** The leftmost occurrence of `pat` at or after `from`: what a regular
      expression made of that literal finds. */
  function Find(s: string, pat: string, from: nat): (r: Option<nat>)
    ensures r.Some? ==> from <= r.value && MatchesAt(s, r.value, pat)
    decreases |s| - from
  {
    if from + |pat| > |s| then None
    else if MatchesAt(s, from, pat) then Some(from)
    else Find(s, pat, from + 1)
  }

  /** `Find` returns the leftmost occurrence: none lies between `from` and
      what it returns, or anywhere after `from` when it returns nothing. */
  lemma {:induction false} FindFirst(s: string, pat: string, from: nat)
    ensures forall i :: from <= i && (Find(s, pat, from).None? || i < Find(s, pat, from).value) ==>
      !MatchesAt(s, i, pat)
    decreases |s| - from
  {
    if from + |pat| <= |s| && !MatchesAt(s, from, pat) {
      FindFirst(s, pat, from + 1);
    }
  }

  /** `pat` occurs at no position in [a, b). */
  predicate NoMatchIn(s: string, pat: string, a: nat, b: nat) {
    forall q :: a <= q < b ==> !MatchesAt(s, q, pat)
  }

  /** The character-by-character reading of `MatchesAt`. */
  lemma {:induction false} MatchesAtChars(s: string, i: nat, pat: string)
    ensures MatchesAt(s, i, pat) <==>
      i + |pat| <= |s| && forall k :: 0 <= k < |pat| ==> Lower(s[i + k]) == pat[k]
    decreases |pat|
  {
    if pat != [] {
      var n := |pat| - 1;
      MatchesAtChars(s, i, pat[..n]);
    }
  }

  /** A match fixes each character, up to case. */
  lemma MatchedChar(s: string, i: nat, pat: string, k: nat)
    requires MatchesAt(s, i, pat) && k < |pat|
    ensures Lower(s[i + k]) == pat[k]
  {
    MatchesAtChars(s, i, pat);
  }

  /** One differing character rules a match out. */
  lemma Mismatch(s: string, i: nat, pat: string, k: nat)
    requires k < |pat| && (i + |pat| > |s| || Lower(s[i + k]) != pat[k])
    ensures !MatchesAt(s, i, pat)
  {
    MatchesAtChars(s, i, pat);
  }

  /** A lower-case pattern matches itself at the start of any text. */
  lemma MatchesOwnPrefix(pat: string, rest: string)
    requires forall c :: c in pat ==> !IsUpper(c)
    ensures MatchesAt(pat + rest, 0, pat)
  {
    forall k | 0 <= k < |pat| ensures Lower((pat + rest)[0 + k]) == pat[k] {
      assert pat[k] in pat;
    }
    MatchesAtChars(pat + rest, 0, pat);
  }

  /** A match that lies inside `a` does not see what follows `a`. */
  lemma MatchesInPrefix(a: string, b: string, i: nat, pat: string)
    requires i + |pat| <= |a|
    ensures MatchesAt(a + b, i, pat) == MatchesAt(a, i, pat)
  {
    MatchesAtChars(a + b, i, pat);
    MatchesAtChars(a, i, pat);
    forall k | 0 <= k < |pat| ensures Lower((a + b)[i + k]) == pat[k] <==> Lower(a[i + k]) == pat[k] {
      assert (a + b)[i + k] == a[i + k];
    }
  }

  /** Matching does not depend on what comes before the text. */
  lemma MatchesShifted(x: string, s: string, i: nat, pat: string)
    ensures MatchesAt(x + s, |x| + i, pat) == MatchesAt(s, i, pat)
  {
    MatchesAtChars(x + s, |x| + i, pat);
    MatchesAtChars(s, i, pat);
    if i + |pat| <= |s| {
      forall k | 0 <= k < |pat| ensures Lower((x + s)[|x| + i + k]) == pat[k] <==> Lower(s[i + k]) == pat[k] {
        assert (x + s)[|x| + i + k] == s[i + k];
      }
    }
  }

  /** Searching after a prefix is searching the rest, offset by the prefix. */
  lemma {:induction false} FindShifted(x: string, s: string, pat: string, k: nat)
    ensures Find(x + s, pat, |x| + k) == Shift(Find(s, pat, k), |x|)
    decreases |s| - k
  {
    if k + |pat| > |s| {
      assert Find(s, pat, k) == None;
      assert Find(x + s, pat, |x| + k) == None by {
        assert |x| + k + |pat| > |x + s|;
      }
    } else if MatchesAt(s, k, pat) {
      assert Find(s, pat, k) == Some(k);
      assert Find(x + s, pat, |x| + k) == Some(|x| + k) by {
        MatchesShifted(x, s, k, pat);
      }
    } else {
      assert Find(s, pat, k) == Find(s, pat, k + 1);
      assert Find(x + s, pat, |x| + k) == Find(x + s, pat, |x| + k + 1) by {
        MatchesShifted(x, s, k, pat);
      }
      FindShifted(x, s, pat, k + 1);
    }
  }

  /** `Find` returns `j` exactly when `pat` occurs at `j` and nowhere
      between `from` and `j`. */
  lemma FindIs(s: string, pat: string, from: nat, j: nat)
    ensures Find(s, pat, from) == Some(j) <==>
      from <= j && MatchesAt(s, j, pat) && NoMatchIn(s, pat, from, j)
  {
    FindFirst(s, pat, from);
  }

  /** Positions without a match can be skipped. */
  lemma {:induction false} FindSkips(s: string, pat: string, i: nat, j: nat)
    requires i <= j
    requires forall p :: i <= p < j ==> !MatchesAt(s, p, pat)
    ensures Find(s, pat, i) == Find(s, pat, j)
    decreases j - i
  {
    if i < j && i + |pat| <= |s| {
      FindSkips(s, pat, i + 1, j);
    }
  }

  /** A match found in `a` is still the leftmost one once text is appended. */
  lemma FindInPrefix(a: string, b: string, pat: string, from: nat)
    requires Find(a, pat, from).Some?
    ensures Find(a + b, pat, from) == Find(a, pat, from)
  {
    var p := Find(a, pat, from).value;
    FindFirst(a, pat, from);
    MatchesInPrefix(a, b, p, pat);
    forall i | from <= i < p ensures !MatchesAt(a + b, i, pat) {
      MatchesInPrefix(a, b, i, pat);
    }
    FindSkips(a + b, pat, from, p);
  }

  /** The two borders of `Seam` stop every tag pattern. */
  lemma NoStraddle(a: string, b: string, pat: string, p: nat)
    requires TagPattern(pat) && Seam(a, b)
    requires p < |a| < p + |pat|
    ensures !MatchesAt(a + b, p, pat)
  {
    var k1 := |a| - 1 - p;
    var k2 := |a| - p;
    assert pat[k1] in pat;
    if p + |pat| > |a + b| {
      Mismatch(a + b, p, pat, 0);
    } else if IsSpace(a[|a| - 1]) {
      assert (a + b)[p + k1] == a[|a| - 1];
      Mismatch(a + b, p, pat, k1);
    } else {
      assert pat[k2] in pat && pat[k2] in pat[1..] by { assert pat[1..][k2 - 1] == pat[k2]; }
      assert (a + b)[p + k2] == b[0];
      Mismatch(a + b, p, pat, k2);
    }
  }

  /** Searching `a + b` from inside `a`, where `a` holds no match from there
      on, lands in `b`. */
  lemma FindPast(a: string, b: string, pat: string, from: nat)
    requires TagPattern(pat) && Seam(a, b) && from <= |a|
    requires forall p :: from <= p <= |a| ==> !MatchesAt(a, p, pat)
    ensures Find(a + b, pat, from) == Shift(Find(b, pat, 0), |a|)
  {
    forall p | from <= p < |a| ensures !MatchesAt(a + b, p, pat) {
      if p + |pat| <= |a| {
        MatchesInPrefix(a, b, p, pat);
      } else {
        NoStraddle(a, b, pat, p);
      }
    }
    FindSkips(a + b, pat, from, |a|);
    FindShifted(a, b, pat, 0);
  }

  lemma FreeConcat(a: string, b: string, pat: string)
    requires TagPattern(pat) && Seam(a, b) && Free(a, pat) && Free(b, pat)
    ensures Free(a + b, pat)
  {
    FindPast(a, b, pat, 0);
    assert Find(a + b, pat, 0).None?;
    FindFirst(a + b, pat, 0);
  }

  lemma FreeSuffix(s: string, k: nat, pat: string)
    requires Free(s, pat) && k <= |s|
    ensures Free(s[k..], pat)
  {
    forall i | 0 <= i <= |s| - k ensures !MatchesAt(s[k..], i, pat) {
      assert s == s[..k] + s[k..];
      MatchesShifted(s[..k], s[k..], i, pat);
    }
  }

  /** A piece free of `pat` holds no match after what precedes it. */
  lemma FreeAfter(a: string, b: string, pat: string)
    requires Free(b, pat)
    ensures NoMatchIn(a + b, pat, |a|, |a + b|)
  {
    forall q | |a| <= q < |a + b| ensures !MatchesAt(a + b, q, pat) {
      MatchesShifted(a, b, q - |a|, pat);
    }
  }

  lemma FreeWithoutLt(s: string, pat: string)
    requires TagPattern(pat) && '<' !in s
    ensures Free(s, pat)
  {
    forall i | 0 <= i <= |s| ensures !MatchesAt(s, i, pat) {
      if i < |s| {
        assert s[i] in s;
      }
      Mismatch(s, i, pat, 0);
    }
  }

  /** A piece that opens with its only `<` is free of a tag pattern once its
      start is known not to match. */
  lemma FreeLed(s: string, pat: string)
    requires TagPattern(pat) && s != [] && s[0] == '<' && '<' !in s[1..]
    requires !MatchesAt(s, 0, pat)
    ensures Free(s, pat)
  {
    forall i | 1 <= i <= |s| ensures !MatchesAt(s, i, pat) {
      if i < |s| {
        assert s[1..][i - 1] == s[i];
      }
      Mismatch(s, i, pat, 0);
    }
  }
}
