/** The JavaScript string operations the stores rely on: `indexOf`/`includes`,
    `split` with a non-empty separator, `join`, `trim`, and replacing one
    character everywhere (`replace(/c/g, d)`). */
module Strings {
  import opened Wrappers

  /** `s.indexOf(pat)`: the position of the first occurrence of `pat` in `s`. */
  function IndexOf(s: string, pat: string): (r: Option<nat>)
    ensures r.Some? ==> r.value + |pat| <= |s| && pat <= s[r.value..]
    ensures r.Some? ==> forall j :: 0 <= j < r.value ==> !(pat <= s[j..])
    ensures r.None? ==> forall j :: 0 <= j <= |s| ==> !(pat <= s[j..])
    decreases |s|
  {
    if pat <= s then Some(0)
    else if |s| == 0 then None
    else
      match IndexOf(s[1..], pat)
      case None =>
        assert forall j :: 1 <= j <= |s| ==> s[j..] == s[1..][j - 1..];
        None
      case Some(i) =>
        assert forall j :: 1 <= j <= |s| ==> s[j..] == s[1..][j - 1..];
        Some(i + 1)
  }

  /** `s.includes(pat)`. */
  predicate Contains(s: string, pat: string) {
    IndexOf(s, pat).Some?
  }

  lemma ContainsAt(s: string, pat: string, k: nat)
    requires k <= |s| && pat <= s[k..]
    ensures Contains(s, pat)
  {
  }

  /** An occurrence in `a` is an occurrence in `a + b`. */
  lemma ContainsInPrefix(a: string, b: string, pat: string)
    requires Contains(a, pat)
    ensures Contains(a + b, pat)
  {
    var k := IndexOf(a, pat).value;
    var s := a + b;
    assert s[k..][..|pat|] == a[k..][..|pat|];
    ContainsAt(s, pat, k);
  }

  /** An occurrence in `b` is an occurrence in `a + b`. */
  lemma ContainsInSuffix(a: string, b: string, pat: string)
    requires Contains(b, pat)
    ensures Contains(a + b, pat)
  {
    var k := IndexOf(b, pat).value;
    var s := a + b;
    assert s[|a| + k..] == b[k..];
    ContainsAt(s, pat, |a| + k);
  }

  /** An occurrence inside one part of a join is an occurrence in the join. */
  lemma {:induction false} ContainsInJoin(parts: seq<string>, sep: string, i: nat, pat: string)
    requires i < |parts| && Contains(parts[i], pat)
    ensures Contains(Join(parts, sep), pat)
    decreases |parts|
  {
    if |parts| == 1 {
    } else if i == 0 {
      ContainsInPrefix(parts[0], sep + Join(parts[1..], sep), pat);
      assert Join(parts, sep) == parts[0] + (sep + Join(parts[1..], sep));
    } else {
      ContainsInJoin(parts[1..], sep, i - 1, pat);
      ContainsInSuffix(parts[0] + sep, Join(parts[1..], sep), pat);
    }
  }

  /** `s.endsWith(suffix)`. */
  predicate EndsWith(s: string, suffix: string) {
    |suffix| <= |s| && s[|s| - |suffix|..] == suffix
  }

  /** JavaScript truthiness of a string that may be `null`: absent and empty
      are both falsy. */
  predicate Truthy(v: Option<string>) {
    v.Some? && v.value != ""
  }

  /** `s.split(sep)` for a non-empty separator: the pieces between
      successive occurrences of `sep`, read left to right. */
  function Split(s: string, sep: string): (parts: seq<string>)
    requires |sep| > 0
    ensures |parts| >= 1
    ensures IndexOf(s, sep).None? ==> parts == [s]
    ensures IndexOf(s, sep).Some? ==> |parts| >= 2 && parts[0] == s[..IndexOf(s, sep).value]
    decreases |s|
  {
    match IndexOf(s, sep)
    case None => [s]
    case Some(i) => [s[..i]] + Split(s[i + |sep|..], sep)
  }

  /** `parts.join(sep)`. */
  function Join(parts: seq<string>, sep: string): string
    decreases |parts|
  {
    if |parts| == 0 then ""
    else if |parts| == 1 then parts[0]
    else parts[0] + sep + Join(parts[1..], sep)
  }

  /** When `sep` starts with a character `p` does not contain, the first
      occurrence of `sep` in `p + sep + q` is right after `p`. */
  lemma FirstOccurrenceAfter(p: string, sep: string, q: string)
    requires |sep| > 0 && sep[0] !in p
    ensures IndexOf(p + sep + q, sep) == Some(|p|)
  {
    var s := p + sep + q;
    assert s[|p|..] == sep + q;
    forall j | 0 <= j < |p|
      ensures !(sep <= s[j..])
    {
      assert s[j..][0] == p[j];
    }
  }

  /** Splitting a join recovers the pieces, provided no piece contains the
      separator's first character. */
  lemma {:induction false} SplitJoin(parts: seq<string>, sep: string)
    requires |parts| >= 1 && |sep| > 0
    requires forall i :: 0 <= i < |parts| ==> sep[0] !in parts[i]
    ensures Split(Join(parts, sep), sep) == parts
    decreases |parts|
  {
    if |parts| == 1 {
      SplitWhole(parts[0], sep);
    } else {
      var rest := Join(parts[1..], sep);
      assert Join(parts, sep) == parts[0] + sep + rest;
      SplitAfter(parts[0], sep, rest);
      SplitJoin(parts[1..], sep);
      assert parts == [parts[0]] + parts[1..];
    }
  }

  /** A string without the separator's first character splits into itself. */
  lemma SplitWhole(s: string, sep: string)
    requires |sep| > 0 && sep[0] !in s
    ensures Split(s, sep) == [s]
  {
    forall j | 0 <= j < |s|
      ensures !(sep <= s[j..])
    {
      assert s[j..][0] == s[j];
    }
  }

  /** The first piece of `p + sep + q` is `p` when `p` lacks the separator's
      first character; the rest is the split of `q`. */
  lemma SplitAfter(p: string, sep: string, q: string)
    requires |sep| > 0 && sep[0] !in p
    ensures Split(p + sep + q, sep) == [p] + Split(q, sep)
  {
    var s := p + sep + q;
    FirstOccurrenceAfter(p, sep, q);
    assert s[..|p|] == p;
    assert s[|p| + |sep|..] == q;
  }

  /** The characters `String.prototype.trim` removes: the ECMAScript
      WhiteSpace and LineTerminator code points. */
  predicate IsWhitespace(c: char) {
    || c == '\t' || c == '\n' || c == '\U{000B}' || c == '\U{000C}' || c == '\r' || c == ' '
    || c == '\U{00A0}' || c == '\U{1680}' || ('\U{2000}' <= c <= '\U{200A}')
    || c == '\U{2028}' || c == '\U{2029}' || c == '\U{202F}' || c == '\U{205F}'
    || c == '\U{3000}' || c == '\U{FEFF}'
  }

  predicate AllWhitespace(s: string) {
    forall i :: 0 <= i < |s| ==> IsWhitespace(s[i])
  }

  /** The number of whitespace characters `s` starts with. */
  function Leading(s: string): (n: nat)
    ensures n <= |s|
    ensures forall i :: 0 <= i < n ==> IsWhitespace(s[i])
    ensures n < |s| ==> !IsWhitespace(s[n])
    decreases |s|
  {
    if |s| > 0 && IsWhitespace(s[0]) then 1 + Leading(s[1..]) else 0
  }

  /** The number of whitespace characters `s` ends with. */
  function Trailing(s: string): (n: nat)
    ensures n <= |s|
    ensures forall i :: |s| - n <= i < |s| ==> IsWhitespace(s[i])
    ensures n < |s| ==> !IsWhitespace(s[|s| - n - 1])
    decreases |s|
  {
    if |s| > 0 && IsWhitespace(s[|s| - 1]) then 1 + Trailing(s[..|s| - 1]) else 0
  }

  /** `s.trim()`: `s` without its leading and trailing whitespace. */
  function Trim(s: string): (r: string)
    ensures |r| <= |s|
    ensures r == [] || (!IsWhitespace(r[0]) && !IsWhitespace(r[|r| - 1]))
  {
    var a := s[Leading(s)..];
    a[..|a| - Trailing(a)]
  }

  lemma {:induction false} LeadingPadded(w: string, x: string)
    requires AllWhitespace(w)
    ensures Leading(w + x) == |w| + Leading(x)
    decreases |w|
  {
    if |w| > 0 {
      assert (w + x)[1..] == w[1..] + x;
      LeadingPadded(w[1..], x);
    } else {
      assert w + x == x;
    }
  }

  lemma {:induction false} TrailingPadded(x: string, w: string)
    requires AllWhitespace(w)
    ensures Trailing(x + w) == |w| + Trailing(x)
    decreases |w|
  {
    if |w| > 0 {
      assert (x + w)[..|x + w| - 1] == x + w[..|w| - 1];
      TrailingPadded(x, w[..|w| - 1]);
    } else {
      assert x + w == x;
    }
  }

  /** Text appended after a non-whitespace character does not change the
      leading whitespace. */
  lemma {:induction false} LeadingAppend(x: string, y: string)
    requires Leading(x) < |x|
    ensures Leading(x + y) == Leading(x)
    decreases |x|
  {
    if IsWhitespace(x[0]) {
      assert (x + y)[1..] == x[1..] + y;
      LeadingAppend(x[1..], y);
    }
  }

  /** Queries that differ only in surrounding whitespace trim to the same text. */
  lemma TrimIgnoresPadding(w1: string, s: string, w2: string)
    requires AllWhitespace(w1) && AllWhitespace(w2)
    ensures Trim(w1 + s + w2) == Trim(s)
  {
    assert w1 + s + w2 == w1 + (s + w2);
    LeadingPadded(w1, s + w2);
    if Leading(s) < |s| {
      TrimPaddedText(w1, s, w2);
    } else {
      TrimPaddedBlank(w1, s, w2);
    }
  }

  lemma TrimPaddedText(w1: string, s: string, w2: string)
    requires AllWhitespace(w1) && AllWhitespace(w2) && Leading(s) < |s|
    requires Leading(w1 + s + w2) == |w1| + Leading(s + w2)
    ensures Trim(w1 + s + w2) == Trim(s)
  {
    var l := Leading(s);
    LeadingAppend(s, w2);
    DropAfterPrefix(w1, s, w2, l);
    TrimFrom(w1 + s + w2, |w1| + l, s[l..] + w2);
    TrimFrom(s, l, s[l..]);
    TrimEndPadded(s[l..], w2);
  }

  /** Once the leading whitespace is known, the trim is the rest without its
      trailing whitespace. */
  lemma TrimFrom(x: string, k: nat, rest: string)
    requires k <= |x| && Leading(x) == k && x[k..] == rest
    ensures Trim(x) == rest[..|rest| - Trailing(rest)]
  {
  }

  /** Trailing whitespace is all that cutting trailing whitespace removes. */
  lemma TrimEndPadded(a: string, w: string)
    requires AllWhitespace(w)
    ensures (a + w)[..|a + w| - Trailing(a + w)] == a[..|a| - Trailing(a)]
  {
    TrailingPadded(a, w);
    TakeBeforeSuffix(a, w, |a| - Trailing(a));
  }

  lemma DropAfterPrefix(w1: string, s: string, w2: string, l: nat)
    requires l <= |s|
    ensures (w1 + s + w2)[|w1| + l..] == s[l..] + w2
  {
  }

  lemma TakeBeforeSuffix(a: string, w: string, n: nat)
    requires n <= |a|
    ensures (a + w)[..n] == a[..n]
  {
  }

  lemma TrimPaddedBlank(w1: string, s: string, w2: string)
    requires AllWhitespace(w1) && AllWhitespace(w2) && Leading(s) == |s|
    requires Leading(w1 + s + w2) == |w1| + Leading(s + w2)
    ensures Trim(w1 + s + w2) == Trim(s) == []
  {
    assert AllWhitespace(s + w2);
    LeadingPadded(s + w2, []);
    assert s + w2 + [] == s + w2;
  }

  /** Text that neither starts nor ends with whitespace is its own trim. */
  lemma TrimUnpadded(s: string)
    requires |s| > 0 && !IsWhitespace(s[0]) && !IsWhitespace(s[|s| - 1])
    ensures Trim(s) == s
  {
    assert Leading(s) == 0 && s[0..] == s;
    assert Trailing(s) == 0;
  }

  /** Trimming twice is trimming once. */
  lemma TrimIdempotent(s: string)
    ensures Trim(Trim(s)) == Trim(s)
  {
    var r := Trim(s);
    if r != [] {
      TrimUnpadded(r);
    }
  }

  /** Leading whitespace before text that neither starts nor ends with
      whitespace is all `trim` removes. */
  lemma TrimPaddedWord(w: string, s: string)
    requires AllWhitespace(w)
    requires |s| > 0 && !IsWhitespace(s[0]) && !IsWhitespace(s[|s| - 1])
    ensures Trim(w + s) == s
  {
    TrimIgnoresPadding(w, s, []);
    assert w + s + [] == w + s;
    TrimUnpadded(s);
  }

  /** `s.replace(/from/g, to)`: every `from` becomes `to`, all else unchanged. */
  function ReplaceAll(s: string, from: char, to: char): (r: string)
    ensures |r| == |s|
    ensures forall i :: 0 <= i < |s| ==> r[i] == (if s[i] == from then to else s[i])
  {
    seq(|s|, i requires 0 <= i < |s| => if s[i] == from then to else s[i])
  }
}
