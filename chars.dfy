/** Character classes and the Python string built-ins the triage code relies on:
    `str.isspace`/`str.strip`, `str.lower`, `sub in s`, `str.split(sep)`,
    `sep.join(parts)` and `str.replace`.

    Whitespace is exactly the set Python's `str.isspace` (and the `\s` class of
    `re` on str patterns) accepts. Word characters (`\w`) and lower-casing are
    exact on Latin-1 (U+0000..U+00FF); above Latin-1 every character is treated
    as a non-word character that lower-casing leaves alone. */
module Chars {

  /** Python's `str.isspace()`, which is also what `str.strip()` removes and what
      `\s` matches. */
  predicate IsSpace(c: char) {
    ('\t' <= c <= '\r') || ('\U{1C}' <= c <= ' ') || c == '\U{85}' || c == '\U{A0}'
    || c == '\U{1680}' || ('\U{2000}' <= c <= '\U{200A}') || c == '\U{2028}' || c == '\U{2029}'
    || c == '\U{202F}' || c == '\U{205F}' || c == '\U{3000}'
  }

  /** `\w` of Python's `re` on Latin-1: letters, digits (including the
      superscripts and vulgar fractions) and the underscore. */
  predicate IsWordChar(c: char) {
    ('0' <= c <= '9') || ('A' <= c <= 'Z') || ('a' <= c <= 'z') || c == '_'
    || c == '\U{AA}' || c == '\U{B2}' || c == '\U{B3}' || c == '\U{B5}' || c == '\U{B9}'
    || c == '\U{BA}' || ('\U{BC}' <= c <= '\U{BE}')
    || ('\U{C0}' <= c <= '\U{D6}') || ('\U{D8}' <= c <= '\U{F6}') || ('\U{F8}' <= c <= '\U{FF}')
  }

  lemma {:induction false} WordIsNotSpace(c: char)
    ensures IsWordChar(c) ==> !IsSpace(c)
  {
  }

  /** `str.lower()` on one character: A-Z and the Latin-1 capitals U+00C0..U+00DE
      (except the multiplication sign U+00D7) move up by 32. */
  function Lower(c: char): (d: char)
    ensures IsSpace(d) == IsSpace(c) && IsWordChar(d) == IsWordChar(c)
  {
    if ('A' <= c <= 'Z') || ('\U{C0}' <= c <= '\U{DE}' && c != '\U{D7}') then
      (c as int + 32) as char
    else c
  }

  function LowerStr(s: string): (r: string)
    ensures |r| == |s|
  {
    seq(|s|, i requires 0 <= i < |s| => Lower(s[i]))
  }

  lemma {:induction false} LowerIdempotent(c: char)
    ensures Lower(Lower(c)) == Lower(c)
  {
  }

  lemma {:induction false} LowerStrAppend(a: string, b: string)
    ensures LowerStr(a + b) == LowerStr(a) + LowerStr(b)
  {
  }

  /** Every character of `s` is already lower case. */
  predicate IsLowered(s: string) {
    forall i :: 0 <= i < |s| ==> Lower(s[i]) == s[i]
  }

  // ---------------------------------------------------------------- strip

  /** Length of the run of whitespace at the front of `s`. */
  function LeadCount(s: string): (n: nat)
    ensures n <= |s|
    ensures n < |s| ==> !IsSpace(s[n])
  {
    if |s| > 0 && IsSpace(s[0]) then 1 + LeadCount(s[1..]) else 0
  }

  /** Length of the run of whitespace at the back of `s`. */
  function TrailCount(s: string): (n: nat)
    ensures n <= |s|
    ensures n < |s| ==> !IsSpace(s[|s| - 1 - n])
  {
    if |s| > 0 && IsSpace(s[|s| - 1]) then 1 + TrailCount(s[..|s| - 1]) else 0
  }

  /** Every character before `LeadCount(s)` is whitespace. */
  lemma {:induction false} LeadSpace(s: string, k: nat)
    requires k < LeadCount(s)
    ensures IsSpace(s[k])
  {
    if k > 0 {
      assert s[1..][k - 1] == s[k];
      LeadSpace(s[1..], k - 1);
    }
  }

  /** Every character from `|s| - TrailCount(s)` on is whitespace. */
  lemma {:induction false} TrailSpace(s: string, k: nat)
    requires |s| - TrailCount(s) <= k < |s|
    ensures IsSpace(s[k])
  {
    if k < |s| - 1 {
      assert s[..|s| - 1][k] == s[k];
      TrailSpace(s[..|s| - 1], k);
    }
  }

  /** The leading run ends before the trailing run starts, unless the whole
      string is whitespace. */
  lemma {:induction false} LeadBeforeTrail(s: string)
    requires LeadCount(s) < |s|
    ensures LeadCount(s) < |s| - TrailCount(s)
  {
    var n := LeadCount(s);
    if n >= |s| - TrailCount(s) {
      TrailSpace(s, n);
    }
  }

  /** Every character of `s` is whitespace. */
  predicate AllSpace(s: string) {
    forall i :: 0 <= i < |s| ==> IsSpace(s[i])
  }

  /** A whitespace prefix adds its length to the leading run. */
  lemma {:induction false} LeadCountPad(a: string, x: string)
    requires AllSpace(a)
    ensures LeadCount(a + x) == |a| + LeadCount(x)
    decreases |a|
  {
    if a != [] {
      assert (a + x)[1..] == a[1..] + x;
      LeadCountPad(a[1..], x);
    } else {
      assert a + x == x;
    }
  }

  lemma {:induction false} StripLeftPad(a: string, x: string)
    requires AllSpace(a)
    ensures StripLeft(a + x) == StripLeft(x)
  {
    LeadCountPad(a, x);
  }

  /** A whitespace suffix adds its length to the trailing run. */
  lemma {:induction false} TrailCountPad(x: string, b: string)
    requires AllSpace(b)
    ensures TrailCount(x + b) == |b| + TrailCount(x)
    decreases |b|
  {
    if b != [] {
      assert (x + b)[..|x + b| - 1] == x + b[..|b| - 1];
      TrailCountPad(x, b[..|b| - 1]);
    } else {
      assert x + b == x;
    }
  }

  /** `strip()` of a stripped, non-empty text padded with whitespace on both
      sides gives back the text. */
  lemma {:induction false} StripPadded(a: string, x: string, b: string)
    requires AllSpace(a) && AllSpace(b) && x != [] && IsStripped(x)
    ensures Strip(a + x + b) == x
  {
    var s := a + x + b;
    assert s == a + (x + b);
    LeadCountPad(a, x + b);
    assert LeadCount(x + b) == 0;
    TrailCountPad(a + x, b);
    assert TrailCount(a + x) == 0;
    assert s[|a|..|s| - |b|] == x;
  }

  /** A text made only of whitespace strips to nothing. */
  lemma {:induction false} StripAllSpace(s: string)
    requires AllSpace(s)
    ensures Strip(s) == []
  {
    LeadCountPad(s, []);
    assert s + [] == s;
  }

  /** Whitespace joined to whitespace is whitespace. */
  lemma {:induction false} AllSpaceCat(a: string, b: string)
    requires AllSpace(a) && AllSpace(b)
    ensures AllSpace(a + b)
  {
    var s := a + b;
    forall k | 0 <= k < |s| ensures IsSpace(s[k]) {
      if k < |a| { assert s[k] == a[k]; } else { assert s[k] == b[k - |a|]; }
    }
  }

  /** A text whose leading run is all of it is whitespace. */
  lemma {:induction false} LeadAll(t: string)
    requires LeadCount(t) == |t|
    ensures AllSpace(t)
  {
    forall k | 0 <= k < |t| ensures IsSpace(t[k]) {
      LeadSpace(t, k);
    }
  }

  /** A text that is not all whitespace is its `strip()` between two runs of
      whitespace. */
  lemma {:induction false} StripParts(t: string) returns (pre: string, post: string)
    requires LeadCount(t) < |t|
    ensures AllSpace(pre) && AllSpace(post) && Strip(t) != [] && t == pre + Strip(t) + post
  {
    var n := LeadCount(t);
    var tc := TrailCount(t);
    LeadBeforeTrail(t);
    pre := t[..n];
    post := t[|t| - tc..];
    forall k | 0 <= k < |pre| ensures IsSpace(pre[k]) {
      LeadSpace(t, k);
    }
    forall k | 0 <= k < |post| ensures IsSpace(post[k]) {
      TrailSpace(t, |t| - tc + k);
    }
    assert t == pre + t[n..|t| - tc] + post;
  }

  /** Whitespace added around any text does not change its `strip()`. */
  lemma {:induction false} StripAnyPadded(a: string, t: string, b: string)
    requires AllSpace(a) && AllSpace(b)
    ensures Strip(a + t + b) == Strip(t)
  {
    if LeadCount(t) == |t| {
      LeadAll(t);
      AllSpaceCat(a, t);
      AllSpaceCat(a + t, b);
      StripAllSpace(a + t + b);
    } else {
      var pre, post := StripParts(t);
      var m := Strip(t);
      AllSpaceCat(a, pre);
      AllSpaceCat(post, b);
      Regroup(a, pre, m, post, b);
      StripPadded(a + pre, m, post + b);
    }
  }

  lemma {:induction false} Regroup(a: string, p: string, m: string, q: string, b: string)
    ensures a + (p + m + q) + b == (a + p) + m + (q + b)
  {
  }

  /** A text that ends with a non-space character loses only an added
      trailing newline to the right strip. */
  lemma {:induction false} StripRightNewline(x: string)
    requires x != [] && !IsSpace(x[|x| - 1])
    ensures StripRight(x + "\n") == x
  {
    var s := x + "\n";
    assert s[..|s| - 1] == x;
    assert TrailCount(x) == 0;
    assert TrailCount(s) == 1;
  }

  /** `s` with its leading whitespace removed (the `^\s*` of a pattern). */
  function StripLeft(s: string): string {
    s[LeadCount(s)..]
  }

  /** Concatenation regrouped to the left. */
  lemma {:induction false} Assoc(a: string, b: string, c: string)
    ensures a + (b + c) == a + b + c
  {
  }

  /** A non-empty text split after its first character. */
  lemma {:induction false} ConsSplit(x: string, z: string)
    requires x != []
    ensures x + z == [x[0]] + (x[1..] + z)
  {
  }

  /** A text that starts with a non-space character has nothing to strip on
      the left. */
  lemma {:induction false} StripLeftNone(w: string)
    requires w != [] && !IsSpace(w[0])
    ensures StripLeft(w) == w
  {
    assert LeadCount(w) == 0;
  }

  /** `s` with its trailing whitespace removed. */
  function StripRight(s: string): string {
    s[..|s| - TrailCount(s)]
  }

  /** Python's `str.strip()`: the window between the leading and the trailing
      whitespace, empty when `s` is all whitespace. */
  function Strip(s: string): (r: string)
    ensures IsStripped(r)
  {
    if LeadCount(s) == |s| then []
    else
      LeadBeforeTrail(s);
      s[LeadCount(s)..|s| - TrailCount(s)]
  }

  /** Neither end of `s` is whitespace. */
  predicate IsStripped(s: string) {
    s == [] || (!IsSpace(s[0]) && !IsSpace(s[|s| - 1]))
  }

  /** `strip()` keeps exactly the window between the leading and trailing
      whitespace runs. */
  lemma {:induction false} StripWindow(s: string)
    ensures LeadCount(s) < |s| ==> LeadCount(s) < |s| - TrailCount(s)
    ensures Strip(s) == [] <==> forall k :: 0 <= k < |s| ==> IsSpace(s[k])
  {
    if LeadCount(s) < |s| {
      LeadBeforeTrail(s);
    } else {
      forall k | 0 <= k < |s| ensures IsSpace(s[k]) {
        LeadSpace(s, k);
      }
    }
  }

  /** A string whose ends are not whitespace is its own `strip()`. */
  lemma {:induction false} StripFixed(s: string)
    requires IsStripped(s)
    ensures Strip(s) == s
  {
    if |s| > 0 {
      assert LeadCount(s) == 0 && TrailCount(s) == 0;
    }
  }

  lemma {:induction false} StripIdempotent(s: string)
    ensures Strip(Strip(s)) == Strip(s)
  {
    StripFixed(Strip(s));
  }

  lemma {:induction false} LeadCountLower(s: string)
    ensures LeadCount(LowerStr(s)) == LeadCount(s)
  {
    if |s| > 0 && IsSpace(s[0]) {
      assert LowerStr(s)[1..] == LowerStr(s[1..]);
      LeadCountLower(s[1..]);
    }
  }

  lemma {:induction false} TrailCountLower(s: string)
    ensures TrailCount(LowerStr(s)) == TrailCount(s)
  {
    if |s| > 0 && IsSpace(s[|s| - 1]) {
      assert LowerStr(s)[..|s| - 1] == LowerStr(s[..|s| - 1]);
      TrailCountLower(s[..|s| - 1]);
    }
  }

  /** Lower-casing commutes with `strip()`: whitespace is never a cased letter. */
  lemma {:induction false} LowerStrip(s: string)
    ensures LowerStr(Strip(s)) == Strip(LowerStr(s))
  {
    LeadCountLower(s);
    TrailCountLower(s);
    var n, t := LeadCount(s), TrailCount(s);
    if n < |s| {
      LowerStripSpan(s, LowerStr(s), n, t);
    } else {
      LowerStripBlank(s, LowerStr(s));
    }
  }

  lemma {:induction false} LowerStripSpan(s: string, l: string, n: nat, t: nat)
    requires l == LowerStr(s) && n < |s|
    requires n == LeadCount(s) == LeadCount(l) && t == TrailCount(s) == TrailCount(l)
    ensures LowerStr(Strip(s)) == Strip(l)
  {
    StripSpan(s, n, t);
    StripSpan(l, n, t);
    var x, y := LowerStr(Strip(s)), Strip(l);
    assert |x| == |y|;
    forall k | 0 <= k < |x| ensures x[k] == y[k] {
      StripAt(s, k);
      StripAt(l, k);
    }
  }

  lemma {:induction false} LowerStripBlank(s: string, l: string)
    requires l == LowerStr(s) && LeadCount(s) == |s| == LeadCount(l)
    ensures LowerStr(Strip(s)) == Strip(l)
  {
    assert Strip(s) == [] && Strip(l) == [];
    assert |LowerStr([])| == 0;
  }

  /** The `i`-th character of `strip()` is the `i`-th after the leading run. */
  lemma {:induction false} StripAt(s: string, i: nat)
    requires i < |Strip(s)|
    ensures LeadCount(s) + i < |s| && Strip(s)[i] == s[LeadCount(s) + i]
  {
    if LeadCount(s) < |s| {
      StripSpan(s, LeadCount(s), TrailCount(s));
    }
  }

  /** Outside the all-whitespace case, `strip()` is the window between the
      two runs. */
  lemma {:induction false} StripSpan(s: string, n: nat, t: nat)
    requires n == LeadCount(s) < |s| && t == TrailCount(s)
    ensures n < |s| - t && Strip(s) == s[n..|s| - t]
  {
    LeadBeforeTrail(s);
  }

  lemma {:induction false} LowerStrSlice(s: string, a: nat, b: nat)
    requires a <= b <= |s|
    ensures LowerStr(s[a..b]) == LowerStr(s)[a..b]
  {
  }

  // ------------------------------------------------------------- substrings

  /** `sub` occurs in `s` starting at index `i`. */
  predicate OccursAt(s: string, sub: string, i: int) {
    0 <= i && i + |sub| <= |s| && s[i..i + |sub|] == sub
  }

  /** Python's `sub in s`. */
  predicate Contains(s: string, sub: string) {
    exists i | 0 <= i <= |s| - |sub| :: OccursAt(s, sub, i)
  }

  /** `any(kw in s for kw in kws)`. */
  predicate ContainsAny(s: string, kws: seq<string>) {
    exists k | 0 <= k < |kws| :: Contains(s, kws[k])
  }

  /** A keyword of `a + b` is a keyword of `a` or of `b`. */
  lemma {:induction false} ContainsAnyAppend(s: string, a: seq<string>, b: seq<string>)
    ensures ContainsAny(s, a + b) <==> ContainsAny(s, a) || ContainsAny(s, b)
  {
    if ContainsAny(s, a + b) {
      var k :| 0 <= k < |a + b| && Contains(s, (a + b)[k]);
      if k >= |a| {
        assert (a + b)[k] == b[k - |a|];
      }
    }
    if ContainsAny(s, a) {
      var k :| 0 <= k < |a| && Contains(s, a[k]);
      assert (a + b)[k] == a[k];
    }
    if ContainsAny(s, b) {
      var k :| 0 <= k < |b| && Contains(s, b[k]);
      assert (a + b)[|a| + k] == b[k];
    }
  }

  lemma {:induction false} ContainsWithin(s: string, sub: string, i: int, j: int)
    requires 0 <= i <= j <= |s| && Contains(s[i..j], sub)
    ensures Contains(s, sub)
  {
    var k :| 0 <= k <= j - i - |sub| && OccursAt(s[i..j], sub, k);
    var w := s[i..j];
    assert w[k..k + |sub|] == sub;
    forall m | 0 <= m < |sub| ensures s[i + k + m] == sub[m] {
      assert sub[m] == w[k + m];
    }
    assert s[i + k..i + k + |sub|] == sub;
    assert OccursAt(s, sub, i + k);
  }

  lemma {:induction false} ContainsAnyWithin(s: string, kws: seq<string>, i: int, j: int)
    requires 0 <= i <= j <= |s| && ContainsAny(s[i..j], kws)
    ensures ContainsAny(s, kws)
  {
    var k :| 0 <= k < |kws| && Contains(s[i..j], kws[k]);
    ContainsWithin(s, kws[k], i, j);
  }

  // ------------------------------------------------------- split and join

  /** Index of the first `c` in `s`. */
  function IndexOf(s: string, c: char): (i: nat)
    requires c in s
    ensures i < |s| && s[i] == c && c !in s[..i]
  {
    if s[0] == c then 0 else 1 + IndexOf(s[1..], c)
  }

  /** `sep.join(parts)`. */
  function Join(parts: seq<string>, sep: char): string {
    if parts == [] then []
    else if |parts| == 1 then parts[0]
    else parts[0] + [sep] + Join(parts[1..], sep)
  }

  /** Python's `s.split(sep)` for a one-character separator: every separator
      cuts, so neighbouring separators give empty pieces. */
  function Split(s: string, sep: char): (parts: seq<string>)
    ensures |parts| >= 1
    ensures forall k :: 0 <= k < |parts| ==> sep !in parts[k]
    ensures Join(parts, sep) == s
    decreases |s|
  {
    if sep !in s then [s]
    else
      var i := IndexOf(s, sep);
      var rest := Split(s[i + 1..], sep);
      assert s == s[..i] + [sep] + s[i + 1..];
      [s[..i]] + rest
  }

  lemma {:induction false} IndexOfAt(s: string, c: char, j: int)
    requires 0 <= j < |s| && s[j] == c && c !in s[..j]
    ensures c in s && IndexOf(s, c) == j
  {
    if j > 0 {
      assert s[0] != c by { assert s[..j][0] == s[0]; }
      assert s[1..][..j - 1] == s[1..j];
      IndexOfAt(s[1..], c, j - 1);
    }
  }

  /** The first `c` in `x + [c] + y`, when `x` has none, is the one after
      `x`. */
  lemma {:induction false} IndexOfAfter(x: string, c: char, y: string)
    requires c !in x
    ensures var s := x + [c] + y;
            c in s && IndexOf(s, c) == |x| && s[..|x|] == x && s[|x| + 1..] == y
  {
    var s := x + [c] + y;
    assert s[..|x|] == x;
    IndexOfAt(s, c, |x|);
    assert s[|x| + 1..] == y;
  }

  /** Splitting undoes joining when no part holds the separator. */
  lemma {:induction false} SplitJoin(parts: seq<string>, sep: char)
    requires |parts| >= 1
    requires forall k :: 0 <= k < |parts| ==> sep !in parts[k]
    ensures Split(Join(parts, sep), sep) == parts
  {
    if |parts| > 1 {
      var s := Join(parts, sep);
      var p := parts[0];
      assert s == p + [sep] + Join(parts[1..], sep);
      assert s[..|p|] == p;
      IndexOfAt(s, sep, |p|);
      assert s[|p| + 1..] == Join(parts[1..], sep);
      SplitJoin(parts[1..], sep);
    }
  }

  lemma {:induction false} JoinNotIn(parts: seq<string>, sep: char, c: char)
    requires c != sep && forall k :: 0 <= k < |parts| ==> c !in parts[k]
    ensures c !in Join(parts, sep)
  {
    if |parts| > 1 {
      JoinNotIn(parts[1..], sep, c);
    }
  }

  /** A property of characters that holds of the separator and of every
      character of every part holds of every character of the join. */
  lemma {:induction false} JoinKeeps(parts: seq<string>, sep: char, P: char -> bool)
    requires P(sep)
    requires forall k, j :: 0 <= k < |parts| && 0 <= j < |parts[k]| ==> P(parts[k][j])
    ensures forall i :: 0 <= i < |Join(parts, sep)| ==> P(Join(parts, sep)[i])
  {
    if |parts| > 1 {
      JoinKeeps(parts[1..], sep, P);
      var s := Join(parts, sep);
      var p := parts[0];
      forall i | 0 <= i < |s| ensures P(s[i]) {
        if i < |p| {
          assert s[i] == p[i];
        } else if i > |p| {
          assert s[i] == Join(parts[1..], sep)[i - |p| - 1];
        }
      }
    }
  }

  /** The first and last characters of a join of non-empty parts come from the
      first and last parts. */
  lemma {:induction false} JoinEnds(parts: seq<string>, sep: char)
    requires |parts| >= 1 && forall k :: 0 <= k < |parts| ==> parts[k] != []
    ensures Join(parts, sep) != []
    ensures Join(parts, sep)[0] == parts[0][0]
    ensures Join(parts, sep)[|Join(parts, sep)| - 1] == parts[|parts| - 1][|parts[|parts| - 1]| - 1]
  {
    if |parts| > 1 {
      JoinEnds(parts[1..], sep);
    }
  }

  // --------------------------------------------------------------- replace

  /** Python's `s.replace(pat, rep)`: leftmost, non-overlapping occurrences. */
  function Replace(s: string, pat: string, rep: string): string
    requires pat != []
    decreases |s|
  {
    if s == [] then []
    else if |pat| <= |s| && s[..|pat|] == pat then rep + Replace(s[|pat|..], pat, rep)
    else [s[0]] + Replace(s[1..], pat, rep)
  }

  /** Removes every occurrence of `c` (`s.replace(c, "")`). */
  function RemoveChar(s: string, c: char): (r: string)
    ensures c !in r
    ensures forall x :: x != c ==> (x in r <==> x in s)
  {
    if s == [] then []
    else if s[0] == c then RemoveChar(s[1..], c)
    else [s[0]] + RemoveChar(s[1..], c)
  }

  /** Replaces every occurrence of the character `c` by `d`. */
  function ReplaceChar(s: string, c: char, d: char): (r: string)
    ensures |r| == |s|
    ensures forall i :: 0 <= i < |s| ==> r[i] == (if s[i] == c then d else s[i])
  {
    seq(|s|, i requires 0 <= i < |s| => if s[i] == c then d else s[i])
  }
}
