/** The trivial-greeting patterns (`TRIVIAL_PATTERNS` in app/services/ai_client.py,
    `PADROES_MENSAGENS_TRIVIAIS` in app/services/cliente_ia.py and
    app/utils/Respostas.py). Every pattern has the shape
    `^\s*w1\s+w2 ... \s*!?\s*$`; `re.match` of such a pattern is written out
    as a scanner, and is shown to accept exactly the texts laid out as
    whitespace, the spelled words separated by whitespace, whitespace, an
    optional '!', and whitespace. */
module Greetings {
  import opened Chars
  import opened Profiles

  /** `s` spells `word`: one accepted character per position. */
  predicate Spells(word: Word, s: string) {
    |s| == |word| && forall j :: 0 <= j < |s| ==> s[j] in word[j]
  }

  /** The end of every pattern: `\s*!?\s*$`. */
  predicate TailOk(s: string) {
    var r := StripLeft(s);
    r == [] || (r[0] == '!' && AllSpace(r[1..]))
  }

  /** The words of a pattern, separated by `\s+`, from the start of `s`, then
      the end of the pattern. A word's classes never accept whitespace, so the
      greedy `\s+` between two words gives up nothing. */
  function MatchWords(words: seq<Word>, s: string): bool
    decreases |words|
  {
    if words == [] then TailOk(s)
    else
      var w := words[0];
      && |s| >= |w|
      && Spells(w, s[..|w|])
      && var r := s[|w|..];
         if |words| == 1 then TailOk(r)
         else LeadCount(r) >= 1 && MatchWords(words[1..], StripLeft(r))
  }

  /** `re.match(pattern, s)` for a trivial-greeting pattern. */
  predicate Matches(pat: Pattern, s: string) {
    MatchWords(pat.words, StripLeft(s))
  }

  // ------------------------------------------------ the layout of a greeting

  /** A greeting laid out piece by piece: leading whitespace, the spelled words
      with the whitespace between them, whitespace, an optional '!', and
      trailing whitespace. */
  datatype Layout = Layout(lead: string, spelled: seq<string>, gaps: seq<string>,
                           mid: string, bang: bool, trail: string)

  /** Every spelled word spells the pattern's word, every gap is non-empty
      whitespace, and the padding is whitespace. */
  predicate Fits(pat: Pattern, g: Layout) {
    && |g.spelled| == |pat.words| >= 1
    && |g.gaps| + 1 == |g.spelled|
    && (forall k :: 0 <= k < |g.spelled| ==> Spells(pat.words[k], g.spelled[k]))
    && (forall k :: 0 <= k < |g.gaps| ==> g.gaps[k] != [] && AllSpace(g.gaps[k]))
    && AllSpace(g.lead) && AllSpace(g.mid) && AllSpace(g.trail)
  }

  function Interleave(spelled: seq<string>, gaps: seq<string>): string
    requires |spelled| >= 1 && |gaps| + 1 == |spelled|
    decreases |spelled|
  {
    if |spelled| == 1 then spelled[0]
    else spelled[0] + gaps[0] + Interleave(spelled[1..], gaps[1..])
  }

  function Bang(b: bool): string {
    if b then "!" else ""
  }

  function Render(g: Layout): string
    requires |g.spelled| >= 1 && |g.gaps| + 1 == |g.spelled|
  {
    g.lead + Interleave(g.spelled, g.gaps) + g.mid + Bang(g.bang) + g.trail
  }

  // ------------------------------------------------------------ lemmas

  lemma {:induction false} StripLeftAllSpace(s: string)
    ensures StripLeft(s) == [] <==> AllSpace(s)
  {
    if AllSpace(s) {
      LeadCountPad(s, []);
      assert s + [] == s;
    }
    if StripLeft(s) == [] {
      LeadAllSpace(s);
      assert s[..LeadCount(s)] == s;
    }
  }

  /** The leading run of `s` is whitespace. */
  lemma {:induction false} LeadAllSpace(s: string)
    ensures AllSpace(s[..LeadCount(s)])
  {
    forall i | 0 <= i < LeadCount(s) ensures IsSpace(s[..LeadCount(s)][i]) {
      LeadSpace(s, i);
    }
  }

  /** The end of a layout passes the end of the pattern. */
  lemma {:induction false} TailOkLayout(mid: string, bang: bool, trail: string)
    requires AllSpace(mid) && AllSpace(trail)
    ensures TailOk(mid + Bang(bang) + trail)
  {
    var t := mid + Bang(bang) + trail;
    assert t == mid + (Bang(bang) + trail);
    StripLeftPad(mid, Bang(bang) + trail);
    if bang {
      assert ("!" + trail)[1..] == trail;
      assert LeadCount("!" + trail) == 0;
    } else {
      assert Bang(bang) + trail == trail;
      StripLeftAllSpace(trail);
    }
  }

  /** A non-empty string whose first character is not whitespace. */
  predicate StartsVisible(s: string) {
    s != [] && !IsSpace(s[0])
  }

  lemma {:induction false} SpelledVisible(pat: Pattern, g: Layout, k: int)
    requires Fits(pat, g) && 0 <= k < |g.spelled|
    ensures StartsVisible(g.spelled[k])
  {
    var w := pat.words[k];
    assert g.spelled[k][0] in w[0];
  }

  /** Completeness on the words: the interleaved words followed by an
      acceptable end are accepted. */
  lemma {:induction false} MatchInterleave(words: seq<Word>, spelled: seq<string>, gaps: seq<string>, tail: string)
    requires |spelled| == |words| >= 1 && |gaps| + 1 == |spelled|
    requires forall k :: 0 <= k < |words| ==> Spells(words[k], spelled[k])
    requires forall k :: 0 <= k < |gaps| ==> AllSpace(gaps[k]) && gaps[k] != []
    requires forall k :: 1 <= k < |spelled| ==> StartsVisible(spelled[k])
    requires TailOk(tail)
    ensures MatchWords(words, Interleave(spelled, gaps) + tail)
    decreases |words|
  {
    var s := Interleave(spelled, gaps) + tail;
    var w := words[0];
    if |words| == 1 {
      assert s == spelled[0] + tail;
      assert s[..|w|] == spelled[0];
      assert s[|w|..] == tail;
    } else {
      var rest := Interleave(spelled[1..], gaps[1..]) + tail;
      assert s == spelled[0] + (gaps[0] + rest);
      assert s[..|w|] == spelled[0];
      assert s[|w|..] == gaps[0] + rest;
      assert spelled[1..][0] == spelled[1];
      assert rest == spelled[1] + (Interleave(spelled[1..], gaps[1..])[|spelled[1]|..] + tail);
      LeadCountPad(gaps[0], rest);
      assert LeadCount(rest) == 0;
      StripLeftPad(gaps[0], rest);
      MatchInterleave(words[1..], spelled[1..], gaps[1..], tail);
    }
  }

  /** Every layout of a pattern is accepted by the pattern. */
  lemma {:induction false} MatchesLayout(pat: Pattern, g: Layout)
    requires Fits(pat, g)
    ensures Matches(pat, Render(g))
  {
    var body := Interleave(g.spelled, g.gaps);
    var tail := g.mid + Bang(g.bang) + g.trail;
    assert Render(g) == g.lead + (body + tail);
    StripLeftPad(g.lead, body + tail);
    forall k | 0 <= k < |g.spelled| ensures StartsVisible(g.spelled[k]) {
      SpelledVisible(pat, g, k);
    }
    InterleaveStarts(g.spelled, g.gaps);
    assert LeadCount(body + tail) == 0;
    TailOkLayout(g.mid, g.bang, g.trail);
    MatchInterleave(pat.words, g.spelled, g.gaps, tail);
  }

  lemma {:induction false} InterleaveStarts(spelled: seq<string>, gaps: seq<string>)
    requires |spelled| >= 1 && |gaps| + 1 == |spelled| && StartsVisible(spelled[0])
    ensures Interleave(spelled, gaps) != [] && Interleave(spelled, gaps)[0] == spelled[0][0]
  {
  }

  // ---------------------------------------------------- reading a layout back

  /** The end of an accepted text split into whitespace, '!' and whitespace. */
  lemma {:induction false} TailLayout(t: string) returns (mid: string, bang: bool, trail: string)
    requires TailOk(t)
    ensures AllSpace(mid) && AllSpace(trail) && t == mid + Bang(bang) + trail
  {
    var n := LeadCount(t);
    mid := t[..n];
    LeadAllSpace(t);
    var r := t[n..];
    if r == [] {
      bang, trail := false, [];
      assert t == mid;
    } else {
      bang, trail := true, r[1..];
      assert r == "!" + trail;
      assert t == mid + r;
    }
  }

  /** Soundness on the words: an accepted text is interleaved words followed by
      an acceptable end. */
  lemma {:induction false} WordsLayout(words: seq<Word>, s: string)
    returns (spelled: seq<string>, gaps: seq<string>, tail: string)
    requires |words| >= 1 && MatchWords(words, s)
    ensures |spelled| == |words| && |gaps| + 1 == |spelled|
    ensures AllSpell(words, spelled) && AllGaps(gaps)
    ensures TailOk(tail)
    ensures s == Interleave(spelled, gaps) + tail
    decreases |words|
  {
    var w := words[0];
    var r := s[|w|..];
    if |words| == 1 {
      spelled, gaps, tail := [s[..|w|]], [], r;
      assert s == s[..|w|] + r;
    } else {
      var sp, gs, tl := WordsLayout(words[1..], StripLeft(s[|w|..]));
      spelled, gaps, tail := WordsLayoutStep(words, s, sp, gs, tl);
    }
  }

  /** The step of `WordsLayout`: the first word and the gap after it, put in
      front of the layout of the rest. */
  lemma {:induction false} WordsLayoutStep(words: seq<Word>, s: string, sp: seq<string>, gs: seq<string>, tl: string)
    returns (spelled: seq<string>, gaps: seq<string>, tail: string)
    requires |words| >= 2 && MatchWords(words, s)
    requires |sp| == |words| - 1 && |gs| + 1 == |sp|
    requires AllSpell(words[1..], sp) && AllGaps(gs) && TailOk(tl)
    requires StripLeft(s[|words[0]|..]) == Interleave(sp, gs) + tl
    ensures |spelled| == |words| && |gaps| + 1 == |spelled|
    ensures AllSpell(words, spelled) && AllGaps(gaps)
    ensures TailOk(tail)
    ensures s == Interleave(spelled, gaps) + tail
  {
    var w := words[0];
    var r := s[|w|..];
    var n := LeadCount(r);
    spelled, gaps, tail := [s[..|w|]] + sp, [r[..n]] + gs, tl;
    assert spelled[1..] == sp && gaps[1..] == gs;
    LeadAllSpace(r);
    SpellsCons(words, spelled);
    GapsCons(r[..n], gs);
    InterleaveCons(spelled, gaps);
    assert StripLeft(r) == r[n..];
    ConcatSplit(s, s[..|w|], r, r[..n], StripLeft(r), Interleave(sp, gs), tl);
  }

  lemma {:induction false} ConcatSplit(s: string, a: string, r: string, b: string, rest: string, i: string, t: string)
    requires s == a + r && r == b + rest && rest == i + t
    ensures s == a + b + i + t
  {
  }

  lemma {:induction false} InterleaveCons(spelled: seq<string>, gaps: seq<string>)
    requires |spelled| >= 2 && |gaps| + 1 == |spelled|
    ensures Interleave(spelled, gaps) == spelled[0] + gaps[0] + Interleave(spelled[1..], gaps[1..])
  {
  }

  predicate AllSpell(words: seq<Word>, spelled: seq<string>)
    requires |words| == |spelled|
  {
    forall k :: 0 <= k < |words| ==> Spells(words[k], spelled[k])
  }

  predicate AllGaps(gaps: seq<string>) {
    forall k :: 0 <= k < |gaps| ==> AllSpace(gaps[k]) && gaps[k] != []
  }

  lemma {:induction false} SpellsCons(words: seq<Word>, spelled: seq<string>)
    requires |words| == |spelled| >= 1
    requires Spells(words[0], spelled[0])
    requires AllSpell(words[1..], spelled[1..])
    ensures AllSpell(words, spelled)
  {
    forall k | 1 <= k < |words| ensures Spells(words[k], spelled[k]) {
      assert words[k] == words[1..][k - 1] && spelled[k] == spelled[1..][k - 1];
    }
  }

  lemma {:induction false} GapsCons(g: string, gs: seq<string>)
    requires AllSpace(g) && g != []
    requires AllGaps(gs)
    ensures AllGaps([g] + gs)
  {
    forall k | 1 <= k < |gs| + 1 ensures AllSpace(([g] + gs)[k]) && ([g] + gs)[k] != [] {
      assert ([g] + gs)[k] == gs[k - 1];
    }
  }

  /** Every accepted text has a layout. */
  lemma {:induction false} LayoutOf(pat: Pattern, s: string) returns (g: Layout)
    requires Matches(pat, s)
    ensures Fits(pat, g) && Render(g) == s
  {
    var n := LeadCount(s);
    var sp, gs, tl := WordsLayout(pat.words, StripLeft(s));
    var mid, bang, trail := TailLayout(tl);
    LeadAllSpace(s);
    g := Layout(s[..n], sp, gs, mid, bang, trail);
    FitsOf(pat, g);
    RenderJoin(s, n, s[..n], StripLeft(s), Interleave(sp, gs), tl, mid, Bang(bang), trail);
  }

  lemma {:induction false} FitsOf(pat: Pattern, g: Layout)
    requires |g.spelled| == |pat.words| >= 1 && |g.gaps| + 1 == |g.spelled|
    requires AllSpell(pat.words, g.spelled) && AllGaps(g.gaps)
    requires AllSpace(g.lead) && AllSpace(g.mid) && AllSpace(g.trail)
    ensures Fits(pat, g)
  {
  }

  lemma {:induction false} RenderJoin(s: string, k: nat, lead: string, r: string, body: string, tl: string, mid: string, bang: string, trail: string)
    requires k <= |s| && lead == s[..k] && r == s[k..] && r == body + tl && tl == mid + bang + trail
    ensures lead + body + mid + bang + trail == s
  {
    assert s == s[..k] + s[k..];
  }

  /** `re.match` of a trivial-greeting pattern accepts exactly the layouts of
      its words. */
  lemma {:induction false} MatchesIffLayout(pat: Pattern, s: string)
    ensures Matches(pat, s) <==> exists g :: Fits(pat, g) && Render(g) == s
  {
    if Matches(pat, s) {
      var g := LayoutOf(pat, s);
    }
    if g :| Fits(pat, g) && Render(g) == s {
      MatchesLayout(pat, g);
    }
  }
}
