/** `is_strong_spam` (app/services/ai_client.py) and `spam_forte`
    (app/services/cliente_ia.py): a message is strong spam when it carries a
    link and one spam keyword, or two spam keywords, or an unsubscribe
    marker. */
module Spam {
  import opened Chars
  import opened Profiles

  // ---------------------------------------------------------------- links

  /** `https?://\S+|www\.\S+` matches the lower-cased text at `i`: a prefix
      followed by at least one non-whitespace character. */
  predicate UrlAt(s: string, i: int) {
    || (OccursAt(s, "http://", i) && i + 7 < |s| && !IsSpace(s[i + 7]))
    || (OccursAt(s, "https://", i) && i + 8 < |s| && !IsSpace(s[i + 8]))
    || (OccursAt(s, "www.", i) && i + 4 < |s| && !IsSpace(s[i + 4]))
  }

  /** `URL_REGEX.search(raw)` with `re.IGNORECASE`. */
  predicate HasUrl(raw: string) {
    var s := LowerStr(raw);
    exists i | 0 <= i <= |s| :: UrlAt(s, i)
  }

  /** A link in any case, followed by a visible character, is found wherever
      it stands. */
  lemma {:induction false} UrlFound(a: string, u: string, c: char, b: string)
    requires LowerStr(u) == "http://" || LowerStr(u) == "https://" || LowerStr(u) == "www."
    requires !IsSpace(c)
    ensures HasUrl(a + u + [c] + b)
  {
    var s := LowerStr(a + u + [c] + b);
    LowerStrAppend(a + u + [c], b);
    LowerStrAppend(a + u, [c]);
    LowerStrAppend(a, u);
    var v := LowerStr(u);
    assert s == LowerStr(a) + v + [Lower(c)] + LowerStr(b);
    assert s[|a|..|a| + |v|] == v;
    assert s[|a| + |v|] == Lower(c);
    assert UrlAt(s, |a|);
  }

  // ---------------------------------------------------------------- hits

  /** The number of keywords of `kws` contained in `t`, counted in list
      order. */
  function Hits(kws: seq<string>, t: string): (n: nat)
    ensures n <= |kws|
  {
    if kws == [] then 0
    else Hits(kws[..|kws| - 1], t) + (if Contains(t, kws[|kws| - 1]) then 1 else 0)
  }

  /** Two different positions of the list hold keywords of the text. */
  predicate TwoHits(t: string, kws: seq<string>) {
    exists j, k | 0 <= j < k < |kws| :: Contains(t, kws[j]) && Contains(t, kws[k])
  }

  /** The markers that settle a message on their own. */
  const UnsubscribeMarkers: seq<string> := ["unsubscribe", "descadastrar", "remover inscr"]

  /** The decision the loop reaches. */
  predicate StrongSpam(p: Profile, text: string) {
    var raw := Strip(text);
    var t := LowerStr(raw);
    var hits := Hits(p.spamKeywords, t);
    (HasUrl(raw) && hits >= 1) || hits >= 2 || ContainsAny(t, UnsubscribeMarkers)
  }

  /** The source's loop: count the keywords, then apply the three tests in
      order. */
  method IsStrongSpam(p: Profile, text: string) returns (spam: bool)
    ensures spam == StrongSpam(p, text)
  {
    var raw := Strip(text);
    var t := LowerStr(raw);
    var hasUrl := HasUrl(raw);
    var kws := p.spamKeywords;
    var hits := 0;
    for i := 0 to |kws|
      invariant hits == Hits(kws[..i], t)
    {
      assert kws[..i + 1][..i] == kws[..i];
      if Contains(t, kws[i]) {
        hits := hits + 1;
      }
    }
    assert kws[..|kws|] == kws;
    assert UnsubscribeMarkers[0] == "unsubscribe" && UnsubscribeMarkers[1] == "descadastrar"
        && UnsubscribeMarkers[2] == "remover inscr";
    if hasUrl && hits >= 1 {
      return true;
    }
    if hits >= 2 {
      return true;
    }
    if Contains(t, "unsubscribe") || Contains(t, "descadastrar") || Contains(t, "remover inscr") {
      return true;
    }
    return false;
  }

  // -------------------------------------------------------------- lemmas

  /** At least one hit exactly when some keyword is contained. */
  lemma {:induction false} HitsPositive(kws: seq<string>, t: string)
    ensures Hits(kws, t) >= 1 <==> ContainsAny(t, kws)
  {
    if kws != [] {
      var init := kws[..|kws| - 1];
      HitsPositive(init, t);
      if ContainsAny(t, init) {
        var k :| 0 <= k < |init| && Contains(t, init[k]);
        assert kws[k] == init[k];
      }
      if ContainsAny(t, kws) && !Contains(t, kws[|kws| - 1]) {
        var k :| 0 <= k < |kws| && Contains(t, kws[k]);
        assert init[k] == kws[k];
      }
    }
  }

  /** At least two hits exactly when two different list positions hold
      keywords of the text. */
  lemma {:induction false} HitsTwo(kws: seq<string>, t: string)
    ensures Hits(kws, t) >= 2 <==> TwoHits(t, kws)
  {
    if kws != [] {
      var init := kws[..|kws| - 1];
      var last := |kws| - 1;
      HitsTwo(init, t);
      HitsPositive(init, t);
      if TwoHits(t, init) {
        var j, k :| 0 <= j < k < |init| && Contains(t, init[j]) && Contains(t, init[k]);
        assert kws[j] == init[j] && kws[k] == init[k];
      }
      if Contains(t, kws[last]) && ContainsAny(t, init) {
        var j :| 0 <= j < |init| && Contains(t, init[j]);
        assert kws[j] == init[j];
      }
      if TwoHits(t, kws) {
        var j, k :| 0 <= j < k < |kws| && Contains(t, kws[j]) && Contains(t, kws[k]);
        if k == last {
          assert init[j] == kws[j];
        } else {
          assert init[j] == kws[j] && init[k] == kws[k];
        }
      }
    }
  }

  /** The spam rule without the counter: a link and a keyword, two different
      keywords, or an unsubscribe marker. */
  lemma {:induction false} StrongSpamIff(p: Profile, text: string)
    ensures var raw := Strip(text);
            var t := LowerStr(raw);
            StrongSpam(p, text) <==>
              (HasUrl(raw) && ContainsAny(t, p.spamKeywords))
              || TwoHits(t, p.spamKeywords)
              || ContainsAny(t, UnsubscribeMarkers)
  {
    var t := LowerStr(Strip(text));
    HitsPositive(p.spamKeywords, t);
    HitsTwo(p.spamKeywords, t);
  }

  /** A keyword that has an upper-case letter can never occur in lower-cased
      text. */
  lemma {:induction false} UpperCaseKeywordNeverHits(s: string, kw: string, j: int)
    requires 0 <= j < |kw| && Lower(kw[j]) != kw[j]
    ensures !Contains(LowerStr(s), kw)
  {
    var t := LowerStr(s);
    forall i | 0 <= i <= |t| - |kw| ensures !OccursAt(t, kw, i) {
      LowerIdempotent(s[i + j]);
      assert t[i + j] != kw[j];
      assert t[i..i + |kw|][j] == t[i + j];
    }
  }
}
