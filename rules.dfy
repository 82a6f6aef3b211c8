/** The deterministic rules that settle an e-mail before the model is asked:
    social greetings, trivial messages, automatic "no-reply" senders, and the
    recognition of a quota error raised by the model's client. The strong-spam
    rule has a module of its own (`Spam`). */
module Rules {
  import opened Chars
  import opened Normalizer
  import opened Profiles
  import opened Greetings
  import opened Replies

  /** `_norm` / `normalizar_texto`: the normaliser with the profile's literals. */
  function Norm(p: Profile, text: string): string {
    Preprocess(p.stopwords, p.keep, text)
  }

  /** `lower()` is a closure operator on strings. */
  lemma {:induction false} LowerStrIdempotent(s: string)
    ensures LowerStr(LowerStr(s)) == LowerStr(s)
  {
    forall i | 0 <= i < |s| ensures LowerStr(LowerStr(s))[i] == LowerStr(s)[i] {
      LowerIdempotent(s[i]);
    }
  }

  /** A string occurs in any string built around it. */
  lemma {:induction false} ContainsMiddle(a: string, m: string, b: string)
    ensures Contains(a + m + b, m)
  {
    assert (a + m + b)[|a|..|a| + |m|] == m;
    assert OccursAt(a + m + b, m, |a|);
  }

  // ------------------------------------------------------------- social

  const MaxSocialLength: int := 120

  /** `is_social_message` / `mensagem_social`: a short normalised text with a
      social keyword. */
  predicate IsSocial(p: Profile, text: string) {
    SocialText(p, Norm(p, text))
  }

  predicate SocialText(p: Profile, t: string) {
    ContainsAny(t, SocialKeywords(p)) && |t| <= MaxSocialLength
  }

  /** `social_message_reply` / `gerar_resposta_mensagem_social`: Christmas wins
      over New Year, which wins over congratulations. */
  function SocialReply(p: Profile, text: string): (r: Reply)
    ensures ValidProfile(p) ==> WellFormed(r)
    ensures r.categoria == Improdutivo && r.justificativa == p.socialJustification
  {
    SocialReplyTo(p, Norm(p, text))
  }

  /** The social reply to the normalised text `t`. */
  function SocialReplyTo(p: Profile, t: string): (r: Reply)
    ensures ValidProfile(p) ==> WellFormed(r)
    ensures r.categoria == Improdutivo && r.justificativa == p.socialJustification
  {
    var resposta :=
      if ContainsAny(t, ChristmasKeywords) then p.christmasReply
      else if ContainsAny(t, NewYearKeywords) then p.newYearReply
      else if ContainsAny(t, p.congratsKeywords) then p.congratsReply
      else p.genericSocialReply;
    Reply(Improdutivo, resposta, p.socialJustification)
  }

  /** The social rule in terms of the normalised text and the keyword groups. */
  lemma {:induction false} SocialByNorm(p: Profile, text: string, t: string)
    requires Norm(p, text) == t
    ensures IsSocial(p, text) <==>
      (ContainsAny(t, ChristmasKeywords + NewYearKeywords) || ContainsAny(t, p.congratsKeywords))
      && |t| <= MaxSocialLength
  {
    ContainsAnyAppend(t, ChristmasKeywords + NewYearKeywords, p.congratsKeywords);
  }

  /** A message the social rule accepts always gets one of the three themed
      replies, chosen by the first group of keywords it contains. */
  lemma {:induction false} SocialReplyThemed(p: Profile, text: string)
    requires IsSocial(p, text)
    ensures var r := SocialReply(p, text).resposta;
            r == p.christmasReply || r == p.newYearReply || r == p.congratsReply
  {
    var t := Norm(p, text);
    ContainsAnyAppend(t, ChristmasKeywords + NewYearKeywords, p.congratsKeywords);
    ContainsAnyAppend(t, ChristmasKeywords, NewYearKeywords);
  }

  /** Both the rule and its reply look only at the normalised text, so
      normalising first changes neither. */
  lemma {:induction false} SocialOnNormalised(p: Profile, text: string)
    ensures IsSocial(p, Norm(p, text)) == IsSocial(p, text)
    ensures SocialReply(p, Norm(p, text)) == SocialReply(p, text)
  {
    PreprocessIdempotent(p.stopwords, p.keep, text);
  }

  // ------------------------------------------------------------- trivial

  /** The words that make a short message a work message. */
  const WorkHints: seq<string> :=
    ["caso", "chamado", "status", "suporte", "erro", "problema", "documento", "contrato", "pagamento"]

  /** `(email_text or "").strip().lower()`. */
  function Raw(text: string): string {
    LowerStr(Strip(text))
  }

  /** Some trivial-greeting pattern accepts `raw` (`re.match`). */
  predicate MatchesSomePattern(pats: seq<Pattern>, raw: string) {
    exists k | 0 <= k < |pats| :: Matches(pats[k], raw)
  }

  /** At most two normalised words, none of them hinting at work. */
  predicate IsShortChat(p: Profile, raw: string) {
    |Tokens(Norm(p, raw))| <= 2 && !ContainsAny(Norm(p, raw), WorkHints)
  }

  /** `is_trivial_message` / `mensagem_trivial`. */
  predicate IsTrivial(p: Profile, text: string) {
    var raw := Raw(text);
    raw == [] || MatchesSomePattern(p.trivialPatterns, raw) || IsShortChat(p, raw)
  }

  /** Every layout of a greeting pattern -- any case, any whitespace around
      and between the words, an optional '!' -- is trivial. */
  lemma {:induction false} TrivialGreeting(p: Profile, text: string, k: int, g: Layout)
    requires 0 <= k < |p.trivialPatterns|
    requires Fits(p.trivialPatterns[k], g) && Raw(text) == Render(g)
    ensures IsTrivial(p, text)
  {
    MatchesLayout(p.trivialPatterns[k], g);
  }

  /** The trivial rule ignores letter case. */
  lemma {:induction false} TrivialIgnoresCase(p: Profile, text: string)
    ensures IsTrivial(p, LowerStr(text)) == IsTrivial(p, text)
  {
    LowerStrip(text);
    LowerStrIdempotent(Strip(text));
  }

  // ------------------------------------------------------------- no-reply

  /** What the alternation `no[-_.]?reply|donotreply|do[-_.]?not[-_.]?reply|noreply`
      can match before its common ending "reply", in the order of the
      alternation. */
  const NoReplyPrefixes: seq<string> := [
    "no-", "no_", "no.", "no",
    "donot",
    "do-not-", "do-not_", "do-not.", "do-not",
    "do_not-", "do_not_", "do_not.", "do_not",
    "do.not-", "do.not_", "do.not.", "do.not",
    "donot-", "donot_", "donot.", "donot",
    "no"]

  /** The `k`-th string the alternation can match. */
  function NoReplyVariant(k: int): string
    requires 0 <= k < |NoReplyPrefixes|
  {
    NoReplyPrefixes[k] + "reply"
  }

  /** `\b` before index `i`: the variants start with a word character. */
  predicate BoundaryBefore(s: string, i: int)
    requires 0 <= i <= |s|
  {
    i == 0 || !IsWordChar(s[i - 1])
  }

  /** `\b` at index `j`: the variants end with a word character. */
  predicate BoundaryAfter(s: string, j: int)
    requires 0 <= j <= |s|
  {
    j == |s| || !IsWordChar(s[j])
  }

  /** Variant `k` matches the lower-cased text at `i`, as a whole word. */
  predicate NoReplyAt(s: string, i: int, k: int) {
    && 0 <= k < |NoReplyPrefixes|
    && OccursAt(s, NoReplyVariant(k), i)
    && BoundaryBefore(s, i)
    && BoundaryAfter(s, i + |NoReplyVariant(k)|)
  }

  /** `is_noreply_email` / `email_noreply`: `NOREPLY_REGEX.search` with
      `re.IGNORECASE`. */
  predicate IsNoReply(text: string) {
    var s := LowerStr(text);
    exists i, k | 0 <= i <= |s| && 0 <= k < |NoReplyPrefixes| :: NoReplyAt(s, i, k)
  }

  /** A no-reply marker, in any case, standing as a word of its own is
      recognised. */
  lemma {:induction false} NoReplyFound(a: string, u: string, b: string, k: int)
    requires 0 <= k < |NoReplyPrefixes| && LowerStr(u) == NoReplyVariant(k)
    requires a == [] || !IsWordChar(a[|a| - 1])
    requires b == [] || !IsWordChar(b[0])
    ensures IsNoReply(a + u + b)
  {
    var v := NoReplyVariant(k);
    var s := LowerStr(a + u + b);
    LowerStrAppend(a + u, b);
    LowerStrAppend(a, u);
    assert s == LowerStr(a) + v + LowerStr(b);
    ContainsMiddle(LowerStr(a), v, LowerStr(b));
    assert s[|a|..|a| + |v|] == v;
    assert NoReplyAt(s, |a|, k);
  }

  /** Whatever the rule recognises mentions "reply". */
  lemma {:induction false} NoReplyMentionsReply(text: string)
    requires IsNoReply(text)
    ensures Contains(LowerStr(text), "reply")
  {
    var s := LowerStr(text);
    var i, k :| 0 <= i <= |s| && 0 <= k < |NoReplyPrefixes| && NoReplyAt(s, i, k);
    var pre := NoReplyPrefixes[k];
    var j := i + |pre|;
    assert s[i..i + |pre| + 5] == pre + "reply";
    assert s[j..j + 5] == (pre + "reply")[|pre|..];
    assert OccursAt(s, "reply", j);
  }

  /** The no-reply rule ignores letter case. */
  lemma {:induction false} NoReplyIgnoresCase(text: string)
    ensures IsNoReply(LowerStr(text)) == IsNoReply(text)
  {
    LowerStrIdempotent(text);
  }

  // ------------------------------------------------------------- quota

  /** The markers `_is_quota_error` looks for in the lower-cased message. */
  const QuotaMarkers: seq<string> :=
    ["429", "resource_exhausted", "quota", "rate limit", "too many requests", "exceeded"]

  /** `_is_quota_error` / `erro_de_quota` on `str(err)`. */
  predicate IsQuota(msg: string) {
    ContainsAny(LowerStr(msg), QuotaMarkers)
  }

  /** A message carrying any marker, in any case, is a quota error. */
  lemma {:induction false} QuotaMarkerFound(a: string, u: string, b: string, k: int)
    requires 0 <= k < |QuotaMarkers| && LowerStr(u) == QuotaMarkers[k]
    ensures IsQuota(a + u + b)
  {
    LowerStrAppend(a + u, b);
    LowerStrAppend(a, u);
    ContainsMiddle(LowerStr(a), QuotaMarkers[k], LowerStr(b));
  }

  /** The quota test ignores letter case. */
  lemma {:induction false} QuotaIgnoresCase(msg: string)
    ensures IsQuota(LowerStr(msg)) == IsQuota(msg)
  {
    LowerStrIdempotent(msg);
  }
}
