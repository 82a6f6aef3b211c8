/** The accented keywords of app/services/cliente_ia.py were saved with a
    double encoding: "parabéns" became "parabÃ©ns", with an upper-case 'Ã'.
    The rules compare keywords against lower-cased text, so those keywords
    can never match, and an accented congratulation is not recognised as a
    social message. The clean literals of app/services/ai_client.py recognise
    it. The same file lost the typographic quotes of the loose repair's quote
    step, which as Python reads it leaves those quotes in place. */
module Findings {
  import opened Chars
  import opened Normalizer
  import opened Profiles
  import opened Replies
  import opened Rules
  import opened Spam
  import opened Recovery

  /** The positions of the spam keywords whose double encoding introduced an
      upper-case letter. */
  const AccentedSpamKeywords: set<int> := {0, 4, 9, 19, 24, 27}

  /** The double-encoded letter 'Ã' of an accented Portuguese spam keyword. */
  lemma {:induction false} AccentedSpamKeyword(k: int) returns (j: int)
    requires k in AccentedSpamKeywords
    ensures 0 <= j < |PortugueseSpamKeywords[k]| && PortugueseSpamKeywords[k][j] == '\U{00c3}'
  {
    if k == 0 {
      j := 5;
    } else if k == 4 {
      j := 6;
    } else if k == 9 {
      j := 8;
    } else if k == 19 {
      j := 14;
    } else if k == 24 {
      j := 2;
    } else {
      j := 7;
    }
  }

  /** No accented congratulation keyword of the Portuguese copy can ever
      match. */
  lemma {:induction false} PortugueseCongratsKeywordDead(text: string)
    ensures !Contains(Norm(Portuguese, text), Portuguese.congratsKeywords[0])
  {
    var c := PortugueseCongratsKeywords[0];
    assert |c| > 5 && c[5] == '\U{00c3}';
    assert Portuguese.congratsKeywords[0] == c;
    CongratsKeywordDead(Portuguese.stopwords, Portuguese.keep, text, c);
  }

  /** No accented spam keyword of the Portuguese copy can ever match. */
  lemma {:induction false} PortugueseSpamKeywordDead(text: string, k: int)
    requires k in AccentedSpamKeywords
    ensures !Contains(LowerStr(Strip(text)), Portuguese.spamKeywords[k])
  {
    var j := AccentedSpamKeyword(k);
    assert Portuguese.spamKeywords == PortugueseSpamKeywords;
    UpperCaseKeywordNeverHits(Strip(text), PortugueseSpamKeywords[k], j);
  }

  lemma {:induction false} CongratsKeywordDead(stopwords: set<string>, keep: set<char>, text: string, c: string)
    requires |c| > 5 && c[5] == '\U{00c3}'
    ensures !Contains(Preprocess(stopwords, keep, text), c)
  {
    PreprocessLowered(stopwords, keep, text);
    UpperCaseKeywordNeverHits(Preprocess(stopwords, keep, text), c, 5);
  }

  /** The input that shows the defect. */
  const Congrats: string := "Parab\U{00e9}ns!"
  const CongratsNorm: string := "parab\U{00e9}ns"

  lemma {:induction false} CongratsLower()
    ensures LowerStr(Strip(Congrats)) == "parab\U{00e9}ns!"
  {
    StripFixed(Congrats);
  }

  lemma {:induction false} CongratsCollapseLowered()
    ensures CollapseSpaces("parab\U{00e9}ns!") == "parab\U{00e9}ns!"
  {
    CollapseFixed("parab\U{00e9}ns!");
  }

  lemma {:induction false} CongratsCollapseScrubbed()
    ensures CollapseSpaces("parab\U{00e9}ns ") == "parab\U{00e9}ns "
  {
    CollapseFixed("parab\U{00e9}ns ");
  }

  lemma {:induction false} CongratsScrub(keep: set<char>)
    requires '!' !in keep
    ensures Scrub(keep, "parab\U{00e9}ns!") == "parab\U{00e9}ns "
  {
  }

  lemma {:induction false} CongratsStrip()
    ensures Strip("parab\U{00e9}ns ") == CongratsNorm
  {
  }

  /** A single token that is no stopword survives tokenisation unchanged. */
  lemma {:induction false} OneTokenKept(stopwords: set<string>, t: string)
    requires t != [] && ' ' !in t && t !in stopwords && IsStripped(t)
    ensures Strip(Join(KeepTokens(stopwords, Split(t, ' ')), ' ')) == t
  {
    assert Split(t, ' ') == [t];
    assert KeepTokens(stopwords, [t]) == [t];
    StripFixed(t);
  }

  lemma {:induction false} CongratsTokens(stopwords: set<string>)
    requires CongratsNorm !in stopwords
    ensures Strip(Join(KeepTokens(stopwords, Split(CongratsNorm, ' ')), ' ')) == CongratsNorm
  {
    assert CongratsNorm[0] == 'p' && CongratsNorm[7] == 's';
    assert forall i | 0 <= i < |CongratsNorm| :: CongratsNorm[i] != ' ';
    OneTokenKept(stopwords, CongratsNorm);
  }

  lemma {:induction false} CongratsNormalised(p: Profile)
    requires '!' !in p.keep && CongratsNorm !in p.stopwords
    ensures Norm(p, Congrats) == CongratsNorm
  {
    CongratsLower();
    CongratsCollapseLowered();
    CongratsCollapseScrubbed();
    CongratsScrub(p.keep);
    CongratsStrip();
    CongratsTokens(p.stopwords);
  }

  lemma {:induction false} LongerNeverContained(t: string, kw: string)
    requires |kw| > |t|
    ensures !Contains(t, kw)
  {
  }

  /** "parabéns" has none of the seasonal keywords. */
  lemma {:induction false} CongratsNotSeasonal()
    ensures !ContainsAny(CongratsNorm, ChristmasKeywords + NewYearKeywords)
  {
    var kws := ChristmasKeywords + NewYearKeywords;
    forall k | 0 <= k < |kws| ensures !Contains(CongratsNorm, kws[k]) {
      LongerNeverContained(CongratsNorm, kws[k]);
    }
  }

  /** The unaccented keyword does not match the accented word. */
  lemma {:induction false} UnaccentedMisses()
    ensures !Contains(CongratsNorm, "parabens")
  {
    assert CongratsNorm[5] != "parabens"[5];
  }

  /** Keywords of an unmatched spelling and "parabens" miss "parabéns". */
  lemma {:induction false} CongratsKeywordsMiss(kws: seq<string>)
    requires |kws| == 2 && |kws[0]| > |CongratsNorm| && kws[1] == "parabens"
    ensures !ContainsAny(CongratsNorm, kws)
  {
    LongerNeverContained(CongratsNorm, kws[0]);
    UnaccentedMisses();
    forall k | 0 <= k < |kws| ensures !Contains(CongratsNorm, kws[k]) {
      if k == 1 {
        assert kws[k] == "parabens";
      }
    }
  }

  /** A profile whose congratulation keywords are an unmatched spelling and
      "parabens" misses "Parabéns!". */
  lemma {:induction false} MissesCongrats(p: Profile)
    requires '!' !in p.keep && CongratsNorm !in p.stopwords
    requires |p.congratsKeywords| == 2 && |p.congratsKeywords[0]| > |CongratsNorm|
    requires p.congratsKeywords[1] == "parabens"
    ensures !IsSocial(p, Congrats)
  {
    CongratsNormalised(p);
    CongratsNotSeasonal();
    CongratsKeywordsMiss(p.congratsKeywords);
    SocialByNorm(p, Congrats, CongratsNorm);
  }

  /** A profile with the clean keyword "parabéns" sees "Parabéns!" as social
      and answers with its congratulations reply. */
  lemma {:induction false} CatchesCongrats(p: Profile)
    requires '!' !in p.keep && CongratsNorm !in p.stopwords
    requires |p.congratsKeywords| >= 1 && p.congratsKeywords[0] == CongratsNorm
    ensures IsSocial(p, Congrats)
    ensures SocialReply(p, Congrats).resposta == p.congratsReply
  {
    CongratsNormalised(p);
    CongratsNotSeasonal();
    assert OccursAt(CongratsNorm, p.congratsKeywords[0], 0);
    SocialByNorm(p, Congrats, CongratsNorm);
    ContainsAnyAppend(CongratsNorm, ChristmasKeywords, NewYearKeywords);
  }

  /** As written: the Portuguese copy does not see "Parabéns!" as social. */
  lemma {:induction false} PortugueseMissesCongrats()
    ensures !IsSocial(Portuguese, Congrats)
  {
    assert '!' !in Portuguese.keep;
    assert CongratsNorm !in Portuguese.stopwords;
    assert |Portuguese.congratsKeywords| == 2 && |Portuguese.congratsKeywords[0]| > |CongratsNorm|;
    assert Portuguese.congratsKeywords[1] == "parabens";
    MissesCongrats(Portuguese);
  }

  /** Intended: with the clean literals "Parabéns!" is social and gets the
      congratulations reply. */
  lemma {:induction false} ReferenceCatchesCongrats()
    ensures IsSocial(Reference, Congrats)
    ensures SocialReply(Reference, Congrats).resposta == Reference.congratsReply
  {
    assert '!' !in Reference.keep;
    assert CongratsNorm !in Reference.stopwords;
    assert |Reference.congratsKeywords| >= 1 && Reference.congratsKeywords[0] == CongratsNorm;
    CatchesCongrats(Reference);
  }

  // ------------------------------------------------------- quote repair

  /** Line 289 of app/services/cliente_ia.py as Python reads it. Its
      typographic quotes were saved as the plain '"', so three of them in a
      row open a string: the first `replace` looks for the text between two
      triple quotes, and the last one puts the apostrophe in place of
      itself. */
  const GarbledPattern: string := ", '\"').replace("

  function PortugueseQuotes(t: string): string {
    Replace(Replace(t, GarbledPattern, "\""), "'", "'")
  }

  /** A text without the first character of the pattern is left alone. */
  lemma {:induction false} ReplaceMissing(s: string, pat: string, rep: string)
    requires pat != [] && pat[0] !in s
    ensures Replace(s, pat, rep) == s
    decreases |s|
  {
    if s != [] {
      assert s[0] != pat[0];
      ReplaceMissing(s[1..], pat, rep);
    }
  }

  /** Replacing a character by itself changes nothing. */
  lemma {:induction false} ReplaceSelf(s: string, c: char)
    ensures Replace(s, [c], [c]) == s
    decreases |s|
  {
    if s != [] {
      ReplaceSelf(s[1..], c);
      if s[..1] == [c] {
        assert [c] + s[1..] == s;
      }
    }
  }

  /** As written: the Portuguese quote step leaves every text without a
      comma unchanged, typographic quotes included. */
  lemma {:induction false} PortugueseQuotesInert(t: string)
    requires ',' !in t
    ensures PortugueseQuotes(t) == t
  {
    ReplaceMissing(t, GarbledPattern, "\"");
    ReplaceSelf(t, '\'');
  }

  /** A word in typographic double quotes. */
  const CurlyOk: string := [LeftDoubleQuote] + "ok" + [RightDoubleQuote]

  /** As written, the Portuguese copy keeps the typographic quotes around a
      word; the reference copy turns them into JSON quotes. */
  lemma {:induction false} PortugueseKeepsCurlyQuotes()
    ensures PortugueseQuotes(CurlyOk) == CurlyOk
    ensures PlainQuotes(CurlyOk) == "\"ok\""
  {
    PortugueseQuotesInert(CurlyOk);
    PlainQuotesClean(CurlyOk);
  }
}
