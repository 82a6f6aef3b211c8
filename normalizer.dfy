/** The Portuguese normaliser used by every rule of the cascade
    (`preprocess_text` in app/services/ai_client.py, `preprocessar_texto` in
    app/services/cliente_ia.py and app/utils/preprocessamento_texto.py).

    It strips and lower-cases the text, turns every whitespace run into one
    space, replaces each character outside `\w`, whitespace and an explicit set
    of accented letters (`keep`) by a space, collapses and strips again, and
    drops empty tokens and stopwords. */
module Normalizer {
  import opened Chars

  /** `re.sub(r"\s+", " ", s)`. */
  function CollapseSpaces(s: string): (r: string)
    ensures forall i :: 0 <= i < |r| ==> r[i] == ' ' || (!IsSpace(r[i]) && r[i] in s)
    decreases |s|
  {
    if s == [] then []
    else if IsSpace(s[0]) then
      [' '] + CollapseSpaces(s[LeadCount(s)..])
    else
      [s[0]] + CollapseSpaces(s[1..])
  }

  /** `re.sub(r"[^\w\s<keep>]", " ", s)`: anything that is not a word character,
      whitespace or one of `keep` becomes a space. */
  function Scrub(keep: set<char>, s: string): (r: string)
    ensures |r| == |s|
    ensures forall i :: 0 <= i < |s| ==>
      r[i] == (if IsWordChar(s[i]) || IsSpace(s[i]) || s[i] in keep then s[i] else ' ')
  {
    seq(|s|, i requires 0 <= i < |s| =>
      if IsWordChar(s[i]) || IsSpace(s[i]) || s[i] in keep then s[i] else ' ')
  }

  /** The text before tokenisation: lines 26-29 of `preprocess_text`. */
  function Clean(keep: set<char>, text: string): string {
    Strip(CollapseSpaces(Scrub(keep, CollapseSpaces(LowerStr(Strip(text))))))
  }

  /** `[tok for tok in toks if tok and tok not in stopwords]`. */
  function KeepTokens(stopwords: set<string>, toks: seq<string>): (r: seq<string>)
    ensures forall k :: 0 <= k < |r| ==> r[k] != [] && r[k] !in stopwords && r[k] in toks
  {
    if toks == [] then []
    else
      (if toks[0] != [] && toks[0] !in stopwords then [toks[0]] else [])
      + KeepTokens(stopwords, toks[1..])
  }

  /** The normaliser. */
  function Preprocess(stopwords: set<string>, keep: set<char>, text: string): string {
    Strip(Join(KeepTokens(stopwords, Split(Clean(keep, text), ' ')), ' '))
  }

  /** The tokens of a normalised text (`t.split()`); the empty text has none. */
  function Tokens(r: string): seq<string> {
    if r == [] then [] else Split(r, ' ')
  }

  /** A character the normaliser can emit inside a token. */
  predicate TokenChar(keep: set<char>, c: char) {
    !IsSpace(c) && (IsWordChar(c) || c in keep) && Lower(c) == c
  }

  /** The shape of every normalised text: lower-case word (or `keep`)
      characters in tokens separated by single spaces, no space at either end,
      and no token that is a stopword. */
  predicate InNormalForm(stopwords: set<string>, keep: set<char>, r: string) {
    (forall i :: 0 <= i < |r| ==> r[i] == ' ' || TokenChar(keep, r[i]))
    && (r == [] || (r[0] != ' ' && r[|r| - 1] != ' '))
    && (forall i :: 0 <= i < |r| - 1 ==> r[i] != ' ' || r[i + 1] != ' ')
    && (forall k :: 0 <= k < |Tokens(r)| ==> Tokens(r)[k] !in stopwords)
  }

  // ------------------------------------------------------------ lemmas

  lemma {:induction false} SplitKeeps(s: string, sep: char, P: char -> bool)
    requires forall i :: 0 <= i < |s| ==> P(s[i])
    ensures forall k, j :: 0 <= k < |Split(s, sep)| && 0 <= j < |Split(s, sep)[k]| ==> P(Split(s, sep)[k][j])
    decreases |s|
  {
    if sep in s {
      var i := IndexOf(s, sep);
      SplitKeeps(s[i + 1..], sep, P);
      assert Split(s, sep) == [s[..i]] + Split(s[i + 1..], sep);
    }
  }

  /** Joining non-empty, separator-free parts never puts a separator at an end
      or two separators side by side. */
  lemma {:induction false} JoinShape(parts: seq<string>, sep: char)
    requires |parts| >= 1
    requires forall k :: 0 <= k < |parts| ==> parts[k] != [] && sep !in parts[k]
    ensures var s := Join(parts, sep);
      s != [] && s[0] != sep && s[|s| - 1] != sep
      && forall i :: 0 <= i < |s| - 1 ==> s[i] != sep || s[i + 1] != sep
  {
    JoinEnds(parts, sep);
    if |parts| > 1 {
      JoinShape(parts[1..], sep);
      var s := Join(parts, sep);
      var p, t := parts[0], Join(parts[1..], sep);
      assert s == p + [sep] + t;
      forall i | 0 <= i < |s| - 1 ensures s[i] != sep || s[i + 1] != sep {
        if i < |p| - 1 {
          assert s[i] == p[i];
        } else if i == |p| - 1 {
          assert s[i] == p[|p| - 1];
        } else if i == |p| {
          assert s[i + 1] == t[0];
        } else {
          assert s[i] == t[i - |p| - 1] && s[i + 1] == t[i - |p|];
        }
      }
    }
  }

  /** Conversely, a string with no separator at an end and none side by side
      splits into non-empty parts. */
  lemma {:induction false} SplitNonEmpty(s: string, sep: char)
    requires s != [] && s[0] != sep && s[|s| - 1] != sep
    requires forall i :: 0 <= i < |s| - 1 ==> s[i] != sep || s[i + 1] != sep
    ensures forall k :: 0 <= k < |Split(s, sep)| ==> Split(s, sep)[k] != []
    decreases |s|
  {
    if sep in s {
      var i := IndexOf(s, sep);
      var rest := s[i + 1..];
      assert 0 < i < |s| - 1;
      assert s[i + 1] != sep;
      forall j | 0 <= j < |rest| - 1 ensures rest[j] != sep || rest[j + 1] != sep {
        assert rest[j] == s[i + 1 + j] && rest[j + 1] == s[i + 2 + j];
      }
      SplitNonEmpty(rest, sep);
    }
  }

  lemma {:induction false} KeepTokensFixed(stopwords: set<string>, toks: seq<string>)
    requires forall k :: 0 <= k < |toks| ==> toks[k] != [] && toks[k] !in stopwords
    ensures KeepTokens(stopwords, toks) == toks
  {
    if toks != [] {
      KeepTokensFixed(stopwords, toks[1..]);
    }
  }

  /** A string whose only whitespace is single spaces is left alone by the
      whitespace collapse. */
  lemma {:induction false} CollapseFixed(s: string)
    requires forall i :: 0 <= i < |s| ==> IsSpace(s[i]) ==> s[i] == ' '
    requires forall i :: 0 <= i < |s| - 1 ==> s[i] != ' ' || s[i + 1] != ' '
    ensures CollapseSpaces(s) == s
    decreases |s|
  {
    if s != [] {
      if IsSpace(s[0]) {
        assert |s| > 1 ==> s[1] != ' ';
        assert LeadCount(s) == 1;
      }
      var rest := s[if IsSpace(s[0]) then LeadCount(s) else 1..];
      assert rest == s[1..];
      forall i | 0 <= i < |rest| - 1 ensures rest[i] != ' ' || rest[i + 1] != ' ' {
        assert rest[i] == s[i + 1] && rest[i + 1] == s[i + 2];
      }
      CollapseFixed(rest);
    }
  }

  /** Every character of `s` is a space or a token character. */
  predicate SpacesAndTokens(keep: set<char>, s: string) {
    forall i :: 0 <= i < |s| ==> s[i] == ' ' || TokenChar(keep, s[i])
  }

  /** Every character left by `Clean` is a space or a token character. */
  lemma {:induction false} CleanChars(keep: set<char>, text: string)
    ensures SpacesAndTokens(keep, Clean(keep, text))
  {
    var t1 := LowerStr(Strip(text));
    var t2 := CollapseSpaces(t1);
    var t4 := CollapseSpaces(Scrub(keep, t2));
    LowerStrLowered(Strip(text));
    CollapseLowered(t1);
    ScrubChars(keep, t2);
    CollapseTokens(keep, Scrub(keep, t2));
    StripTokens(keep, t4);
  }

  lemma {:induction false} LowerStrLowered(s: string)
    ensures IsLowered(LowerStr(s))
  {
    forall i | 0 <= i < |s| ensures Lower(LowerStr(s)[i]) == LowerStr(s)[i] {
      LowerIdempotent(s[i]);
    }
  }

  /** Collapsing keeps a lower-case text lower-case and leaves no whitespace
      but single spaces. */
  lemma {:induction false} CollapseLowered(s: string)
    requires IsLowered(s)
    ensures IsLowered(CollapseSpaces(s))
    ensures forall i :: 0 <= i < |CollapseSpaces(s)| ==> CollapseSpaces(s)[i] == ' ' || !IsSpace(CollapseSpaces(s)[i])
  {
    var r := CollapseSpaces(s);
    forall i | 0 <= i < |r| ensures Lower(r[i]) == r[i] {
      if r[i] != ' ' {
        var j :| 0 <= j < |s| && s[j] == r[i];
      }
    }
  }

  /** Scrubbing a lower-case text without whitespace other than spaces leaves
      only spaces and token characters. */
  lemma {:induction false} ScrubChars(keep: set<char>, s: string)
    requires IsLowered(s)
    requires forall i :: 0 <= i < |s| ==> s[i] == ' ' || !IsSpace(s[i])
    ensures SpacesAndTokens(keep, Scrub(keep, s))
  {
  }

  lemma {:induction false} CollapseTokens(keep: set<char>, s: string)
    requires SpacesAndTokens(keep, s)
    ensures SpacesAndTokens(keep, CollapseSpaces(s))
  {
    var r := CollapseSpaces(s);
    forall i | 0 <= i < |r| ensures r[i] == ' ' || TokenChar(keep, r[i]) {
      if r[i] != ' ' {
        var j :| 0 <= j < |s| && s[j] == r[i];
      }
    }
  }

  lemma {:induction false} StripTokens(keep: set<char>, s: string)
    requires SpacesAndTokens(keep, s)
    ensures SpacesAndTokens(keep, Strip(s))
  {
    forall i | 0 <= i < |Strip(s)| ensures Strip(s)[i] == ' ' || TokenChar(keep, Strip(s)[i]) {
      StripAt(s, i);
    }
  }

  /** Every character of every token is a token character. */
  predicate AllTokenChars(keep: set<char>, toks: seq<string>) {
    forall k, i :: 0 <= k < |toks| && 0 <= i < |toks[k]| ==> TokenChar(keep, toks[k][i])
  }

  /** Joining acceptable tokens with single spaces gives a text in normal form
      whose tokens are those tokens. */
  lemma {:induction false} JoinNormalForm(stopwords: set<string>, keep: set<char>, toks: seq<string>)
    requires forall k :: 0 <= k < |toks| ==> toks[k] != [] && toks[k] !in stopwords
    requires AllTokenChars(keep, toks)
    ensures InNormalForm(stopwords, keep, Strip(Join(toks, ' ')))
    ensures Tokens(Strip(Join(toks, ' '))) == toks
  {
    var P := (ch: char) => ch == ' ' || TokenChar(keep, ch);
    JoinKeeps(toks, ' ', P);
    if toks != [] {
      forall k | 0 <= k < |toks| ensures ' ' !in toks[k] {
        forall i | 0 <= i < |toks[k]| ensures toks[k][i] != ' ' {
          assert TokenChar(keep, toks[k][i]);
        }
      }
      JoinShape(toks, ' ');
      StripFixed(Join(toks, ' '));
      SplitJoin(toks, ' ');
    }
  }

  /** Every character of every kept token is a token character. */
  lemma {:induction false} KeptTokenChars(stopwords: set<string>, keep: set<char>, text: string)
    ensures AllTokenChars(keep, KeepTokens(stopwords, Split(Clean(keep, text), ' ')))
  {
    var c := Clean(keep, text);
    var parts := Split(c, ' ');
    var toks := KeepTokens(stopwords, parts);
    var P := (ch: char) => ch == ' ' || TokenChar(keep, ch);
    CleanChars(keep, text);
    SplitKeeps(c, ' ', P);
    forall k, i | 0 <= k < |toks| && 0 <= i < |toks[k]| ensures TokenChar(keep, toks[k][i]) {
      var m :| 0 <= m < |parts| && parts[m] == toks[k];
      assert P(parts[m][i]);
      assert toks[k][i] != ' ';
    }
  }

  /** The normaliser's output is in normal form, and its tokens are exactly
      the non-stopword tokens of the cleaned text, in their original order. */
  lemma {:induction false} PreprocessShape(stopwords: set<string>, keep: set<char>, text: string)
    ensures InNormalForm(stopwords, keep, Preprocess(stopwords, keep, text))
    ensures Tokens(Preprocess(stopwords, keep, text))
         == KeepTokens(stopwords, Split(Clean(keep, text), ' '))
  {
    var toks := KeepTokens(stopwords, Split(Clean(keep, text), ' '));
    KeptTokenChars(stopwords, keep, text);
    JoinNormalForm(stopwords, keep, toks);
    assert Preprocess(stopwords, keep, text) == Strip(Join(toks, ' '));
  }

  /** The normaliser's output is lower case. */
  lemma {:induction false} PreprocessLowered(stopwords: set<string>, keep: set<char>, text: string)
    ensures LowerStr(Preprocess(stopwords, keep, text)) == Preprocess(stopwords, keep, text)
  {
    PreprocessShape(stopwords, keep, text);
    var r := Preprocess(stopwords, keep, text);
    forall i | 0 <= i < |r| ensures LowerStr(r)[i] == r[i] {
      if r[i] == ' ' {
        assert Lower(' ') == ' ';
      }
    }
  }

  /** `Clean` leaves a text in normal form alone. */
  lemma {:induction false} CleanFixed(stopwords: set<string>, keep: set<char>, r: string)
    requires InNormalForm(stopwords, keep, r)
    ensures Clean(keep, r) == r
  {
    StripFixed(r);
    assert LowerStr(r) == r;
    CollapseFixed(r);
    assert Scrub(keep, r) == r;
  }

  /** A text already in normal form is its own normalisation. */
  lemma {:induction false} PreprocessFixed(stopwords: set<string>, keep: set<char>, r: string)
    requires InNormalForm(stopwords, keep, r)
    ensures Preprocess(stopwords, keep, r) == r
  {
    CleanFixed(stopwords, keep, r);
    assert Preprocess(stopwords, keep, r) == Strip(Join(KeepTokens(stopwords, Split(r, ' ')), ' '));
    if r == [] {
      assert Split(r, ' ') == [r];
      assert KeepTokens(stopwords, [r]) == [];
    } else {
      var parts := Split(r, ' ');
      SplitNonEmpty(r, ' ');
      assert Tokens(r) == parts;
      KeepTokensFixed(stopwords, parts);
      assert Join(parts, ' ') == r;
      StripFixed(r);
    }
  }

  /** Normalising twice is normalising once. */
  lemma {:induction false} PreprocessIdempotent(stopwords: set<string>, keep: set<char>, text: string)
    ensures Preprocess(stopwords, keep, Preprocess(stopwords, keep, text))
         == Preprocess(stopwords, keep, text)
  {
    PreprocessShape(stopwords, keep, text);
    PreprocessFixed(stopwords, keep, Preprocess(stopwords, keep, text));
  }

  /** The empty (or missing) text normalises to the empty text. */
  lemma {:induction false} PreprocessEmpty(stopwords: set<string>, keep: set<char>)
    ensures Preprocess(stopwords, keep, "") == ""
  {
    assert Clean(keep, "") == "";
    assert Split("", ' ') == [""];
  }
}
