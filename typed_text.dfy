/** The normalisation of text typed into the form (`normalize_text` in
    `text_utils.py`, `processaTextoDigitado` in `util_texto.py`): strip, turn
    each CRLF into LF, and turn each run of spaces and tabs into one space. */
module TypedText {
  import opened Chars
  import opened Json

  /** The characters of the class `[ \t]`. */
  predicate IsBlank(c: char) {
    c == ' ' || c == '\t'
  }

  /** Length of the run of spaces and tabs at the front of `s`. */
  function BlankRun(s: string): (n: nat)
    ensures n <= |s| && (n < |s| ==> !IsBlank(s[n]))
    ensures forall i :: 0 <= i < n ==> IsBlank(s[i])
  {
    if s != [] && IsBlank(s[0]) then 1 + BlankRun(s[1..]) else 0
  }

  /** `re.sub(r"[ \t]+", " ", s)`: every maximal run of spaces and tabs
      becomes one space. */
  function Squash(s: string): string
    decreases |s|
  {
    if s == [] then []
    else if IsBlank(s[0]) then " " + Squash(s[BlankRun(s)..])
    else [s[0]] + Squash(s[1..])
  }

  /** The typed text normalised; `None` stands for Python's `None`. */
  function NormalizeTyped(text: Option<string>): string {
    Squash(Unsquashed(text))
  }

  /** Spaces and tabs removed: the characters squashing must keep. */
  function Unblank(s: string): string {
    if s == [] then []
    else (if IsBlank(s[0]) then [] else [s[0]]) + Unblank(s[1..])
  }

  /** No two neighbouring spaces. */
  predicate NoDoubleSpace(s: string) {
    forall i :: 0 <= i < |s| - 1 ==> s[i] != ' ' || s[i + 1] != ' '
  }

  // ---------------------------------------------------------------- squash

  /** Squashing leaves no tab and no two neighbouring spaces, and starts
      with a space exactly when the input starts with a space or a tab. */
  lemma {:induction false} SquashShape(s: string)
    ensures '\t' !in Squash(s) && NoDoubleSpace(Squash(s))
    ensures s != [] ==> Squash(s) != [] && Squash(s)[0] == (if IsBlank(s[0]) then ' ' else s[0])
    decreases |s|
  {
    if s != [] {
      var rest := if IsBlank(s[0]) then s[BlankRun(s)..] else s[1..];
      SquashShape(rest);
      var r := Squash(s);
      var tail := Squash(rest);
      assert r == [r[0]] + tail;
      assert r[0] == ' ' ==> tail == [] || tail[0] != ' ';
      forall i | 0 <= i < |r| - 1 ensures r[i] != ' ' || r[i + 1] != ' ' {
        if i > 0 {
          assert r[i] == tail[i - 1] && r[i + 1] == tail[i];
        }
      }
    }
  }

  /** A text that does not end in a space or a tab keeps its last character. */
  lemma {:induction false} SquashLast(s: string)
    requires s != [] && !IsBlank(s[|s| - 1])
    ensures Squash(s) != [] && Squash(s)[|Squash(s)| - 1] == s[|s| - 1]
    decreases |s|
  {
    if IsBlank(s[0]) {
      var rest := s[BlankRun(s)..];
      SquashLast(rest);
    } else if |s| > 1 {
      SquashLast(s[1..]);
    }
  }

  lemma {:induction false} UnblankRun(s: string, n: nat)
    requires n <= |s| && forall i :: 0 <= i < n ==> IsBlank(s[i])
    ensures Unblank(s) == Unblank(s[n..])
    decreases n
  {
    if n > 0 {
      UnblankRun(s[1..], n - 1);
      assert s[1..][n - 1..] == s[n..];
    }
  }

  /** Squashing keeps every character other than spaces and tabs, in
      order. */
  lemma {:induction false} SquashKeeps(s: string)
    ensures Unblank(Squash(s)) == Unblank(s)
    decreases |s|
  {
    if s != [] {
      var r := Squash(s);
      if IsBlank(s[0]) {
        var rest := s[BlankRun(s)..];
        SquashKeeps(rest);
        UnblankRun(s, BlankRun(s));
        assert r[1..] == Squash(rest);
      } else {
        SquashKeeps(s[1..]);
        assert r[1..] == Squash(s[1..]);
      }
    }
  }

  /** Squashing a squashed text changes nothing. */
  lemma {:induction false} SquashIdempotent(s: string)
    ensures Squash(Squash(s)) == Squash(s)
    decreases |s|
  {
    if s != [] {
      var r := Squash(s);
      if IsBlank(s[0]) {
        var rest := s[BlankRun(s)..];
        SquashIdempotent(rest);
        SquashShape(rest);
        var tail := Squash(rest);
        assert r == " " + tail;
        assert BlankRun(r) == 1 by {
          assert r[1..] == tail;
          assert tail == [] || !IsBlank(tail[0]);
        }
        assert r[1..] == tail;
      } else {
        SquashIdempotent(s[1..]);
        assert r[1..] == Squash(s[1..]);
      }
    }
  }

  // ------------------------------------------------------------- CRLF to LF

  lemma {:induction false} RemoveCharCons(x: char, s: string, c: char)
    ensures RemoveChar([x] + s, c) == (if x == c then [] else [x]) + RemoveChar(s, c)
  {
    assert ([x] + s)[1..] == s;
  }

  /** Apart from carriage returns, turning CRLF into LF changes nothing. */
  lemma {:induction false} ReplaceKeepsAllButCR(s: string)
    ensures RemoveChar(Replace(s, "\r\n", "\n"), '\r') == RemoveChar(s, '\r')
    decreases |s|
  {
    if s != [] {
      if |s| >= 2 && s[..2] == "\r\n" {
        ReplaceKeepsAllButCR(s[2..]);
        RemoveCharCons('\n', Replace(s[2..], "\r\n", "\n"), '\r');
        assert s[1..][1..] == s[2..];
        RemoveCharCons(s[1], s[2..], '\r');
      } else {
        ReplaceKeepsAllButCR(s[1..]);
        RemoveCharCons(s[0], Replace(s[1..], "\r\n", "\n"), '\r');
      }
    }
  }

  /** A text without carriage returns is left alone. */
  lemma {:induction false} ReplaceNoCR(s: string)
    requires '\r' !in s
    ensures Replace(s, "\r\n", "\n") == s
    decreases |s|
  {
    if s != [] {
      assert s[0] != '\r';
      ReplaceNoCR(s[1..]);
    }
  }

  /** The replacement is a single left-to-right pass: a CR left in front of a
      CRLF survives, so the result need not be free of CRLF. */
  lemma {:induction false} CRLFAfterCR()
    ensures Replace("\r\r\n", "\r\n", "\n") == "\r\n"
  {
    var s := "\r\r\n";
    assert s[..2][1] == '\r';
    assert s[1..] == "\r\n" && s[1..][..2] == "\r\n";
    assert s[1..][2..] == [];
  }

  /** A stripped text stays stripped: its first character is not a CR and its
      last is not an LF, so neither is touched. */
  lemma {:induction false} ReplaceStripped(s: string)
    requires IsStripped(s)
    ensures IsStripped(Replace(s, "\r\n", "\n"))
  {
    if s != [] {
      ReplaceLast(s);
    }
  }

  lemma {:induction false} ReplaceLast(s: string)
    requires s != [] && s[|s| - 1] != '\n'
    ensures var r := Replace(s, "\r\n", "\n"); r != [] && r[|r| - 1] == s[|s| - 1]
    decreases |s|
  {
    if |s| >= 2 && s[..2] == "\r\n" {
      assert s[1] == '\n';
      ReplaceLast(s[2..]);
    } else if |s| > 1 {
      ReplaceLast(s[1..]);
    }
  }

  /** A blank run followed by a visible character, or by nothing, is the
      whole run. */
  lemma {:induction false} BlankRunWhole(w: string, v: string)
    requires forall i :: 0 <= i < |w| ==> IsBlank(w[i])
    requires v == [] || !IsBlank(v[0])
    ensures BlankRun(w + v) == |w|
    decreases |w|
  {
    if w != [] {
      assert (w + v)[1..] == w[1..] + v;
      BlankRunWhole(w[1..], v);
    } else {
      assert w + v == v;
    }
  }

  /** What squashing makes of the first character: the character itself,
      nothing when a blank follows a blank, or the space that ends a run. */
  function Lead(s: string): string
    requires s != []
  {
    if !IsBlank(s[0]) then [s[0]]
    else if |s| >= 2 && IsBlank(s[1]) then []
    else " "
  }

  /** Squashing, one character at a time. */
  lemma {:induction false} SquashHead(s: string)
    requires s != []
    ensures Squash(s) == Lead(s) + Squash(s[1..])
  {
    if IsBlank(s[0]) && |s| >= 2 && IsBlank(s[1]) {
      var t := s[1..];
      assert BlankRun(s) == 1 + BlankRun(t);
      assert s[BlankRun(s)..] == t[BlankRun(t)..];
    } else if IsBlank(s[0]) {
      assert BlankRun(s) == 1;
    }
  }

  /** Squashing splits at a point where the text before ends visibly. */
  lemma {:induction false} SquashAppend(u: string, rest: string)
    requires u == [] || !IsBlank(u[|u| - 1])
    ensures Squash(u + rest) == Squash(u) + Squash(rest)
    decreases |u|
  {
    if u == [] {
      assert u + rest == rest;
    } else {
      var s := u + rest;
      assert s[1..] == u[1..] + rest;
      assert Lead(s) == Lead(u);
      SquashHead(s);
      SquashHead(u);
      SquashAppend(u[1..], rest);
    }
  }

  /** Each maximal run of spaces and tabs becomes exactly one space: the
      text before it and the text after it are squashed on their own, with
      one space between them. */
  lemma {:induction false} SquashRun(u: string, w: string, v: string)
    requires w != [] && forall i :: 0 <= i < |w| ==> IsBlank(w[i])
    requires u == [] || !IsBlank(u[|u| - 1])
    requires v == [] || !IsBlank(v[0])
    ensures Squash(u + w + v) == Squash(u) + " " + Squash(v)
  {
    assert u + w + v == u + (w + v);
    SquashAppend(u, w + v);
    BlankRunWhole(w, v);
    assert (w + v)[|w|..] == v;
  }

  // ----------------------------------------------------------------- whole

  /** The text the normalisation squashes: the stripped input with each CRLF
      turned into LF. */
  function Unsquashed(text: Option<string>): string {
    Replace(Strip(if text.Some? then text.value else []), "\r\n", "\n")
  }

  /** Each run of spaces and tabs of the stripped, CRLF-free text becomes
      exactly one space of the result. */
  lemma {:induction false} NormalizeTypedRun(text: Option<string>, u: string, w: string, v: string)
    requires Unsquashed(text) == u + w + v
    requires w != [] && forall i :: 0 <= i < |w| ==> IsBlank(w[i])
    requires u == [] || !IsBlank(u[|u| - 1])
    requires v == [] || !IsBlank(v[0])
    ensures NormalizeTyped(text) == Squash(u) + " " + Squash(v)
  {
    SquashRun(u, w, v);
  }

  /** What the normalisation promises: `None` gives the empty text; the
      result is stripped, has no tab and no two neighbouring spaces; and its
      characters other than spaces and tabs are those of the stripped input
      with the CR of each CRLF removed. */
  lemma {:induction false} NormalizeTypedShape(text: Option<string>)
    ensures text.None? ==> NormalizeTyped(text) == []
    ensures var r := NormalizeTyped(text);
            IsStripped(r) && '\t' !in r && NoDoubleSpace(r)
    ensures var t := Strip(if text.Some? then text.value else []);
            Unblank(NormalizeTyped(text)) == Unblank(Replace(t, "\r\n", "\n"))
  {
    var t := Strip(if text.Some? then text.value else []);
    var u := Replace(t, "\r\n", "\n");
    assert Unsquashed(text) == u;
    if text.None? {
      assert Strip([]) == [];
    }
    ReplaceStripped(t);
    SquashShape(u);
    SquashKeeps(u);
    if u != [] {
      SquashLast(u);
    }
  }
}
