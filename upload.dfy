/** The upload path of the service (`file_reader.py`, with the same code in
    `leitor_arquivo.py`): the extension check, the dispatch on the extension,
    the line clean-up applied to every extracted text and the length test
    that takes a PDF for a scan. Decoding the bytes and reading the PDF are
    parameters. */
module Upload {
  import opened Chars
  import opened Json

  /** The extensions an upload may carry. */
  const AllowedExtensions: set<string> := {"txt", "pdf"}

  /** A PDF whose text, stripped, is shorter than this is taken for a scan. */
  const ScanThreshold: nat := 80

  /** The byte-order mark the clean-up removes. */
  const Bom: char := '\U{FEFF}'

  // ------------------------------------------------------------ extensions

  /** `name.rsplit(".", 1)[1]`: the text after the last '.', and `None` when
      the name has no '.', where the index raises. */
  function LastExtension(name: string): (e: Option<string>)
    ensures e.None? <==> '.' !in name
    ensures e.Some? ==>
              && '.' !in e.value && |e.value| < |name|
              && name == name[..|name| - |e.value| - 1] + "." + e.value
    decreases |name|
  {
    if name == [] then None
    else if name[|name| - 1] == '.' then
      assert name == name[..|name| - 1] + "." + [];
      Some([])
    else
      var init := name[..|name| - 1];
      var c := name[|name| - 1];
      assert name == init + [c];
      match LastExtension(init)
      case None => None
      case Some(e) =>
        assert init == init[..|init| - |e| - 1] + "." + e;
        assert init[..|init| - |e| - 1] == name[..|name| - |e + [c]| - 1];
        Some(e + [c])
  }

  /** The text after a '.' that is followed by no other '.' is the
      extension. */
  lemma {:induction false} LastExtensionOf(prefix: string, e: string)
    requires '.' !in e
    ensures LastExtension(prefix + "." + e) == Some(e)
  {
    var name := prefix + "." + e;
    assert name[|prefix|] == '.';
    var v := LastExtension(name).value;
    assert name[|name| - |v| - 1] == '.';
    assert v == name[|name| - |e|..] == e;
  }

  /** `allowed_file` / `arquivo_permitido`. */
  predicate AllowedFile(name: string) {
    '.' in name && LowerStr(LastExtension(name).value) in AllowedExtensions
  }

  /** A name is accepted exactly when it is some text, a '.', and a last
      extension with no '.' that lowercases to "txt" or "pdf". */
  lemma {:induction false} AllowedFileIff(name: string)
    ensures AllowedFile(name) <==>
              exists prefix: string, e: string :: name == prefix + "." + e && '.' !in e && LowerStr(e) in AllowedExtensions
  {
    if AllowedFile(name) {
      var e := LastExtension(name).value;
      var prefix := name[..|name| - |e| - 1];
      assert name == prefix + "." + e;
    }
    if exists prefix: string, e: string :: name == prefix + "." + e && '.' !in e && LowerStr(e) in AllowedExtensions {
      var prefix: string, e: string :| name == prefix + "." + e && '.' !in e && LowerStr(e) in AllowedExtensions;
      LastExtensionOf(prefix, e);
      assert '.' in name by { assert name[|prefix|] == '.'; }
    }
  }

  /** `extract_text_from_upload` / `extrai_texto_do_upload`: the lowercased,
      stripped last extension picks the reader; any other extension gives the
      empty text; `None` is the exception a name without '.' raises. */
  function ExtractTextFromUpload(name: string, bytes: seq<bv8>, readTxt: seq<bv8> -> string, readPdf: seq<bv8> -> string): Option<string> {
    match LastExtension(name)
    case None => None
    case Some(e) =>
      var ext := Strip(LowerStr(e));
      if ext == "txt" then Some(readTxt(bytes))
      else if ext == "pdf" then Some(readPdf(bytes))
      else Some("")
  }

  /** An accepted name reaches the reader of its extension; so does a name
      the check refuses whose last extension, lowercased and stripped, is
      "txt" or "pdf"; an unknown extension yields the empty text; a name
      without '.' raises. */
  lemma {:induction false} UploadRoutes(name: string, bytes: seq<bv8>, readTxt: seq<bv8> -> string, readPdf: seq<bv8> -> string)
    ensures var r := ExtractTextFromUpload(name, bytes, readTxt, readPdf);
            && (r.None? <==> '.' !in name)
            && (AllowedFile(name) ==>
                  r == if LowerStr(LastExtension(name).value) == "txt" then Some(readTxt(bytes)) else Some(readPdf(bytes)))
            && ('.' in name && Strip(LowerStr(LastExtension(name).value)) == "txt" ==> r == Some(readTxt(bytes)))
            && ('.' in name && Strip(LowerStr(LastExtension(name).value)) == "pdf" ==> r == Some(readPdf(bytes)))
            && ('.' in name && Strip(LowerStr(LastExtension(name).value)) !in AllowedExtensions ==> r == Some(""))
  {
    if AllowedFile(name) {
      var l := LowerStr(LastExtension(name).value);
      StripFixed(l);
    }
  }

  /** The dispatch strips the extension and the check does not: a name whose
      extension is " txt" is refused by the check yet read as text. */
  lemma {:induction false} DispatchLooserThanCheck(bytes: seq<bv8>, readTxt: seq<bv8> -> string, readPdf: seq<bv8> -> string)
    ensures !AllowedFile("mail. txt")
    ensures ExtractTextFromUpload("mail. txt", bytes, readTxt, readPdf) == Some(readTxt(bytes))
  {
    LastExtensionOf("mail", " txt");
    assert "mail. txt" == "mail" + "." + " txt";
    assert LowerStr(" txt") == " txt";
    assert LeadCount(" txt") == 1 by { assert " txt"[1..] == "txt"; }
    assert TrailCount(" txt") == 0;
    assert Strip(" txt") == " txt"[1..4];
    assert " txt"[1..4] == "txt";
  }

  // ------------------------------------------------------------ scan test

  /** `_is_probably_scanned` / `extraiEscaneado`. */
  predicate IsProbablyScanned(extracted: string) {
    |Strip(extracted)| < ScanThreshold
  }

  /** Whitespace around the extracted text never changes the verdict. */
  lemma {:induction false} ScannedIgnoresPadding(a: string, t: string, b: string)
    requires AllSpace(a) && AllSpace(b)
    ensures IsProbablyScanned(a + t + b) == IsProbablyScanned(t)
  {
    StripAnyPadded(a, t, b);
  }

  // -------------------------------------------------------------- clean-up

  /** The three replacements: CRLF to LF, then every remaining CR to LF, then
      the byte-order mark removed. */
  function Normalized(t: string): (u: string)
    ensures '\r' !in u && Bom !in u
  {
    var v := ReplaceChar(Replace(t, "\r\n", "\n"), '\r', '\n');
    assert '\r' !in v by {
      forall i | 0 <= i < |v| ensures v[i] != '\r' { }
    }
    RemoveChar(v, Bom)
  }

  /** `[ln.strip() for ln in lines]`. */
  function StripLines(parts: seq<string>): (ls: seq<string>)
    ensures |ls| == |parts| && forall k :: 0 <= k < |ls| ==> ls[k] == Strip(parts[k])
  {
    seq(|parts|, k requires 0 <= k < |parts| => Strip(parts[k]))
  }

  /** The stripped lines of the normalised text. */
  function Lines(t: string): seq<string> {
    StripLines(Split(Normalized(t), '\n'))
  }

  /** Each run of empty lines shortened to one empty line: an empty line
      followed by another empty line is dropped. */
  function Squeeze(ls: seq<string>): seq<string> {
    if |ls| <= 1 then ls
    else if ls[0] == [] && ls[1] == [] then Squeeze(ls[1..])
    else [ls[0]] + Squeeze(ls[1..])
  }

  /** `_cleanup_text` / `limpar_texto`. */
  function Cleanup(t: string): string {
    if t == [] then [] else Strip(Join(Squeeze(Lines(t)), '\n'))
  }

  /** Adding a line to the end of the input adds it to the end of the
      result, unless it is an empty line after an empty line. */
  lemma {:induction false} SqueezeSnoc(ls: seq<string>, x: string)
    ensures Squeeze(ls + [x]) ==
              if x == [] && ls != [] && ls[|ls| - 1] == [] then Squeeze(ls) else Squeeze(ls) + [x]
  {
    if |ls| >= 2 {
      assert (ls + [x])[1..] == ls[1..] + [x];
      SqueezeSnoc(ls[1..], x);
    } else if |ls| == 1 {
      assert (ls + [x])[1..] == [x];
    }
  }

  /** `SqueezeSnoc` at the `i`-th line. */
  lemma {:induction false} SqueezeStep(lines: seq<string>, i: nat)
    requires i < |lines|
    ensures Squeeze(lines[..i + 1]) ==
              if lines[i] == [] && i > 0 && lines[i - 1] == [] then Squeeze(lines[..i]) else Squeeze(lines[..i]) + [lines[i]]
  {
    assert lines[..i + 1] == lines[..i] + [lines[i]];
    SqueezeSnoc(lines[..i], lines[i]);
  }

  /** The clean-up as the source runs it: the replacements and the split,
      then one pass over the lines that counts the current run of empty
      lines and keeps only the first of each run. */
  method CleanupText(t: string) returns (r: string)
    ensures t == [] ==> r == []
    ensures r == Cleanup(t)
  {
    if t == [] {
      return [];
    }
    var lines := Lines(t);
    var out: seq<string> := [];
    var emptyRun := 0;
    for i := 0 to |lines|
      invariant out == Squeeze(lines[..i])
      invariant emptyRun >= 0 && (emptyRun == 0 <==> i == 0 || lines[i - 1] != [])
    {
      var ln := lines[i];
      SqueezeStep(lines, i);
      if ln == [] {
        emptyRun := emptyRun + 1;
        if emptyRun <= 1 {
          out := out + [[]];
        }
      } else {
        emptyRun := 0;
        out := out + [ln];
      }
    }
    assert lines[..|lines|] == lines;
    r := Strip(Join(out, '\n'));
  }

  // ------------------------------------------------- properties of lines

  /** The non-empty lines, in order. */
  function NonEmpty(ls: seq<string>): seq<string> {
    if ls == [] then []
    else (if ls[0] == [] then [] else [ls[0]]) + NonEmpty(ls[1..])
  }

  /** No two neighbouring lines are both empty. */
  predicate NoDoubleBlank(ls: seq<string>) {
    forall i :: 0 <= i < |ls| - 1 ==> ls[i] != [] || ls[i + 1] != []
  }

  lemma {:induction false} NonEmptySnoc(ls: seq<string>, x: string)
    ensures NonEmpty(ls + [x]) == NonEmpty(ls) + (if x == [] then [] else [x])
  {
    if ls != [] {
      assert (ls + [x])[1..] == ls[1..] + [x];
      NonEmptySnoc(ls[1..], x);
    } else {
      assert ls + [x] == [x];
    }
  }

  /** Squeezing keeps every non-empty line, in order, and leaves no two
      empty lines side by side; every line it keeps is an input line. */
  lemma {:induction false} SqueezeKeeps(ls: seq<string>)
    ensures NonEmpty(Squeeze(ls)) == NonEmpty(ls)
    ensures NoDoubleBlank(Squeeze(ls))
    ensures forall x :: x in Squeeze(ls) ==> x in ls
    ensures ls != [] ==> Squeeze(ls) != [] && Squeeze(ls)[0] == (if |ls| >= 2 && ls[0] == [] && ls[1] == [] then [] else ls[0])
  {
    if |ls| >= 2 {
      SqueezeKeeps(ls[1..]);
      var tail := Squeeze(ls[1..]);
      if ls[0] == [] && ls[1] == [] {
        assert NonEmpty(ls) == NonEmpty(ls[1..]);
      } else {
        var r := [ls[0]] + tail;
        assert r[1..] == tail;
        assert NonEmpty(r) == (if ls[0] == [] then [] else [ls[0]]) + NonEmpty(tail);
        assert tail[0] == (if |ls[1..]| >= 2 && ls[1] == [] && ls[2] == [] then [] else ls[1]);
        forall i | 0 <= i < |r| - 1 ensures r[i] != [] || r[i + 1] != [] {
          if i > 0 {
            assert r[i] == tail[i - 1] && r[i + 1] == tail[i];
          }
        }
      }
    }
  }

  /** A non-empty first line is kept and the rest squeezed on its own. */
  lemma {:induction false} SqueezeCons(x: string, rest: seq<string>)
    requires x != []
    ensures Squeeze([x] + rest) == [x] + Squeeze(rest)
  {
    if rest != [] {
      assert ([x] + rest)[1..] == rest;
    }
  }

  /** Squeezing splits after a non-empty line. */
  lemma {:induction false} SqueezeAppend(a: seq<string>, x: string, rest: seq<string>)
    requires x != []
    ensures Squeeze(a + [x] + rest) == Squeeze(a + [x]) + Squeeze(rest)
    decreases |a|
  {
    if a == [] {
      assert a + [x] + rest == [x] + rest && a + [x] == [x];
      SqueezeCons(x, rest);
    } else {
      var ls := a + [x] + rest;
      assert ls[0] == a[0] && ls[1] == (a[1..] + [x])[0];
      assert ls[1..] == a[1..] + [x] + rest;
      assert (a + [x])[1..] == a[1..] + [x];
      SqueezeAppend(a[1..], x, rest);
    }
  }

  /** A run of empty lines in front of a non-empty line becomes one empty
      line. */
  lemma {:induction false} SqueezeBlankRun(b: seq<string>, y: string, c: seq<string>)
    requires b != [] && forall k :: 0 <= k < |b| ==> b[k] == []
    requires y != []
    ensures Squeeze(b + [y] + c) == [[]] + ([y] + Squeeze(c))
    decreases |b|
  {
    var ls := b + [y] + c;
    assert ls[1..] == b[1..] + [y] + c;
    if |b| == 1 {
      assert ls[1..] == [y] + c;
      SqueezeCons(y, c);
    } else {
      SqueezeBlankRun(b[1..], y, c);
    }
  }

  /** Between two non-empty lines, a run of empty lines becomes exactly one
      empty line, and no run stays no run: paragraph breaks survive, and
      nothing is merged or split. */
  lemma {:induction false} SqueezeParagraphs(a: seq<string>, x: string, b: seq<string>, y: string, c: seq<string>)
    requires x != [] && y != []
    requires forall k :: 0 <= k < |b| ==> b[k] == []
    ensures Squeeze(a + [x] + b + [y] + c)
         == Squeeze(a + [x]) + (if b == [] then [] else [[]]) + [y] + Squeeze(c)
  {
    assert a + [x] + b + [y] + c == a + [x] + (b + [y] + c);
    SqueezeAppend(a, x, b + [y] + c);
    if b == [] {
      assert b + [y] + c == [y] + c;
      SqueezeCons(y, c);
    } else {
      SqueezeBlankRun(b, y, c);
    }
  }

  /** Leading empty lines dropped. */
  function DropLead(ls: seq<string>): seq<string> {
    if ls != [] && ls[0] == [] then DropLead(ls[1..]) else ls
  }

  /** Trailing empty lines dropped. */
  function DropTrail(ls: seq<string>): seq<string> {
    if ls != [] && ls[|ls| - 1] == [] then DropTrail(ls[..|ls| - 1]) else ls
  }

  /** Empty lines at both ends dropped. */
  function Trim(ls: seq<string>): seq<string> {
    DropTrail(DropLead(ls))
  }

  lemma {:induction false} DropLeadKeeps(ls: seq<string>)
    ensures NonEmpty(DropLead(ls)) == NonEmpty(ls)
    ensures NoDoubleBlank(ls) ==> NoDoubleBlank(DropLead(ls))
    ensures forall x :: x in DropLead(ls) ==> x in ls
    ensures DropLead(ls) == [] || DropLead(ls)[0] != []
  {
    if ls != [] && ls[0] == [] {
      DropLeadKeeps(ls[1..]);
      assert NoDoubleBlank(ls) ==> NoDoubleBlank(ls[1..]) by {
        if NoDoubleBlank(ls) {
          forall i | 0 <= i < |ls[1..]| - 1 ensures ls[1..][i] != [] || ls[1..][i + 1] != [] {
            assert ls[1..][i] == ls[i + 1] && ls[1..][i + 1] == ls[i + 2];
          }
        }
      }
    }
  }

  lemma {:induction false} DropTrailKeeps(ls: seq<string>)
    ensures NonEmpty(DropTrail(ls)) == NonEmpty(ls)
    ensures NoDoubleBlank(ls) ==> NoDoubleBlank(DropTrail(ls))
    ensures forall x :: x in DropTrail(ls) ==> x in ls
    ensures DropTrail(ls) == [] || DropTrail(ls)[|DropTrail(ls)| - 1] != []
    ensures |DropTrail(ls)| <= |ls| && DropTrail(ls) == ls[..|DropTrail(ls)|]
  {
    if ls != [] && ls[|ls| - 1] == [] {
      var init := ls[..|ls| - 1];
      DropTrailKeeps(init);
      assert ls == init + [[]];
      NonEmptySnoc(init, []);
      assert NoDoubleBlank(ls) ==> NoDoubleBlank(init) by {
        if NoDoubleBlank(ls) {
          forall i | 0 <= i < |init| - 1 ensures init[i] != [] || init[i + 1] != [] {
            assert init[i] == ls[i] && init[i + 1] == ls[i + 1];
          }
        }
      }
      assert init[..|DropTrail(init)|] == ls[..|DropTrail(init)|];
    } else {
      assert ls[..|ls|] == ls;
    }
  }

  /** Trimming keeps the non-empty lines and the absence of double blanks,
      and leaves a non-empty line at each end. */
  lemma {:induction false} TrimKeeps(ls: seq<string>)
    ensures NonEmpty(Trim(ls)) == NonEmpty(ls)
    ensures NoDoubleBlank(ls) ==> NoDoubleBlank(Trim(ls))
    ensures forall x :: x in Trim(ls) ==> x in ls
    ensures Trim(ls) == [] || (Trim(ls)[0] != [] && Trim(ls)[|Trim(ls)| - 1] != [])
  {
    DropLeadKeeps(ls);
    DropTrailKeeps(DropLead(ls));
  }

  /** Leading empty lines never reach past a non-empty line. */
  lemma {:induction false} DropLeadAppend(ls: seq<string>, rest: seq<string>)
    requires ls != [] && ls[|ls| - 1] != []
    ensures DropLead(ls + rest) == DropLead(ls) + rest
    ensures DropLead(ls) != [] && DropLead(ls)[|DropLead(ls)| - 1] == ls[|ls| - 1]
    decreases |ls|
  {
    if ls[0] == [] {
      assert (ls + rest)[1..] == ls[1..] + rest;
      DropLeadAppend(ls[1..], rest);
    }
  }

  /** Trailing empty lines never reach back past a non-empty line. */
  lemma {:induction false} DropTrailAppend(ls: seq<string>, rest: seq<string>)
    requires ls != [] && ls[|ls| - 1] != []
    ensures DropTrail(ls + rest) == ls + DropTrail(rest)
    decreases |rest|
  {
    if rest == [] {
      assert ls + rest == ls;
    } else if rest[|rest| - 1] == [] {
      var init := rest[..|rest| - 1];
      assert (ls + rest)[..|ls + rest| - 1] == ls + init;
      DropTrailAppend(ls, init);
    }
  }

  /** `Join(ls[..n] + [x])` is `Join(ls[..n])`, the separator and `x`. */
  lemma {:induction false} JoinSnoc(ls: seq<string>, sep: char)
    requires |ls| >= 2
    ensures Join(ls, sep) == Join(ls[..|ls| - 1], sep) + [sep] + ls[|ls| - 1]
  {
    if |ls| > 2 {
      JoinSnoc(ls[1..], sep);
      assert ls[1..][..|ls| - 2] == ls[..|ls| - 1][1..];
    }
  }

  lemma {:induction false} JoinDropLead(ls: seq<string>, sep: char) returns (a: string)
    requires IsSpace(sep)
    ensures AllSpace(a) && Join(ls, sep) == a + Join(DropLead(ls), sep)
  {
    a := [];
    if ls != [] && ls[0] == [] {
      if |ls| == 1 {
        assert DropLead(ls[1..]) == [];
      } else {
        var a' := JoinDropLead(ls[1..], sep);
        a := [sep] + a';
      }
    }
  }

  lemma {:induction false} JoinDropTrail(ls: seq<string>, sep: char) returns (b: string)
    requires IsSpace(sep)
    ensures AllSpace(b) && Join(ls, sep) == Join(DropTrail(ls), sep) + b
  {
    b := [];
    if ls != [] && ls[|ls| - 1] == [] {
      if |ls| == 1 {
        assert DropTrail(ls[..0]) == [];
      } else {
        JoinSnoc(ls, sep);
        var b' := JoinDropTrail(ls[..|ls| - 1], sep);
        b := b' + [sep];
      }
    }
  }

  /** A join starts with the first character of a non-empty first part. */
  lemma {:induction false} JoinFirst(parts: seq<string>, sep: char)
    requires |parts| >= 1 && parts[0] != []
    ensures Join(parts, sep) != [] && Join(parts, sep)[0] == parts[0][0]
  {
  }

  /** A join ends with the last character of a non-empty last part. */
  lemma {:induction false} JoinLast(parts: seq<string>, sep: char)
    requires |parts| >= 1 && parts[|parts| - 1] != []
    ensures var j := Join(parts, sep); j != [] && j[|j| - 1] == parts[|parts| - 1][|parts[|parts| - 1]| - 1]
  {
    if |parts| > 1 {
      JoinLast(parts[1..], sep);
    }
  }

  /** The join of lines that are stripped, the first and last not empty, is
      stripped. */
  lemma {:induction false} JoinStripped(m: seq<string>)
    requires m != [] && m[0] != [] && m[|m| - 1] != []
    requires IsStripped(m[0]) && IsStripped(m[|m| - 1])
    ensures Join(m, '\n') != [] && IsStripped(Join(m, '\n'))
  {
    JoinFirst(m, '\n');
    JoinLast(m, '\n');
  }

  /** Stripping the join of stripped lines drops exactly the empty lines at
      both ends. */
  lemma {:induction false} StripJoinTrim(ls: seq<string>)
    requires forall k :: 0 <= k < |ls| ==> IsStripped(ls[k])
    ensures Strip(Join(ls, '\n')) == Join(Trim(ls), '\n')
  {
    var a := JoinDropLead(ls, '\n');
    var b := JoinDropTrail(DropLead(ls), '\n');
    var m := Trim(ls);
    assert Join(ls, '\n') == a + Join(m, '\n') + b;
    TrimKeeps(ls);
    if m == [] {
      StripAllSpace(a + b);
    } else {
      assert m[0] in ls && m[|m| - 1] in ls;
      JoinStripped(m);
      StripPadded(a, Join(m, '\n'), b);
    }
  }

  /** A character of a part is a character of the join. */
  lemma {:induction false} JoinHas(parts: seq<string>, sep: char, k: nat, c: char)
    requires k < |parts| && c in parts[k]
    ensures c in Join(parts, sep)
  {
    if |parts| > 1 && k > 0 {
      JoinHas(parts[1..], sep, k - 1, c);
    }
  }

  /** A character of `strip(s)` is a character of `s`. */
  lemma {:induction false} StripHas(s: string, c: char)
    requires c in Strip(s)
    ensures c in s
  {
    StripWindow(s);
  }

  /** Every line of the normalised text is stripped and holds no CR, no LF
      and no byte-order mark. */
  lemma {:induction false} LinesClean(t: string)
    ensures forall k :: 0 <= k < |Lines(t)| ==>
              IsStripped(Lines(t)[k]) && '\r' !in Lines(t)[k] && '\n' !in Lines(t)[k] && Bom !in Lines(t)[k]
  {
    var u := Normalized(t);
    var parts := Split(u, '\n');
    forall k | 0 <= k < |parts|
      ensures '\r' !in Strip(parts[k]) && '\n' !in Strip(parts[k]) && Bom !in Strip(parts[k])
    {
      if '\r' in Strip(parts[k]) {
        StripHas(parts[k], '\r');
        JoinHas(parts, '\n', k, '\r');
      }
      if Bom in Strip(parts[k]) {
        StripHas(parts[k], Bom);
        JoinHas(parts, '\n', k, Bom);
      }
      if '\n' in Strip(parts[k]) {
        StripHas(parts[k], '\n');
      }
    }
  }

  /** Lines free of CR, LF and the byte-order mark, each stripped. */
  predicate CleanLines(ls: seq<string>) {
    forall k :: 0 <= k < |ls| ==> IsStripped(ls[k]) && '\r' !in ls[k] && '\n' !in ls[k] && Bom !in ls[k]
  }

  /** Lines drawn from clean lines are clean. */
  lemma {:induction false} CleanSub(ls: seq<string>, ms: seq<string>)
    requires CleanLines(ls) && forall x :: x in ms ==> x in ls
    ensures CleanLines(ms)
  {
    forall k | 0 <= k < |ms|
      ensures IsStripped(ms[k]) && '\r' !in ms[k] && '\n' !in ms[k] && Bom !in ms[k]
    {
      assert ms[k] in ls;
    }
  }

  /** Squeezing and trimming clean lines gives clean lines, none of them two
      neighbouring empty ones, with the same non-empty lines. */
  lemma {:induction false} SqueezeTrimKeeps(ls: seq<string>)
    requires CleanLines(ls)
    ensures CleanLines(Squeeze(ls)) && CleanLines(Trim(Squeeze(ls)))
    ensures NoDoubleBlank(Trim(Squeeze(ls)))
    ensures NonEmpty(Trim(Squeeze(ls))) == NonEmpty(ls)
  {
    SqueezeKeeps(ls);
    TrimKeeps(Squeeze(ls));
    CleanSub(ls, Squeeze(ls));
    CleanSub(ls, Trim(Squeeze(ls)));
  }

  /** The clean-up's last steps on clean lines: squeeze, join, strip. */
  lemma {:induction false} SqueezeJoinKeeps(ls: seq<string>)
    requires CleanLines(ls)
    ensures var r := Strip(Join(Squeeze(ls), '\n'));
            && r == Join(Trim(Squeeze(ls)), '\n')
            && '\r' !in r && Bom !in r
    ensures var out := Split(Strip(Join(Squeeze(ls), '\n')), '\n');
            && (forall k :: 0 <= k < |out| ==> IsStripped(out[k]))
            && NoDoubleBlank(out)
            && NonEmpty(out) == NonEmpty(ls)
    ensures Trim(Squeeze(ls)) != [] ==> Split(Strip(Join(Squeeze(ls), '\n')), '\n') == Trim(Squeeze(ls))
  {
    var sq := Squeeze(ls);
    var m := Trim(sq);
    SqueezeTrimKeeps(ls);
    StripJoinTrim(sq);
    JoinNotIn(m, '\n', '\r');
    JoinNotIn(m, '\n', Bom);
    if m == [] {
      assert Split([], '\n') == [[]];
    } else {
      SplitJoin(m, '\n');
    }
  }

  /** The empty input is one empty line. */
  lemma {:induction false} LinesOfEmpty()
    ensures Lines([]) == [[]]
  {
    assert Normalized([]) == [];
    assert Split([], '\n') == [[]];
  }

  /** What the clean-up promises: no CR and no byte-order mark; the text is
      stripped; every one of its lines is stripped; no two neighbouring lines
      are empty; and its non-empty lines are exactly the non-empty stripped
      input lines, in their order. */
  lemma {:induction false} CleanupKeepsLines(t: string)
    ensures var r := Cleanup(t);
            '\r' !in r && Bom !in r && IsStripped(r)
    ensures var out := Split(Cleanup(t), '\n');
            && (forall k :: 0 <= k < |out| ==> IsStripped(out[k]))
            && NoDoubleBlank(out)
            && NonEmpty(out) == NonEmpty(Lines(t))
  {
    if t == [] {
      LinesOfEmpty();
      assert Split([], '\n') == [[]];
      assert NonEmpty([[]]) == [];
    } else {
      LinesClean(t);
      SqueezeJoinKeeps(Lines(t));
    }
  }

  /** Trimming stops at the first and at the last non-empty line. */
  lemma {:induction false} TrimAround(f: seq<string>, g: seq<string>, y: string, q: seq<string>)
    requires f != [] && f[|f| - 1] != [] && y != []
    ensures Trim(f + g + [y] + q) == DropLead(f) + g + [y] + DropTrail(q)
  {
    assert f + g + [y] + q == f + (g + [y] + q);
    DropLeadAppend(f, g + [y] + q);
    var mid := DropLead(f) + g + [y];
    assert DropLead(f) + (g + [y] + q) == mid + q;
    DropTrailAppend(mid, q);
  }

  /** The trimmed, squeezed lines around two non-empty lines. */
  lemma {:induction false} TrimParagraphs(a: seq<string>, x: string, b: seq<string>, y: string, c: seq<string>)
    requires x != [] && y != []
    requires forall k :: 0 <= k < |b| ==> b[k] == []
    ensures Trim(Squeeze(a + [x] + b + [y] + c))
         == DropLead(Squeeze(a + [x])) + (if b == [] then [] else [[]]) + [y] + DropTrail(Squeeze(c))
  {
    var gap: seq<string> := if b == [] then [] else [[]];
    SqueezeSnoc(a, x);
    SqueezeParagraphs(a, x, b, y, c);
    TrimAround(Squeeze(a + [x]), gap, y, Squeeze(c));
  }

  /** Between two non-empty input lines, a run of empty lines becomes
      exactly one empty line of the result and no run stays no run; the
      lines before the first one and after the last one are cleaned on
      their own, less the empty lines at the ends. */
  lemma {:induction false} CleanupParagraphs(t: string, a: seq<string>, x: string, b: seq<string>, y: string, c: seq<string>)
    requires Lines(t) == a + [x] + b + [y] + c
    requires x != [] && y != []
    requires forall k :: 0 <= k < |b| ==> b[k] == []
    ensures Split(Cleanup(t), '\n')
         == DropLead(Squeeze(a + [x])) + (if b == [] then [] else [[]]) + [y] + DropTrail(Squeeze(c))
  {
    assert t != [] by {
      if t == [] {
        LinesOfEmpty();
      }
    }
    var ls := Lines(t);
    TrimParagraphs(a, x, b, y, c);
    LinesClean(t);
    assert CleanLines(ls);
    SqueezeJoinKeeps(ls);
  }
}
