/** Reading the model's answer as a JSON object: `_extract_json` /
    `extrair_json_do_texto` parses the first brace-delimited span of the
    answer, and `_repair_json_loose` / `reparar_json_flexivel` first mends
    the usual slips of a model (code fences, typographic quotes, trailing
    commas, single-quoted keys and values). Each `re.sub` is written out as
    a scanner over the text that remains. */
module Recovery {
  import opened Chars
  import opened Json

  // ------------------------------------------------------------ code fences

  predicate StartsWith(s: string, pre: string) {
    |pre| <= |s| && s[..|pre|] == pre
  }

  predicate EndsWith(s: string, suf: string) {
    |suf| <= |s| && s[|s| - |suf|..] == suf
  }

  const Fence: string := "```"
  const JsonFence: string := "```json"

  /** `re.sub(r"^" + f + r"\s*", "", t)`: an opening fence and the
      whitespace after it. */
  function OpenFence(t: string, f: string): string {
    if StartsWith(t, f) then StripLeft(t[|f|..]) else t
  }

  /** `re.sub(r"\s*```$", "", t)`. The text is stripped beforehand, so it
      never ends in a newline and `$` only matches at the very end. */
  function CloseFence(t: string): string {
    if EndsWith(t, Fence) then StripRight(t[..|t| - |Fence|]) else t
  }

  /** The three fence substitutions, in the order the source applies them. */
  function StripFences(t: string): string {
    CloseFence(OpenFence(OpenFence(t, JsonFence), Fence))
  }

  /** `(text or "").strip()` followed by the fence substitutions. */
  function Unfenced(text: string): string {
    StripFences(Strip(text))
  }

  /** An answer wrapped in a Markdown code block tagged `json`. */
  function Fenced(body: string): string {
    JsonFence + "\n" + body + "\n" + Fence
  }

  // ------------------------------------------------------------- searching

  /** `s.find(c)`: the first index of `c`, or -1. */
  function Find(s: string, c: char): (k: int)
    ensures -1 <= k < |s|
    ensures k == -1 <==> c !in s
    ensures k >= 0 ==> s[k] == c && c !in s[..k]
  {
    if c in s then IndexOf(s, c) else -1
  }

  /** `s.rfind(c)`: the last index of `c`, or -1. */
  function RFind(s: string, c: char): (k: int)
    ensures -1 <= k < |s|
    ensures k >= 0 ==> s[k] == c
    ensures forall m :: k < m < |s| ==> s[m] != c
    decreases |s|
  {
    if s == [] then -1
    else if s[|s| - 1] == c then |s| - 1
    else
      var k := RFind(s[..|s| - 1], c);
      assert forall m :: k < m < |s| - 1 ==> s[m] == s[..|s| - 1][m];
      k
  }

  /** Some '{' comes before some '}'. */
  predicate HasBracePair(t: string) {
    exists i, j :: 0 <= i < j < |t| && t[i] == '{' && t[j] == '}'
  }

  /** What `re.search(r"\{.*?\}", t, re.DOTALL)` finds: from the first '{'
      to the first '}' after it. When no '}' follows the first '{', none
      follows a later one either, and the search fails. */
  function NarrowSpan(t: string): (r: Option<(nat, nat)>)
    ensures r.Some? ==> r.value.0 < r.value.1 < |t| && t[r.value.0] == '{' && t[r.value.1] == '}'
  {
    var i := Find(t, '{');
    if i == -1 || '}' !in t[i + 1..] then None
    else Some((i, i + 1 + IndexOf(t[i + 1..], '}')))
  }

  // ------------------------------------------------------- strict extraction

  /** The outcome of `_extract_json`: the object, the "No JSON object found"
      error, or a decoding error of `json.loads`. */
  datatype Parsed = Parsed(fields: map<string, string>) | NoObject | Invalid

  function FromLoads(r: Option<map<string, string>>): Parsed {
    match r
    case Some(m) => Parsed(m)
    case None => Invalid
  }

  /** `_extract_json`: the narrow span, else the span from the first '{' to the
      last '}', else the error. */
  function ExtractJson(text: string): Parsed {
    ExtractFrom(Unfenced(text))
  }

  /** The search and the parse, on the unfenced text `t`. */
  function ExtractFrom(t: string): Parsed {
    match NarrowSpan(t)
    case Some((i, j)) => FromLoads(Loads(t[i..j + 1]))
    case None =>
      var start, end := Find(t, '{'), RFind(t, '}');
      if start != -1 && end != -1 && end > start then FromLoads(Loads(t[start..end + 1]))
      else NoObject
  }

  // ------------------------------------------------------------ loose repair

  const LeftDoubleQuote: char := '\U{201C}'
  const RightDoubleQuote: char := '\U{201D}'
  const RightSingleQuote: char := '\U{2019}'

  /** `t[start:end+1]` from the first '{' to the last '}', when both exist in
      that order; otherwise `t` unchanged. */
  function CutBraces(t: string): string {
    var start, end := Find(t, '{'), RFind(t, '}');
    if start != -1 && end != -1 && end > start then t[start..end + 1] else t
  }

  /** The three `str.replace` calls for typographic quotes. */
  function PlainQuotes(t: string): string {
    ReplaceChar(ReplaceChar(ReplaceChar(t, LeftDoubleQuote, '"'), RightDoubleQuote, '"'), RightSingleQuote, '\'')
  }

  /** `re.sub(r",\s*([}\]])", r"\1", s)`: a comma, the whitespace after it and
      a closing bracket become the bracket alone. */
  function DropCommas(s: string): (r: string)
    decreases |s|
  {
    if s == [] then []
    else
      var w := StripLeft(s[1..]);
      if s[0] == ',' && w != [] && (w[0] == '}' || w[0] == ']') then [w[0]] + DropCommas(w[1..])
      else [s[0]] + DropCommas(s[1..])
  }

  /** `s` between double quotes, as the replacements write it. */
  function InQuotes(s: string): string {
    "\"" + s + "\""
  }

  /** What `'([^']*)'` matches at the start of `w`: the quoted text, and the
      text after the closing quote. */
  function QuotedAt(w: string): (r: Option<(string, string)>)
    ensures r.Some? ==> |r.value.1| < |w|
  {
    if w == [] || w[0] != '\'' || '\'' !in w[1..] then None
    else
      var k := IndexOf(w[1..], '\'');
      Some((w[1..k + 1], w[k + 2..]))
  }

  /** What `\s*'([^']+)'\s*:` matches at the start of `s`: the key, and the
      text after the colon. */
  function KeyAt(s: string): (r: Option<(string, string)>)
    ensures r.Some? ==> |r.value.1| < |s|
  {
    match QuotedAt(StripLeft(s))
    case None => None
    case Some((key, after)) =>
      var v := StripLeft(after);
      if key != [] && v != [] && v[0] == ':' then Some((key, v[1..])) else None
  }

  /** `re.sub(r"(?<=\{|,)\s*'([^']+)'\s*:", r'"\1":', s)`; `after` says
      whether the character before `s` is '{' or ','. */
  function QuoteKeys(s: string, after: bool): string
    decreases |s|
  {
    if s == [] then []
    else
      match (if after then KeyAt(s) else None)
      case Some((key, rest)) => InQuotes(key) + ":" + QuoteKeys(rest, false)
      case None => [s[0]] + QuoteKeys(s[1..], s[0] == '{' || s[0] == ',')
  }

  /** What `:\s*'([^']*)'\s*(?=[,}])` matches at the start of `s`: the value,
      and the text from the ',' or '}' on. */
  function ValueAt(s: string): (r: Option<(string, string)>)
    ensures r.Some? ==> |r.value.1| < |s|
  {
    if s == [] || s[0] != ':' then None
    else
      match QuotedAt(StripLeft(s[1..]))
      case None => None
      case Some((val, after)) =>
        var v := StripLeft(after);
        if v != [] && (v[0] == ',' || v[0] == '}') then Some((val, v)) else None
  }

  /** `re.sub(r":\s*'([^']*)'\s*(?=[,}])", r': "\1"', s)`. */
  function QuoteValues(s: string): string
    decreases |s|
  {
    if s == [] then []
    else
      match ValueAt(s)
      case Some((val, rest)) => ": " + InQuotes(val) + QuoteValues(rest)
      case None => [s[0]] + QuoteValues(s[1..])
  }

  /** The text the loose repair first hands to `json.loads`. */
  function Loosen(text: string): string {
    DropCommas(PlainQuotes(CutBraces(Unfenced(text))))
  }

  /** The second attempt: single-quoted keys, then values, then the commas
      again. */
  function Requote(t: string): string {
    DropCommas(QuoteValues(QuoteKeys(t, false)))
  }

  /** `_repair_json_loose`; `None` when its last `json.loads` raises. */
  function RepairLoose(text: string): Option<map<string, string>> {
    var t := Loosen(text);
    match Loads(t)
    case Some(m) => Some(m)
    case None => Loads(Requote(t))
  }

  // ====================================================== strict extraction

  /** No '{' with a '}' after it, the narrow search fails. */
  lemma {:induction false} NarrowSpanNone(t: string)
    ensures NarrowSpan(t).None? <==> !HasBracePair(t)
  {
    if HasBracePair(t) {
      var i0, j0 :| 0 <= i0 < j0 < |t| && t[i0] == '{' && t[j0] == '}';
      var i := Find(t, '{');
      assert i <= i0;
      assert t[i + 1..][j0 - i - 1] == '}';
    }
  }

  /** `_extract_json` raises "No JSON object found" exactly when no '{' is
      followed by a '}', and otherwise parses the narrow span: its fallback
      to the widest span never changes the outcome. */
  lemma {:induction false} ExtractFallbackDead(t: string)
    ensures ExtractFrom(t) == match NarrowSpan(t)
                              case Some((i, j)) => FromLoads(Loads(t[i..j + 1]))
                              case None => NoObject
    ensures ExtractFrom(t) == NoObject <==> !HasBracePair(t)
  {
    NarrowSpanNone(t);
    if NarrowSpan(t).None? {
      var start, end := Find(t, '{'), RFind(t, '}');
      if start != -1 && end != -1 && end > start {
        assert false;
      }
    }
  }

  /** `s.find(c)` of a text that starts with `c`. */
  lemma {:induction false} FindFirst(t: string, c: char)
    requires t != [] && t[0] == c
    ensures Find(t, c) == 0
  {
    assert c in t;
  }

  /** A text from '{' to '}' with no other '}' is its own narrow span. */
  lemma {:induction false} NarrowWhole(t: string)
    requires |t| >= 2 && t[0] == '{' && t[|t| - 1] == '}' && '}' !in t[1..|t| - 1]
    ensures NarrowSpan(t).Some? && NarrowSpan(t).value == (0, |t| - 1)
  {
    FindFirst(t, '{');
    var x := t[1..|t| - 1];
    assert t[1..] == x + ['}'] + [];
    IndexOfAfter(x, '}', []);
  }

  /** A closing brace appears in an escaped string only where the string
      has one. */
  lemma {:induction false} EscapeNoBrace(str: string)
    requires '}' !in str
    ensures '}' !in Escape(str)
    decreases |str|
  {
    if str != [] {
      assert str[0] != '}';
      assert '}' !in EscapeChar(str[0]);
      assert '}' !in str[1..];
      EscapeNoBrace(str[1..]);
    }
  }

  /** No key or value holds a '}'. */
  predicate NoBraces(pairs: seq<(string, string)>) {
    forall k :: 0 <= k < |pairs| ==> '}' !in pairs[k].0 && '}' !in pairs[k].1
  }

  lemma {:induction false} NoBracesTail(pairs: seq<(string, string)>)
    requires pairs != [] && NoBraces(pairs)
    ensures NoBraces(pairs[1..])
  {
    forall k | 0 <= k < |pairs| - 1 ensures '}' !in pairs[1..][k].0 && '}' !in pairs[1..][k].1 {
      assert pairs[1..][k] == pairs[k + 1];
    }
  }

  lemma {:induction false} QuoteNoBrace(str: string)
    requires '}' !in Escape(str)
    ensures '}' !in Quote(str)
  {
  }

  lemma {:induction false} MembersNoBrace(pairs: seq<(string, string)>, sep: string)
    requires pairs != [] && NoBraces(pairs) && IsSeparator(sep)
    ensures '}' !in DumpsMembers(pairs, sep)
    decreases |pairs|
  {
    EscapeNoBrace(pairs[0].0);
    EscapeNoBrace(pairs[0].1);
    QuoteNoBrace(pairs[0].0);
    QuoteNoBrace(pairs[0].1);
    if |pairs| > 1 {
      NoBracesTail(pairs);
      MembersNoBrace(pairs[1..], sep);
    }
  }

  /** `json.dumps` of a dictionary runs from '{' to '}'. */
  lemma {:induction false} DumpsBraced(pairs: seq<(string, string)>)
    ensures var t := Dumps(pairs);
            |t| >= 2 && t[0] == '{' && t[|t| - 1] == '}'
  {
  }

  /** A text from '{' to '}' with no other '}' is parsed whole. */
  lemma {:induction false} ExtractWhole(t: string)
    requires |t| >= 2 && t[0] == '{' && t[|t| - 1] == '}' && '}' !in t[1..|t| - 1]
    ensures ExtractFrom(t) == FromLoads(Loads(t))
  {
    NarrowWhole(t);
    ExtractSpan(t, 0, |t| - 1);
    assert t[0..|t|] == t;
  }

  /** When the search finds a span, the strict stage parses that span. */
  lemma {:induction false} ExtractSpan(t: string, i: nat, j: nat)
    requires NarrowSpan(t) == Some((i, j))
    ensures i <= j < |t| && ExtractFrom(t) == FromLoads(Loads(t[i..j + 1]))
  {
    match NarrowSpan(t)
    case Some((a, b)) => assert a == i && b == j;
  }

  /** The search reads `json.dumps` of a dictionary of strings without a '}'
      in them back as that dictionary. */
  lemma {:induction false} ExtractReadsDump(pairs: seq<(string, string)>)
    requires NoBraces(pairs)
    ensures ExtractFrom(Dumps(pairs)) == Parsed(ToMap(pairs))
  {
    var t := Dumps(pairs);
    LoadsDumps(pairs);
    DumpsBraced(pairs);
    if pairs != [] {
      MembersNoBrace(pairs, ", ");
      assert t[1..|t| - 1] == DumpsMembers(pairs, ", ");
    } else {
      assert t[1..|t| - 1] == [];
    }
    ExtractWhole(t);
  }

  /** A text that does not start like the fence `f` keeps its start. */
  lemma {:induction false} OpenFenceNone(t: string, f: string)
    requires t != [] && f != [] && t[0] != f[0]
    ensures OpenFence(t, f) == t
  {
    assert !StartsWith(t, f) by {
      if |f| <= |t| {
        assert t[..|f|][0] == t[0];
      }
    }
  }

  /** A text that does not end in '`' keeps its end. */
  lemma {:induction false} CloseFenceNone(t: string)
    requires t != [] && t[|t| - 1] != '`'
    ensures CloseFence(t) == t
  {
    assert !EndsWith(t, Fence) by {
      if |Fence| <= |t| {
        assert t[|t| - |Fence|..][2] == t[|t| - 1];
      }
    }
  }

  /** An opening fence, whitespace, then the text: the text remains. */
  lemma {:induction false} OpenFenceAt(f: string, ws: string, t: string)
    requires AllSpace(ws) && t != [] && !IsSpace(t[0])
    ensures OpenFence(f + ws + t, f) == t
  {
    var s := f + (ws + t);
    assert f + ws + t == s;
    assert s[..|f|] == f;
    AfterPrefix(f, ws + t, |f|);
    StripLeftPad(ws, t);
    StripLeftNone(t);
  }

  /** A text from '{' to '}' is left alone by the strip and the fence
      substitutions. */
  lemma {:induction false} BracedUnfenced(t: string)
    requires |t| >= 2 && t[0] == '{' && t[|t| - 1] == '}'
    ensures Unfenced(t) == t
  {
    StripFixed(t);
    OpenFenceNone(t, JsonFence);
    OpenFenceNone(t, Fence);
    CloseFenceNone(t);
  }

  /** The fence substitutions take a ```json block apart: its body comes
      back. */
  lemma {:induction false} FenceRoundTrip(body: string)
    requires body != [] && IsStripped(body) && body[0] != '`'
    ensures Unfenced(Fenced(body)) == body
  {
    var s := Fenced(body);
    var t1 := body + "\n" + Fence;
    assert s == JsonFence + "\n" + t1;
    StripFixed(s);
    OpenFenceAt(JsonFence, "\n", t1);
    OpenFenceNone(t1, Fence);
    assert EndsWith(t1, Fence) && t1[..|t1| - |Fence|] == body + "\n";
    StripRightNewline(body);
  }

  /** The answer `json.dumps(d, ensure_ascii=False)`, bare or in a ```json
      block, is read back as `d` by the strict stage. */
  lemma {:induction false} ExtractDumps(pairs: seq<(string, string)>)
    requires NoBraces(pairs)
    ensures ExtractJson(Dumps(pairs)) == Parsed(ToMap(pairs))
    ensures ExtractJson(Fenced(Dumps(pairs))) == Parsed(ToMap(pairs))
  {
    var t := Dumps(pairs);
    DumpsBraced(pairs);
    BracedUnfenced(t);
    FenceRoundTrip(t);
    ExtractReadsDump(pairs);
  }

  // ============================================================ loose repair

  /** Only commas and whitespace: what the comma repair may delete. */
  function Visible(s: string): string
    decreases |s|
  {
    if s == [] then []
    else (if s[0] == ',' || IsSpace(s[0]) then [] else [s[0]]) + Visible(s[1..])
  }

  lemma {:induction false} VisibleStripLeft(s: string)
    ensures Visible(StripLeft(s)) == Visible(s)
    decreases |s|
  {
    if s != [] && IsSpace(s[0]) {
      assert StripLeft(s) == StripLeft(s[1..]);
      VisibleStripLeft(s[1..]);
    }
  }

  /** The comma repair deletes nothing but commas and whitespace. */
  lemma {:induction false} DropCommasKeeps(s: string)
    ensures Visible(DropCommas(s)) == Visible(s)
    decreases |s|
  {
    if s != [] {
      var w := StripLeft(s[1..]);
      if s[0] == ',' && w != [] && (w[0] == '}' || w[0] == ']') {
        VisibleStripLeft(s[1..]);
        DropCommasKeeps(w[1..]);
        assert ([w[0]] + DropCommas(w[1..]))[1..] == DropCommas(w[1..]);
      } else {
        DropCommasKeeps(s[1..]);
        assert ([s[0]] + DropCommas(s[1..]))[1..] == DropCommas(s[1..]);
      }
    }
  }

  /** A comma, whitespace and a closing bracket lose the comma and the
      whitespace. */
  lemma {:induction false} DropCommaBeforeClose(ws: string, b: char, y: string)
    requires AllSpace(ws) && (b == '}' || b == ']')
    ensures DropCommas([','] + ws + [b] + y) == [b] + DropCommas(y)
  {
    var s := [','] + (ws + ([b] + y));
    assert [','] + ws + [b] + y == s;
    assert s[1..] == ws + ([b] + y);
    StripLeftPad(ws, [b] + y);
    StripLeftNone([b] + y);
    assert ([b] + y)[1..] == y;
  }

  /** A character other than a comma passes the comma repair. */
  lemma {:induction false} DropCommasCons(c: char, y: string)
    requires c != ','
    ensures DropCommas([c] + y) == [c] + DropCommas(y)
  {
    assert ([c] + y)[1..] == y;
  }

  /** Text without commas passes the comma repair unchanged. */
  lemma {:induction false} DropCommasFree(x: string, y: string)
    requires ',' !in x
    ensures DropCommas(x + y) == x + DropCommas(y)
    decreases |x|
  {
    if x == [] {
      assert x + y == y;
      assert x + DropCommas(y) == DropCommas(y);
    } else {
      ConsSplit(x, y);
      ConsSplit(x, DropCommas(y));
      DropCommasCons(x[0], x[1..] + y);
      DropCommasFree(x[1..], y);
    }
  }

  /** The closing of an object, with or without a trailing comma. */
  lemma {:induction false} DropCommasClose(close: string)
    requires close == "}" || close == ",}"
    ensures DropCommas(close) == "}"
  {
    if close == "}" {
      DropCommasCons('}', []);
      assert close == ['}'] + [];
    } else {
      DropCommaBeforeClose([], '}', []);
      assert close == [','] + [] + ['}'] + [];
    }
  }

  /** The separator `, `, split after its comma. */
  lemma {:induction false} CommaSpace(x: string)
    ensures ", " + x == [','] + (" " + x)
  {
  }

  /** A comma not followed by a closing bracket stays. */
  lemma {:induction false} DropCommasComma(y: string)
    requires StripLeft(y) != [] && StripLeft(y)[0] != '}' && StripLeft(y)[0] != ']'
    ensures DropCommas([','] + y) == [','] + DropCommas(y)
  {
    assert ([','] + y)[1..] == y;
  }

  /** A separator in front of a member keeps its comma. */
  lemma {:induction false} DropCommasSep(sep: string, y: string)
    requires IsSeparator(sep) && y != [] && !IsSpace(y[0]) && y[0] != '}' && y[0] != ']'
    ensures DropCommas(sep + y) == sep + DropCommas(y)
  {
    StripLeftNone(y);
    if sep == "," {
      assert sep + y == [','] + y;
      DropCommasComma(y);
    } else {
      CommaSpace(y);
      StripLeftPad(" ", y);
      DropCommasComma(" " + y);
      DropCommasCons(' ', y);
      CommaSpace(DropCommas(y));
    }
  }

  lemma {:induction false} ReplaceAbsent(s: string, c: char, d: char)
    requires c !in s
    ensures ReplaceChar(s, c, d) == s
  {
    assert forall i :: 0 <= i < |s| ==> s[i] != c;
  }

  /** The quote replacements leave no typographic quote, and change no other
      character. */
  lemma {:induction false} PlainQuotesClean(t: string)
    ensures var r := PlainQuotes(t);
            && |r| == |t|
            && LeftDoubleQuote !in r && RightDoubleQuote !in r && RightSingleQuote !in r
            && forall i :: 0 <= i < |t| && t[i] != LeftDoubleQuote && t[i] != RightDoubleQuote && t[i] != RightSingleQuote
                 ==> r[i] == t[i]
  {
    var r := PlainQuotes(t);
    forall i | 0 <= i < |r|
      ensures r[i] != LeftDoubleQuote && r[i] != RightDoubleQuote && r[i] != RightSingleQuote
    {
    }
  }

  /** A text from '{' to '}' with no typographic quotes reaches the comma
      repair unchanged. */
  lemma {:induction false} LoosenBraced(t: string)
    requires |t| >= 2 && t[0] == '{' && t[|t| - 1] == '}'
    requires LeftDoubleQuote !in t && RightDoubleQuote !in t && RightSingleQuote !in t
    ensures Loosen(t) == DropCommas(t)
  {
    BracedUnfenced(t);
    FindFirst(t, '{');
    assert RFind(t, '}') == |t| - 1;
    assert t[0..|t|] == t;
    ReplaceAbsent(t, LeftDoubleQuote, '"');
    ReplaceAbsent(t, RightDoubleQuote, '"');
    ReplaceAbsent(t, RightSingleQuote, '\'');
  }

  // ------------------------------------------------- the quoting scanners

  /** A quoted text without quotes inside. */
  lemma {:induction false} QuotedAtSplit(x: string, rest: string)
    requires '\'' !in x
    ensures QuotedAt("'" + x + "'" + rest) == Some((x, rest))
  {
    var y := x + ['\''] + rest;
    QuoteCons(x, rest);
    IndexOfAfter(x, '\'', rest);
    ConsSlices('\'', y, |x|);
  }

  lemma {:induction false} QuoteCons(x: string, rest: string)
    ensures "'" + x + "'" + rest == ['\''] + (x + ['\''] + rest)
  {
  }

  /** Slices of `[c] + y` as slices of `y`. */
  lemma {:induction false} ConsSlices(c: char, y: string, k: nat)
    requires k < |y|
    ensures ([c] + y)[1..] == y && ([c] + y)[1..k + 1] == y[..k] && ([c] + y)[k + 2..] == y[k + 1..]
  {
  }


  /** A character other than '{' and ',' passes the key repair. */
  lemma {:induction false} QuoteKeysCons(c: char, y: string)
    requires c != '{' && c != ','
    ensures QuoteKeys([c] + y, false) == [c] + QuoteKeys(y, false)
  {
    assert ([c] + y)[1..] == y;
  }

  /** After '{' or ',' the key repair looks for a key. */
  lemma {:induction false} QuoteKeysAfter(c: char, y: string)
    requires c == '{' || c == ','
    ensures QuoteKeys([c] + y, false) == [c] + QuoteKeys(y, true)
  {
    assert ([c] + y)[1..] == y;
  }

  /** One step of the key repair where the key pattern matches. */
  lemma {:induction false} QuoteKeysStep(s: string, key: string, rest: string)
    requires s != [] && KeyAt(s) == Some((key, rest))
    ensures QuoteKeys(s, true) == InQuotes(key) + ":" + QuoteKeys(rest, false)
  {
  }

  /** Whitespace and a quoted text without quotes inside: `\s*'([^']*)'`. */
  lemma {:induction false} QuotedAtPadded(ws: string, x: string, after: string)
    requires AllSpace(ws) && '\'' !in x
    ensures QuotedAt(StripLeft(ws + ("'" + x + "'" + after))) == Some((x, after))
  {
    var w := "'" + x + "'" + after;
    StripLeftNone(w);
    StripLeftPad(ws, w);
    QuotedAtSplit(x, after);
  }

  /** Whitespace before a visible character is stripped. */
  lemma {:induction false} StripLeftAt(ws: string, t: string)
    requires AllSpace(ws) && t != [] && !IsSpace(t[0])
    ensures StripLeft(ws + t) == t
  {
    StripLeftNone(t);
    StripLeftPad(ws, t);
  }

  /** The key pattern at whitespace, a quoted key, whitespace and a colon. */
  lemma {:induction false} KeyAtPadded(ws: string, key: string, ws2: string, rest: string)
    requires AllSpace(ws) && AllSpace(ws2) && key != [] && '\'' !in key
    ensures KeyAt(ws + ("'" + key + "'" + (ws2 + (":" + rest)))) == Some((key, rest))
  {
    QuotedAtPadded(ws, key, ws2 + (":" + rest));
    StripLeftAt(ws2, ":" + rest);
    assert (":" + rest)[1..] == rest;
  }

  /** After '{' or ',', whitespace, a non-empty key in Python's quotes,
      whitespace and a colon become the key in double quotes and the colon,
      with the spaces gone; the repair carries on after the colon. */
  lemma {:induction false} QuoteKeysMatch(ws: string, key: string, ws2: string, rest: string)
    requires AllSpace(ws) && AllSpace(ws2) && key != [] && '\'' !in key
    ensures QuoteKeys(ws + ("'" + key + "'" + (ws2 + (":" + rest))), true) == InQuotes(key) + ":" + QuoteKeys(rest, false)
  {
    KeyAtPadded(ws, key, ws2, rest);
    QuoteKeysStep(ws + ("'" + key + "'" + (ws2 + (":" + rest))), key, rest);
  }

  /** Text without '{' or ',' passes the key repair unchanged, when the
      character before it is neither. */
  lemma {:induction false} QuoteKeysFree(x: string, y: string)
    requires '{' !in x && ',' !in x
    ensures QuoteKeys(x + y, false) == x + QuoteKeys(y, false)
    decreases |x|
  {
    if x == [] {
      assert x + y == y;
      assert x + QuoteKeys(y, false) == QuoteKeys(y, false);
    } else {
      ConsSplit(x, y);
      ConsSplit(x, QuoteKeys(y, false));
      QuoteKeysCons(x[0], x[1..] + y);
      QuoteKeysFree(x[1..], y);
    }
  }

  /** A character other than ':' passes the value repair. */
  lemma {:induction false} QuoteValuesCons(c: char, y: string)
    requires c != ':'
    ensures QuoteValues([c] + y) == [c] + QuoteValues(y)
  {
    assert ([c] + y)[1..] == y;
  }

  /** One step of the value repair where the value pattern matches. */
  lemma {:induction false} QuoteValuesStep(s: string, val: string, rest: string)
    requires s != [] && ValueAt(s) == Some((val, rest))
    ensures QuoteValues(s) == ": " + InQuotes(val) + QuoteValues(rest)
  {
  }

  /** The value pattern at a colon, whitespace, a quoted value, whitespace
      and a ',' or a '}'. */
  lemma {:induction false} ValueAtPadded(ws: string, val: string, ws2: string, tail: string)
    requires AllSpace(ws) && AllSpace(ws2) && '\'' !in val && tail != [] && (tail[0] == ',' || tail[0] == '}')
    ensures ValueAt(":" + (ws + ("'" + val + "'" + (ws2 + tail)))) == Some((val, tail))
  {
    QuotedAtPadded(ws, val, ws2 + tail);
    StripLeftAt(ws2, tail);
    ValueAtColon(ws + ("'" + val + "'" + (ws2 + tail)), val, ws2 + tail);
  }

  /** The value pattern after a colon, once the quoted value is found. */
  lemma {:induction false} ValueAtColon(x: string, val: string, after: string)
    requires QuotedAt(StripLeft(x)) == Some((val, after))
    requires StripLeft(after) != [] && (StripLeft(after)[0] == ',' || StripLeft(after)[0] == '}')
    ensures ValueAt(":" + x) == Some((val, StripLeft(after)))
  {
    assert (":" + x)[1..] == x;
  }

  /** A colon, whitespace, a value in Python's quotes and whitespace before a
      ',' or a '}' become ": " and the value in double quotes; the ',' or '}'
      stays and the repair carries on after it. */
  lemma {:induction false} QuoteValuesMatch(ws: string, val: string, ws2: string, c: char, rest: string)
    requires AllSpace(ws) && AllSpace(ws2) && '\'' !in val && (c == ',' || c == '}')
    ensures QuoteValues(":" + (ws + ("'" + val + "'" + (ws2 + ([c] + rest))))) == ": " + InQuotes(val) + ([c] + QuoteValues(rest))
  {
    ValueAtPadded(ws, val, ws2, [c] + rest);
    QuoteValuesStep(":" + (ws + ("'" + val + "'" + (ws2 + ([c] + rest)))), val, [c] + rest);
    QuoteValuesCons(c, rest);
  }

  /** Text without ':' passes the value repair unchanged. */
  lemma {:induction false} QuoteValuesFree(x: string, y: string)
    requires ':' !in x
    ensures QuoteValues(x + y) == x + QuoteValues(y)
    decreases |x|
  {
    if x == [] {
      assert x + y == y;
      assert x + QuoteValues(y) == QuoteValues(y);
    } else {
      ConsSplit(x, y);
      ConsSplit(x, QuoteValues(y));
      QuoteValuesCons(x[0], x[1..] + y);
      QuoteValuesFree(x[1..], y);
    }
  }

  // ---------------------------------------- single-quoted objects, repaired

  /** A character the repairs carry through unchanged inside a key or a value,
      and that `json.dumps` writes as itself. */
  predicate PlainChar(c: char) {
    && c >= ' ' && c != '\'' && c != '"' && c != '\\'
    && c != ',' && c != ':' && c != '{' && c != '}'
    && c != LeftDoubleQuote && c != RightDoubleQuote && c != RightSingleQuote
  }

  predicate Plain(s: string) {
    forall i :: 0 <= i < |s| ==> PlainChar(s[i])
  }

  /** Non-empty plain keys and plain values. */
  predicate PlainPairs(pairs: seq<(string, string)>) {
    forall k :: 0 <= k < |pairs| ==> pairs[k].0 != [] && Plain(pairs[k].0) && Plain(pairs[k].1)
  }

  /** ` 'value'`: a value in Python's quotes after the colon. */
  function SingleValue(val: string): string {
    " '" + val + "'"
  }

  /** A plain value in Python's quotes holds no '{' and no ','. */
  lemma {:induction false} SingleValueFree(val: string)
    requires Plain(val)
    ensures '{' !in SingleValue(val) && ',' !in SingleValue(val)
  {
    PlainNotIn(val, '{');
    PlainNotIn(val, ',');
  }

  /** `'key': 'value'`. */
  function SingleMember(key: string, val: string): string {
    "'" + key + "'" + (":" + SingleValue(val))
  }

  function SingleMembers(pairs: seq<(string, string)>): string
    requires pairs != []
  {
    SingleMember(pairs[0].0, pairs[0].1)
    + (if |pairs| == 1 then "" else ", " + SingleMembers(pairs[1..]))
  }

  /** `{'k1': 'v1', ..., 'kn': 'vn',}`: a dictionary in Python's quotes with a
      trailing comma. */
  function SingleQuoted(pairs: seq<(string, string)>): string
    requires pairs != []
  {
    "{" + SingleMembers(pairs) + ",}"
  }

  /** `{"k1": "v1", ..., "kn": "vn",}`: the same in double quotes. */
  function DoubleQuoted(pairs: seq<(string, string)>): string
    requires pairs != []
  {
    "{" + DumpsMembers(pairs, ", ") + ",}"
  }

  /** `"key": 'value'`: a member once its key is quoted. */
  function KeyedMember(key: string, val: string): string {
    InQuotes(key) + (":" + SingleValue(val))
  }

  function KeyedMembers(pairs: seq<(string, string)>): string
    requires pairs != []
  {
    KeyedMember(pairs[0].0, pairs[0].1)
    + (if |pairs| == 1 then "" else "," + KeyedMembers(pairs[1..]))
  }

  /** `"key": "value"`: a member as `json.dumps` writes plain strings. */
  function DumpedMember(key: string, val: string): string {
    InQuotes(key) + (": " + InQuotes(val))
  }

  lemma {:induction false} PlainPairsTail(pairs: seq<(string, string)>)
    requires |pairs| > 1 && PlainPairs(pairs)
    ensures PlainPairs(pairs[1..])
  {
    forall k | 0 <= k < |pairs| - 1
      ensures pairs[1..][k].0 != [] && Plain(pairs[1..][k].0) && Plain(pairs[1..][k].1)
    {
      assert pairs[1..][k] == pairs[k + 1];
    }
  }

  /** A plain character is its own JSON escape. */
  lemma {:induction false} EscapePlainChar(c: char)
    requires PlainChar(c)
    ensures EscapeChar(c) == [c]
  {
  }

  lemma {:induction false} PlainTail(s: string)
    requires s != [] && Plain(s)
    ensures PlainChar(s[0]) && Plain(s[1..])
  {
    forall i | 0 <= i < |s| - 1 ensures PlainChar(s[1..][i]) {
      assert s[1..][i] == s[i + 1];
    }
  }

  /** A plain string is its own JSON escape. */
  lemma {:induction false} EscapePlain(s: string)
    requires Plain(s)
    ensures Escape(s) == s
    decreases |s|
  {
    if s != [] {
      PlainTail(s);
      EscapePlainChar(s[0]);
      EscapePlain(s[1..]);
      assert Escape(s) == EscapeChar(s[0]) + Escape(s[1..]);
      assert s == [s[0]] + s[1..];
    }
  }

  lemma {:induction false} PlainNotIn(s: string, c: char)
    requires Plain(s) && !PlainChar(c)
    ensures c !in s
  {
  }

  /** The single-quoted members, their first one split off. */
  lemma {:induction false} SingleShape(pairs: seq<(string, string)>, u: string)
    requires pairs != []
    ensures SingleMembers(pairs) + u
         == SingleMember(pairs[0].0, pairs[0].1)
            + (if |pairs| == 1 then u else ", " + (SingleMembers(pairs[1..]) + u))
    ensures (SingleMembers(pairs) + u)[0] == '\''
  {
  }

  /** The keyed members, their first one split off. */
  lemma {:induction false} KeyedShape(pairs: seq<(string, string)>, u: string)
    requires pairs != []
    ensures KeyedMembers(pairs) + u
         == KeyedMember(pairs[0].0, pairs[0].1)
            + (if |pairs| == 1 then u else "," + (KeyedMembers(pairs[1..]) + u))
  {
  }

  /** Members `json.dumps` writes for plain strings, their first one split
      off. */
  lemma {:induction false} DumpsShape(pairs: seq<(string, string)>, sep: string, u: string)
    requires pairs != [] && PlainPairs(pairs)
    ensures DumpsMembers(pairs, sep) + u
         == DumpedMember(pairs[0].0, pairs[0].1)
            + (if |pairs| == 1 then u else sep + (DumpsMembers(pairs[1..], sep) + u))
  {
    EscapePlain(pairs[0].0);
    EscapePlain(pairs[0].1);
  }

  /** No typographic quote in the single-quoted text. */
  lemma {:induction false} SingleNoSmart(pairs: seq<(string, string)>, c: char)
    requires pairs != [] && PlainPairs(pairs)
    requires c == LeftDoubleQuote || c == RightDoubleQuote || c == RightSingleQuote
    ensures c !in SingleMembers(pairs)
    decreases |pairs|
  {
    PlainNotIn(pairs[0].0, c);
    PlainNotIn(pairs[0].1, c);
    if |pairs| > 1 {
      PlainPairsTail(pairs);
      SingleNoSmart(pairs[1..], c);
    }
  }

  /** A character that is not in the key or the value, and is no quote,
      colon or space, is not in their member. */
  lemma {:induction false} NotInMember(c: char, key: string, val: string)
    requires c !in key && c !in val && c != '"' && c != ':' && c != ' '
    ensures c !in DumpedMember(key, val)
  {
  }

  /** No typographic quote in the double-quoted text. */
  lemma {:induction false} DoubleNoSmart(pairs: seq<(string, string)>, sep: string, c: char)
    requires pairs != [] && PlainPairs(pairs)
    requires c == LeftDoubleQuote || c == RightDoubleQuote || c == RightSingleQuote
    requires IsSeparator(sep)
    ensures c !in DumpsMembers(pairs, sep)
    decreases |pairs|
  {
    var u: string := [];
    DumpsShape(pairs, sep, u);
    assert DumpsMembers(pairs, sep) + u == DumpsMembers(pairs, sep);
    PlainNotIn(pairs[0].0, c);
    PlainNotIn(pairs[0].1, c);
    NotInMember(c, pairs[0].0, pairs[0].1);
    if |pairs| > 1 {
      PlainPairsTail(pairs);
      DoubleNoSmart(pairs[1..], sep, c);
      assert DumpsMembers(pairs[1..], sep) + u == DumpsMembers(pairs[1..], sep);
    }
  }

  /** The comma repair removes only the trailing comma of the single-quoted
      members. */
  lemma {:induction false} DropSingle(pairs: seq<(string, string)>)
    requires pairs != [] && PlainPairs(pairs)
    ensures DropCommas(SingleMembers(pairs) + ",}") == SingleMembers(pairs) + "}"
    decreases |pairs|
  {
    var m := SingleMember(pairs[0].0, pairs[0].1);
    PlainNotIn(pairs[0].0, ',');
    PlainNotIn(pairs[0].1, ',');
    assert ',' !in m;
    SingleShape(pairs, ",}");
    SingleShape(pairs, "}");
    if |pairs| == 1 {
      DropCommasFree(m, ",}");
      DropCommasClose(",}");
    } else {
      var rest := SingleMembers(pairs[1..]);
      PlainPairsTail(pairs);
      DropSingle(pairs[1..]);
      DropCommasFree(m, ", " + (rest + ",}"));
      SingleShape(pairs[1..], ",}");
      DropCommasSep(", ", rest + ",}");
    }
  }

  /** The comma repair removes only a trailing comma, if any, of members
      written by `DumpsMembers`. */
  lemma {:induction false} DropDumps(pairs: seq<(string, string)>, sep: string, close: string)
    requires pairs != [] && PlainPairs(pairs) && IsSeparator(sep)
    requires close == "}" || close == ",}"
    ensures DropCommas(DumpsMembers(pairs, sep) + close) == DumpsMembers(pairs, sep) + "}"
    decreases |pairs|
  {
    PlainNotIn(pairs[0].0, ',');
    PlainNotIn(pairs[0].1, ',');
    var m := DumpedMember(pairs[0].0, pairs[0].1);
    assert ',' !in m;
    DumpsShape(pairs, sep, close);
    DumpsShape(pairs, sep, "}");
    if |pairs| == 1 {
      DropCommasFree(m, close);
      DropCommasClose(close);
    } else {
      var rest := DumpsMembers(pairs[1..], sep);
      PlainPairsTail(pairs);
      DropDumps(pairs[1..], sep, close);
      DropCommasFree(m, sep + (rest + close));
      DumpsStartsWithQuote(pairs[1..], sep, close);
      DropCommasSep(sep, rest + close);
    }
  }

  /** An object whose first member is single-quoted is not JSON, whatever
      follows it. */
  lemma {:induction false} SingleNotJson(pairs: seq<(string, string)>, u: string)
    requires pairs != []
    ensures Loads("{" + (SingleMembers(pairs) + u)) == None
  {
    var x := SingleMembers(pairs) + u;
    SingleShape(pairs, u);
    var s := "{" + x;
    AfterPrefix("{", x, 1);
    assert SkipWs(s) == s && SkipWs(x) == x;
    assert ParseMember(x) == None;
  }

  /** The single-quoted members hold no '}'. */
  lemma {:induction false} SingleNoBrace(pairs: seq<(string, string)>)
    requires pairs != [] && PlainPairs(pairs)
    ensures '}' !in SingleMembers(pairs)
    decreases |pairs|
  {
    PlainNotIn(pairs[0].0, '}');
    PlainNotIn(pairs[0].1, '}');
    if |pairs| > 1 {
      PlainPairsTail(pairs);
      SingleNoBrace(pairs[1..]);
    }
  }

  /** The strict stage rejects the single-quoted object: its span parses as
      nothing. */
  lemma {:induction false} ExtractSingleInvalid(pairs: seq<(string, string)>)
    requires pairs != [] && PlainPairs(pairs)
    ensures ExtractJson(SingleQuoted(pairs)) == Invalid
  {
    var sm := SingleMembers(pairs);
    var t := "{" + (sm + ",}");
    Assoc("{", sm, ",}");
    SingleNoBrace(pairs);
    assert t[1..|t| - 1] == sm + ",";
    BracedUnfenced(t);
    ExtractWhole(t);
    SingleNotJson(pairs, ",}");
  }

  /** The key pattern at a single-quoted member. */
  lemma {:induction false} KeyAtSingle(lead: string, key: string, val: string, rest: string)
    requires lead == "" || lead == " "
    requires key != [] && Plain(key)
    ensures KeyAt(lead + (SingleMember(key, val) + rest)) == Some((key, SingleValue(val) + rest))
  {
    var after := ":" + (SingleValue(val) + rest);
    var w := "'" + key + "'" + after;
    assert SingleMember(key, val) + rest == w by {
      Assoc("'" + key + "'", ":" + SingleValue(val), rest);
      Assoc(":", SingleValue(val), rest);
    }
    StripLeftNone(w);
    if lead == " " {
      StripLeftPad(lead, w);
    } else {
      assert lead + w == w;
    }
    PlainNotIn(key, '\'');
    QuotedAtSplit(key, after);
    StripLeftNone(after);
    assert after[1..] == SingleValue(val) + rest;
  }

  /** The key repair quotes the key of every single-quoted member. */
  lemma {:induction false} KeysSingle(pairs: seq<(string, string)>, lead: string)
    requires pairs != [] && PlainPairs(pairs)
    requires lead == "" || lead == " "
    ensures QuoteKeys(lead + (SingleMembers(pairs) + "}"), true) == KeyedMembers(pairs) + "}"
    decreases |pairs|
  {
    var key, val := pairs[0].0, pairs[0].1;
    var sv := SingleValue(val);
    var tail := if |pairs| == 1 then "}" else ", " + (SingleMembers(pairs[1..]) + "}");
    SingleShape(pairs, "}");
    KeyedShape(pairs, "}");
    var s := lead + (SingleMember(key, val) + tail);
    KeyAtSingle(lead, key, val, tail);
    QuoteKeysStep(s, key, sv + tail);
    SingleValueFree(val);
    QuoteKeysFree(sv, tail);
    var qt := QuoteKeys(tail, false);
    assert QuoteKeys(s, true) == InQuotes(key) + ":" + (sv + qt);
    Assoc(InQuotes(key) + ":", sv, qt);
    Assoc(InQuotes(key), ":", sv);
    Assoc(InQuotes(key), ":" + sv, qt);
    if |pairs| == 1 {
      QuoteKeysCons('}', []);
      assert tail == ['}'] + [];
    } else {
      var rest := SingleMembers(pairs[1..]);
      PlainPairsTail(pairs);
      KeysSingle(pairs[1..], " ");
      CommaSpace(rest + "}");
      QuoteKeysAfter(',', " " + (rest + "}"));
    }
  }

  /** The value pattern after a quoted key. */
  lemma {:induction false} ValueAtKeyed(val: string, rest: string)
    requires Plain(val) && rest != [] && (rest[0] == ',' || rest[0] == '}')
    ensures ValueAt(":" + (SingleValue(val) + rest)) == Some((val, rest))
  {
    var w := "'" + val + "'" + rest;
    var s := ":" + (SingleValue(val) + rest);
    assert s[1..] == " " + w;
    StripLeftNone(w);
    StripLeftPad(" ", w);
    PlainNotIn(val, '\'');
    QuotedAtSplit(val, rest);
    StripLeftNone(rest);
  }

  /** The value repair turns the keyed members into JSON members. */
  lemma {:induction false} ValuesKeyed(pairs: seq<(string, string)>)
    requires pairs != [] && PlainPairs(pairs)
    ensures QuoteValues(KeyedMembers(pairs) + "}") == DumpsMembers(pairs, ",") + "}"
    decreases |pairs|
  {
    var key, val := pairs[0].0, pairs[0].1;
    var q := InQuotes(key);
    var tail := if |pairs| == 1 then "}" else "," + (KeyedMembers(pairs[1..]) + "}");
    KeyedShape(pairs, "}");
    DumpsShape(pairs, ",", "}");
    PlainNotIn(key, ':');
    var v := ":" + (SingleValue(val) + tail);
    Assoc(q, ":" + SingleValue(val), tail);
    Assoc(":", SingleValue(val), tail);
    QuoteValuesFree(q, v);
    ValueAtKeyed(val, tail);
    QuoteValuesStep(v, val, tail);
    var qt := QuoteValues(tail);
    Assoc(q, ": " + InQuotes(val), qt);
    if |pairs| == 1 {
      QuoteValuesCons('}', []);
      assert tail == ['}'] + [];
    } else {
      PlainPairsTail(pairs);
      ValuesKeyed(pairs[1..]);
      var rest := KeyedMembers(pairs[1..]) + "}";
      assert tail == [','] + rest;
      QuoteValuesCons(',', rest);
    }
  }

  /** The loose repair reads a dictionary written with Python's single
      quotes and a trailing comma as the dictionary itself, and so it does
      the same dictionary in double quotes with a trailing comma. */
  lemma {:induction false} RepairSingleQuoted(pairs: seq<(string, string)>)
    requires pairs != [] && PlainPairs(pairs)
    ensures RepairLoose(SingleQuoted(pairs)) == Some(ToMap(pairs))
    ensures RepairLoose(DoubleQuoted(pairs)) == Some(ToMap(pairs))
  {
    RepairSingle(pairs);
    RepairDouble(pairs);
  }

  /** A braced text: what the first attempt receives for it. */
  lemma {:induction false} LoosenInner(x: string, close: string)
    requires close == "}" || close == ",}"
    requires LeftDoubleQuote !in x && RightDoubleQuote !in x && RightSingleQuote !in x
    ensures Loosen("{" + x + close) == "{" + DropCommas(x + close)
  {
    var t := ['{'] + (x + close);
    Assoc("{", x, close);
    assert t[0] == '{' && t[|t| - 1] == '}';
    assert LeftDoubleQuote !in t && RightDoubleQuote !in t && RightSingleQuote !in t;
    LoosenBraced(t);
    DropCommasCons('{', x + close);
  }

  /** The first attempt leaves the single-quoted object without its trailing
      comma. */
  lemma {:induction false} LoosenSingle(pairs: seq<(string, string)>)
    requires pairs != [] && PlainPairs(pairs)
    ensures Loosen(SingleQuoted(pairs)) == "{" + SingleMembers(pairs) + "}"
  {
    var sm := SingleMembers(pairs);
    SingleNoSmart(pairs, LeftDoubleQuote);
    SingleNoSmart(pairs, RightDoubleQuote);
    SingleNoSmart(pairs, RightSingleQuote);
    LoosenInner(sm, ",}");
    DropSingle(pairs);
    Assoc("{", sm, "}");
  }

  /** The second attempt turns the single-quoted object into JSON. */
  lemma {:induction false} RequoteSingle(pairs: seq<(string, string)>)
    requires pairs != [] && PlainPairs(pairs)
    ensures Requote("{" + SingleMembers(pairs) + "}") == "{" + DumpsMembers(pairs, ",") + "}"
  {
    var sm := SingleMembers(pairs);
    Assoc("{", sm, "}");
    QuoteKeysAfter('{', sm + "}");
    KeysSingle(pairs, "");
    assert "" + (sm + "}") == sm + "}";
    var km := KeyedMembers(pairs);
    QuoteValuesCons('{', km + "}");
    ValuesKeyed(pairs);
    var dm := DumpsMembers(pairs, ",");
    DropCommasCons('{', dm + "}");
    DropDumps(pairs, ",", "}");
    Assoc("{", dm, "}");
  }

  lemma {:induction false} RepairSingle(pairs: seq<(string, string)>)
    requires pairs != [] && PlainPairs(pairs)
    ensures RepairLoose(SingleQuoted(pairs)) == Some(ToMap(pairs))
  {
    LoosenSingle(pairs);
    SingleNotJson(pairs, "}");
    Assoc("{", SingleMembers(pairs), "}");
    RequoteSingle(pairs);
    LoadsMembers(pairs, ",");
  }

  lemma {:induction false} RepairDouble(pairs: seq<(string, string)>)
    requires pairs != [] && PlainPairs(pairs)
    ensures RepairLoose(DoubleQuoted(pairs)) == Some(ToMap(pairs))
  {
    var dm := DumpsMembers(pairs, ", ");
    DoubleNoSmart(pairs, ", ", LeftDoubleQuote);
    DoubleNoSmart(pairs, ", ", RightDoubleQuote);
    DoubleNoSmart(pairs, ", ", RightSingleQuote);
    LoosenInner(dm, ",}");
    DropDumps(pairs, ", ", ",}");
    Assoc("{", dm, "}");
    LoadsMembers(pairs, ", ");
  }
}
